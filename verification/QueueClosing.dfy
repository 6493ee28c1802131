/** What closing the queue means for sleepers and for later calls. */
module QueueClosing {
  import opened Rings
  import opened BlockingQueue

  predicate Waits(pc: Pc) {
    pc.PushAsleep? || pc.PopAsleep?
  }

  /** Before the first look at the terminated flag, or not a push or a pop at all. */
  predicate Opening(pc: Pc) {
    pc.PushStart? || pc.TryPushStart? || pc.PopStart? || pc.TryPopStart? || pc.Interrupting? || pc.Closing?
  }

  ghost predicate Refused(r: Report) {
    r.Done? || r.status == EOF
  }

  ghost predicate NoSleepers(ts: Threads) {
    forall t :: t in ts ==> !Waits(ts[t].pc)
  }

  /** Once the queue is closed, sleepers remain only while a broadcast is still to come. */
  ghost predicate BroadcastDue(ts: Threads) {
    exists u :: u in ts && ts[u].pc.Interrupting?
  }

  /** Calls numbered from `since` on are not past their first check. */
  ghost predicate LateCallsOpening(ts: Threads, since: nat) {
    forall t :: t in ts && !ts[t].pc.Idle? && ts[t].call >= since ==> Opening(ts[t].pc)
  }

  ghost predicate LateCallsRefused(reports: map<nat, Report>, since: nat) {
    forall c :: c in reports && c >= since ==> Refused(reports[c])
  }

  ghost predicate CloserReturned(reports: map<nat, Report>) {
    exists c :: c in reports && reports[c] == Done(true)
  }

  ghost predicate Closed(s: State) {
    && (forall t :: t in s.threads && !s.threads[t].pc.Idle? ==> s.threads[t].call < s.nextCall)
    && (forall t :: t in s.threads && s.threads[t].pc == Interrupting(true) ==> s.terminated)
    && (s.terminated && !NoSleepers(s.threads) ==> BroadcastDue(s.threads))
    && (CloserReturned(s.reports) ==> s.terminated && NoSleepers(s.threads))
    && (s.terminated ==> LateCallsOpening(s.threads, s.closedAt) && LateCallsRefused(s.reports, s.closedAt))
  }

  ghost predicate MayMoveTo(s: State, t: Tid, pc: Pc)
    requires t in s.threads
  {
    && !s.threads[t].pc.Idle? && !s.threads[t].pc.Interrupting? && !pc.Idle?
    && (pc == Interrupting(true) ==> s.terminated)
    && (s.terminated ==> !Waits(pc) && (s.threads[t].call >= s.closedAt ==> Opening(pc)))
  }

  lemma MoveClosed(s: State, t: Tid, pc: Pc)
    requires Closed(s) && t in s.threads && MayMoveTo(s, t, pc)
    ensures Closed(At(s, t, pc))
  {
    var s' := At(s, t, pc);
    if s.terminated && !NoSleepers(s'.threads) {
      assert !NoSleepers(s.threads);
      var u :| u in s.threads && s.threads[u].pc.Interrupting?;
      assert s'.threads[u].pc.Interrupting?;
    }
  }

  lemma ReturnClosed(s: State, t: Tid, r: Report)
    requires Closed(s) && t in s.threads && !s.threads[t].pc.Idle? && !s.threads[t].pc.Interrupting? && r != Done(true)
    requires s.terminated && s.threads[t].call >= s.closedAt ==> Refused(r)
    ensures Closed(Return(s, t, r))
  {
    var s' := Return(s, t, r);
    if CloserReturned(s'.reports) {
      var c :| c in s'.reports && s'.reports[c] == Done(true);
      assert c in s.reports && s.reports[c] == Done(true);
    }
    if s.terminated && !NoSleepers(s'.threads) {
      assert !NoSleepers(s.threads);
      var u :| u in s.threads && s.threads[u].pc.Interrupting?;
      assert s'.threads[u].pc.Interrupting?;
    }
  }

  lemma SignalClosed(s: State, w: Tid)
    requires Closed(s) && w in s.threads && Waits(s.threads[w].pc)
    ensures Closed(Signal(s, w))
  {
    MoveClosed(s, w, Wakened(s.threads[w].pc));
  }

  /** A call past its first check began before the queue was closed. */
  lemma EarlyCall(s: State, t: Tid)
    requires Closed(s) && t in s.threads && !s.threads[t].pc.Idle? && !Opening(s.threads[t].pc) && s.terminated
    ensures s.threads[t].call < s.closedAt
  {
  }

  lemma StoreClosed(s: State, t: Tid, x: Item, w: Tid)
    requires Closed(s) && t in s.threads && !s.threads[t].pc.Idle? && !Opening(s.threads[t].pc)
    requires s.ring.next < |s.ring.data|
    ensures Closed(Store(s, t, x, w))
  {
    if s.terminated { EarlyCall(s, t); }
    var s1 := s.(ring := s.ring.Put(x), stored := s.stored + [Entry(s.threads[t].call, x)]);
    assert Closed(s1);
    ReturnClosed(s1, t, Pushed(SUCCESS, x));
    hide Closed;
    var s2 := Return(s1, t, Pushed(SUCCESS, x));
    if w in PoppersAsleep(s2.threads) { SignalClosed(s2, w); }
  }

  lemma FetchClosed(s: State, t: Tid, w: Tid)
    requires Closed(s) && t in s.threads && !s.threads[t].pc.Idle? && !Opening(s.threads[t].pc)
    requires s.ring.out < |s.ring.data| && s.ring.nelts > 0
    ensures Closed(Fetch(s, t, w))
  {
    if s.terminated { EarlyCall(s, t); }
    var x := s.ring.Head();
    var s1 := s.(ring := s.ring.Drop(), fetched := s.fetched + [Entry(s.threads[t].call, x)]);
    assert Closed(s1);
    ReturnClosed(s1, t, Popped(SUCCESS, x));
    hide Closed;
    var s2 := Return(s1, t, Popped(SUCCESS, x));
    if w in PushersAsleep(s2.threads) { SignalClosed(s2, w); }
  }

  lemma WaitersClosed(s: State, full: int, empty: int)
    requires Closed(s)
    ensures Closed(s.(fullWaiters := full)) && Closed(s.(emptyWaiters := empty))
  {
  }

  lemma PushSectionClosed(s: State, t: Tid, w: Tid)
    requires Closed(s) && WellFormed(s, t) && !s.threads[t].pc.Idle?
    ensures Closed(PushSection(s, t, w))
  {
    hide Closed; hide Store;
    match s.threads[t].pc {
      case PushEnter(x) =>
        if s.terminated { EarlyCall(s, t); }
        if !s.ring.Full() { StoreClosed(s, t, x, w); }
        else if s.terminated { MoveClosed(s, t, PushStopped(x)); }
        else {
          MoveClosed(s, t, PushAsleep(x));
          WaitersClosed(At(s, t, PushAsleep(x)), s.fullWaiters + 1, 0);
        }
      case PushWoken(x) =>
        if s.terminated { EarlyCall(s, t); }
        var s1 := s.(fullWaiters := s.fullWaiters - 1);
        WaitersClosed(s, s.fullWaiters - 1, 0);
        if !s.ring.Full() { StoreClosed(s1, t, x, w); } else { MoveClosed(s1, t, PushStopped(x)); }
      case TryPushEnter(x) =>
        if s.terminated { EarlyCall(s, t); }
        if !s.ring.Full() { StoreClosed(s, t, x, w); } else { ReturnClosed(s, t, Pushed(EAGAIN, x)); }
      case _ =>
    }
  }

  lemma PopSectionClosed(s: State, t: Tid, w: Tid)
    requires Closed(s) && WellFormed(s, t) && !s.threads[t].pc.Idle?
    ensures Closed(PopSection(s, t, w))
  {
    hide Closed; hide Fetch;
    match s.threads[t].pc {
      case PopEnter(timed) =>
        if s.terminated { EarlyCall(s, t); }
        if !s.ring.Empty() { FetchClosed(s, t, w); }
        else if s.terminated { MoveClosed(s, t, PopStopped); }
        else {
          MoveClosed(s, t, PopAsleep(timed));
          WaitersClosed(At(s, t, PopAsleep(timed)), 0, s.emptyWaiters + 1);
        }
      case PopWoken =>
        if s.terminated { EarlyCall(s, t); }
        var s1 := s.(emptyWaiters := s.emptyWaiters - 1);
        WaitersClosed(s, 0, s.emptyWaiters - 1);
        if !s.ring.Empty() { FetchClosed(s1, t, w); } else { MoveClosed(s1, t, PopStopped); }
      case TryPopEnter =>
        if s.terminated { EarlyCall(s, t); }
        if !s.ring.Empty() { FetchClosed(s, t, w); } else { ReturnClosed(s, t, Popped(EAGAIN, 0)); }
      case _ =>
    }
  }

  lemma FirstCheckClosed(s: State, t: Tid)
    requires Closed(s) && t in s.threads && !s.threads[t].pc.Idle?
    ensures Closed(FirstCheck(s, t))
  {
    hide Closed;
    match s.threads[t].pc {
      case PushStart(x) =>
        if s.terminated { ReturnClosed(s, t, Pushed(EOF, x)); } else { MoveClosed(s, t, PushEnter(x)); }
      case TryPushStart(x) =>
        if s.terminated { ReturnClosed(s, t, Pushed(EOF, x)); } else { MoveClosed(s, t, TryPushEnter(x)); }
      case PopStart(timed) =>
        if s.terminated { ReturnClosed(s, t, Popped(EOF, 0)); } else { MoveClosed(s, t, PopEnter(timed)); }
      case TryPopStart =>
        if s.terminated { ReturnClosed(s, t, Popped(EOF, 0)); } else { MoveClosed(s, t, TryPopEnter); }
      case _ =>
    }
  }

  lemma GiveUpClosed(s: State, t: Tid)
    requires Closed(s) && t in s.threads && !s.threads[t].pc.Idle?
    ensures Closed(GiveUp(s, t))
  {
    hide Closed;
    match s.threads[t].pc {
      case PushStopped(x) =>
        if s.terminated { ReturnClosed(s, t, Pushed(EOF, x)); }
        else if s.threads[t].retries { MoveClosed(s, t, PushStart(x)); }
        else { ReturnClosed(s, t, Pushed(EINTR, x)); }
      case PopStopped => ReturnClosed(s, t, Popped(if s.terminated then EOF else EINTR, 0));
      case PopTimedOut =>
        if s.terminated { EarlyCall(s, t); }
        ReturnClosed(s, t, Popped(TIMEUP, 0));
        WaitersClosed(Return(s, t, Popped(TIMEUP, 0)), 0, s.emptyWaiters - 1);
      case _ =>
    }
  }

  /** The broadcast leaves nobody asleep. */
  lemma BroadcastClosed(s: State)
    requires Closed(s)
    ensures Closed(Broadcast(s)) && NoSleepers(Broadcast(s).threads)
  {
  }

  lemma DoneClosed(s: State, t: Tid)
    requires Closed(s) && NoSleepers(s.threads) && t in s.threads && s.threads[t].pc.Interrupting?
    ensures Closed(Return(s, t, Done(s.threads[t].pc.closing)))
  {
    var s' := Return(s, t, Done(s.threads[t].pc.closing));
    if CloserReturned(s'.reports) && !s.threads[t].pc.closing {
      var c :| c in s'.reports && s'.reports[c] == Done(true);
      assert c in s.reports && s.reports[c] == Done(true);
    }
  }

  lemma InterruptClosed(s: State, t: Tid)
    requires Closed(s) && t in s.threads && s.threads[t].pc.Interrupting?
    ensures Closed(Control(s, t))
  {
    hide Closed;
    BroadcastClosed(s);
    DoneClosed(Broadcast(s), t);
  }

  lemma CloseClosed(s: State, t: Tid)
    requires Closed(s) && t in s.threads && s.threads[t].pc.Closing?
    requires forall c :: c in s.reports ==> c < s.nextCall
    ensures Closed(Control(s, t))
  {
    var s' := Control(s, t);
    assert s'.threads[t].pc == Interrupting(true);
  }

  lemma SectionClosed(s: State, t: Tid, w: Tid)
    requires Closed(s) && WellFormed(s, t) && !s.threads[t].pc.Idle?
    requires forall c :: c in s.reports ==> c < s.nextCall
    ensures Closed(Section(s, t, w))
  {
    hide Closed; hide PushSection; hide PopSection; hide FirstCheck; hide GiveUp;
    PushSectionClosed(s, t, w);
    PopSectionClosed(s, t, w);
    FirstCheckClosed(s, t);
    GiveUpClosed(s, t);
    match s.threads[t].pc {
      case Closing => CloseClosed(s, t);
      case Interrupting(_) => InterruptClosed(s, t);
      case _ =>
    }
  }

  lemma CallClosed(s: State, t: Tid, pc: Pc, retries: bool)
    requires Closed(s) && Enabled(s, Call(t, pc, retries)) && WellFormed(s, t)
    ensures Closed(Next(s, Call(t, pc, retries)))
  {
    var s' := Next(s, Call(t, pc, retries));
    if s.terminated && !NoSleepers(s'.threads) {
      assert !NoSleepers(s.threads);
      var u :| u in s.threads && s.threads[u].pc.Interrupting?;
      assert s'.threads[u].pc.Interrupting?;
    }
  }

  lemma ClosedStep(s: State, a: Action)
    requires Closed(s) && Enabled(s, a) && WellFormed(s, a.t)
    requires forall c :: c in s.reports ==> c < s.nextCall
    ensures Closed(Next(s, a))
  {
    hide Closed; hide Section;
    match a {
      case Call(t, pc, retries) => CallClosed(s, t, pc, retries);
      case Proceed(t, w) => SectionClosed(s, t, w);
      case Spurious(t) => if s.terminated { EarlyCall(s, t); } MoveClosed(s, t, Wakened(s.threads[t].pc));
      case Timeout(t) => if s.terminated { EarlyCall(s, t); } MoveClosed(s, t, PopTimedOut);
    }
  }
}
