/** What holds of the blocking queue in every reachable state. */
module QueueSafety {
  import opened Rings
  import opened BlockingQueue

  // ----- counting threads

  datatype Tally = Tally(popAsleep: int, popWoken: int, popTimed: int, pushAsleep: int, pushWoken: int) {
    function Plus(o: Tally): Tally {
      Tally(popAsleep + o.popAsleep, popWoken + o.popWoken, popTimed + o.popTimed,
            pushAsleep + o.pushAsleep, pushWoken + o.pushWoken)
    }
  }

  function Count(ts: Threads): Tally {
    Tally(|PoppersAsleep(ts)|, |PoppersWoken(ts)|, |PoppersTimedOut(ts)|, |PushersAsleep(ts)|, |PushersWoken(ts)|)
  }

  function Bit(b: bool): int { if b then 1 else 0 }

  function One(pc: Pc): Tally {
    Tally(Bit(pc.PopAsleep?), Bit(pc.PopWoken?), Bit(pc.PopTimedOut?), Bit(pc.PushAsleep?), Bit(pc.PushWoken?))
  }

  lemma CardMove(a: set<Tid>, b: set<Tid>, t: Tid)
    requires a - {t} == b - {t}
    ensures |b| + Bit(t in a) == |a| + Bit(t in b)
  {
    assert |a - {t}| == |a| - Bit(t in a);
    assert |b - {t}| == |b| - Bit(t in b);
  }

  /** Moving one thread shifts the tally by what it leaves and what it enters. */
  lemma CountMove(ts: Threads, t: Tid, th: Thread)
    requires t in ts
    ensures Count(ts[t := th]).Plus(One(ts[t].pc)) == Count(ts).Plus(One(th.pc))
  {
    var us := ts[t := th];
    CardMove(PoppersAsleep(ts), PoppersAsleep(us), t);
    CardMove(PoppersWoken(ts), PoppersWoken(us), t);
    CardMove(PoppersTimedOut(ts), PoppersTimedOut(us), t);
    CardMove(PushersAsleep(ts), PushersAsleep(us), t);
    CardMove(PushersWoken(ts), PushersWoken(us), t);
  }

  lemma BroadcastPoppers(s: State)
    ensures var ts, us := s.threads, Broadcast(s).threads;
            && PoppersAsleep(us) == {} && PoppersWoken(us) == PoppersWoken(ts) + PoppersAsleep(ts)
            && PoppersTimedOut(us) == PoppersTimedOut(ts)
  {
  }

  lemma BroadcastPushers(s: State)
    ensures var ts, us := s.threads, Broadcast(s).threads;
            && PushersAsleep(us) == {} && PushersWoken(us) == PushersWoken(ts) + PushersAsleep(ts)
  {
  }

  lemma SleepersAreNotWoken(ts: Threads)
    ensures PoppersWoken(ts) !! PoppersAsleep(ts) && PushersWoken(ts) !! PushersAsleep(ts)
  {
  }

  lemma CountBroadcast(s: State)
    ensures var c, d := Count(s.threads), Count(Broadcast(s).threads);
            d == Tally(0, c.popWoken + c.popAsleep, c.popTimed, 0, c.pushWoken + c.pushAsleep)
  {
    hide Broadcast; hide PoppersAsleep; hide PoppersWoken; hide PushersAsleep; hide PushersWoken; hide PoppersTimedOut;
    BroadcastPoppers(s);
    BroadcastPushers(s);
    SleepersAreNotWoken(s.threads);
  }

  // ----- wakeups

  /** The waiter counters are exact; while a popper sleeps the queued items are
      all spoken for by woken poppers, and while a pusher sleeps the free slots
      are all spoken for by woken pushers. */
  ghost predicate Waiting(ring: Ring, fullWaiters: int, emptyWaiters: int, c: Tally) {
    && ring.Valid()
    && fullWaiters == c.pushAsleep + c.pushWoken
    && emptyWaiters == c.popAsleep + c.popWoken + c.popTimed
    && (c.popAsleep > 0 ==> ring.nelts <= c.popWoken)
    && (c.pushAsleep > 0 ==> |ring.data| - ring.nelts <= c.pushWoken)
  }

  ghost predicate WaitInv(s: State) {
    Waiting(s.ring, s.fullWaiters, s.emptyWaiters, Count(s.threads))
  }

  lemma CountAt(s: State, t: Tid, pc: Pc)
    requires t in s.threads
    ensures Count(At(s, t, pc).threads).Plus(One(s.threads[t].pc)) == Count(s.threads).Plus(One(pc))
  {
    hide Count;
    CountMove(s.threads, t, s.threads[t].(pc := pc));
  }

  lemma SleeperCounts(ts: Threads)
    ensures Count(ts).popAsleep > 0 <==> PoppersAsleep(ts) != {}
    ensures Count(ts).pushAsleep > 0 <==> PushersAsleep(ts) != {}
    ensures Count(ts).popAsleep >= 0 && Count(ts).popWoken >= 0 && Count(ts).popTimed >= 0
    ensures Count(ts).pushAsleep >= 0 && Count(ts).pushWoken >= 0
  {
  }

  /** Storing an item: whoever sleeps for one is woken for it. */
  lemma StoreWaits(s: State, t: Tid, x: Item, w: Tid)
    requires t in s.threads && !s.threads[t].pc.PopAsleep? && !s.threads[t].pc.PushAsleep?
    requires s.ring.Valid() && !s.ring.Full()
    requires PoppersAsleep(s.threads) != {} ==> w in PoppersAsleep(s.threads)
    requires Waiting(s.ring, s.fullWaiters + Bit(s.threads[t].pc.PushWoken?), s.emptyWaiters, Count(s.threads))
    requires !s.threads[t].pc.PopWoken? && !s.threads[t].pc.PopTimedOut?
    ensures WaitInv(Store(s, t, x, w))
  {
    hide Count;
    PutAppends(s.ring, x);
    SleeperCounts(s.threads);
    var s1 := s.(ring := s.ring.Put(x), stored := s.stored + [Entry(s.threads[t].call, x)]);
    CountAt(s1, t, Idle);
    var s2 := Return(s1, t, Pushed(SUCCESS, x));
    SleeperCounts(s2.threads);
    assert PoppersAsleep(s2.threads) == PoppersAsleep(s.threads);
    if s.emptyWaiters > 0 && w in PoppersAsleep(s2.threads) {
      CountAt(s2, w, PopWoken);
      SleeperCounts(Signal(s2, w).threads);
    }
  }

  lemma FetchWaits(s: State, t: Tid, w: Tid)
    requires t in s.threads && !s.threads[t].pc.PopAsleep? && !s.threads[t].pc.PushAsleep?
    requires s.ring.Valid() && !s.ring.Empty()
    requires PushersAsleep(s.threads) != {} ==> w in PushersAsleep(s.threads)
    requires Waiting(s.ring, s.fullWaiters, s.emptyWaiters + Bit(s.threads[t].pc.PopWoken?), Count(s.threads))
    requires !s.threads[t].pc.PushWoken? && !s.threads[t].pc.PopTimedOut?
    ensures WaitInv(Fetch(s, t, w))
  {
    hide Count;
    DropRemoves(s.ring);
    SleeperCounts(s.threads);
    var x := s.ring.Head();
    var s1 := s.(ring := s.ring.Drop(), fetched := s.fetched + [Entry(s.threads[t].call, x)]);
    CountAt(s1, t, Idle);
    var s2 := Return(s1, t, Popped(SUCCESS, x));
    SleeperCounts(s2.threads);
    assert PushersAsleep(s2.threads) == PushersAsleep(s.threads);
    if s.fullWaiters > 0 && w in PushersAsleep(s2.threads) {
      CountAt(s2, w, Wakened(s2.threads[w].pc));
      SleeperCounts(Signal(s2, w).threads);
    }
  }

  lemma PushSectionWaits(s: State, t: Tid, w: Tid)
    requires WaitInv(s) && Enabled(s, Proceed(t, w))
    requires var pc := s.threads[t].pc; pc.PushEnter? || pc.PushWoken? || pc.TryPushEnter?
    ensures WaitInv(PushSection(s, t, w))
  {
    hide Count; hide Store;
    SleeperCounts(s.threads);
    var x := s.threads[t].pc.item;
    if s.ring.Full() {
      CountAt(s, t, PushStopped(x));
      CountAt(s, t, PushAsleep(x));
      CountAt(s, t, Idle);
      SleeperCounts(PushSection(s, t, w).threads);
    } else {
      StoreWaits(if s.threads[t].pc.PushWoken? then s.(fullWaiters := s.fullWaiters - 1) else s, t, x, w);
    }
  }

  lemma PopSectionWaits(s: State, t: Tid, w: Tid)
    requires WaitInv(s) && Enabled(s, Proceed(t, w))
    requires var pc := s.threads[t].pc; pc.PopEnter? || pc.PopWoken? || pc.TryPopEnter?
    ensures WaitInv(PopSection(s, t, w))
  {
    hide Count; hide Fetch;
    SleeperCounts(s.threads);
    if s.ring.Empty() {
      CountAt(s, t, PopStopped);
      CountAt(s, t, PopAsleep(s.threads[t].pc.PopEnter? && s.threads[t].pc.timed));
      CountAt(s, t, Idle);
      SleeperCounts(PopSection(s, t, w).threads);
    } else {
      FetchWaits(if s.threads[t].pc.PopWoken? then s.(emptyWaiters := s.emptyWaiters - 1) else s, t, w);
    }
  }

  /** Threads that neither sleep nor hold a wakeup do not matter to the tally. */
  lemma QuietMove(s: State, t: Tid, pc: Pc)
    requires t in s.threads && One(s.threads[t].pc) == One(pc)
    ensures Count(At(s, t, pc).threads) == Count(s.threads)
  {
    hide Count;
    CountAt(s, t, pc);
  }

  lemma FirstCheckWaits(s: State, t: Tid)
    requires WaitInv(s) && t in s.threads
    ensures WaitInv(FirstCheck(s, t))
  {
    hide Count; hide Waiting;
    match s.threads[t].pc {
      case PushStart(x) => QuietMove(s, t, Idle); QuietMove(s, t, PushEnter(x));
      case TryPushStart(x) => QuietMove(s, t, Idle); QuietMove(s, t, TryPushEnter(x));
      case PopStart(timed) => QuietMove(s, t, Idle); QuietMove(s, t, PopEnter(timed));
      case TryPopStart => QuietMove(s, t, Idle); QuietMove(s, t, TryPopEnter);
      case _ =>
    }
  }

  lemma GiveUpWaits(s: State, t: Tid)
    requires WaitInv(s) && t in s.threads
    ensures WaitInv(GiveUp(s, t))
  {
    hide Count;
    match s.threads[t].pc {
      case PushStopped(x) => QuietMove(s, t, Idle); QuietMove(s, t, PushStart(x));
      case PopStopped => QuietMove(s, t, Idle);
      case PopTimedOut => SleeperCounts(s.threads); CountAt(s, t, Idle);
      case _ =>
    }
  }

  lemma ControlWaits(s: State, t: Tid)
    requires WaitInv(s) && t in s.threads
    ensures WaitInv(Control(s, t))
  {
    hide Count;
    match s.threads[t].pc {
      case Closing => QuietMove(s, t, Interrupting(true));
      case Interrupting(_) =>
        SleeperCounts(s.threads);
        CountBroadcast(s);
        QuietMove(Broadcast(s), t, Idle);
      case _ =>
    }
  }

  lemma SectionWaits(s: State, t: Tid, w: Tid)
    requires WaitInv(s) && Enabled(s, Proceed(t, w))
    ensures WaitInv(Section(s, t, w))
  {
    assert WellFormed(s, t);
    hide WaitInv; hide PushSection; hide PopSection; hide FirstCheck; hide GiveUp; hide Control;
    var pc := s.threads[t].pc;
    if pc.PushEnter? || pc.PushWoken? || pc.TryPushEnter? { PushSectionWaits(s, t, w); }
    else if pc.PopEnter? || pc.PopWoken? || pc.TryPopEnter? { PopSectionWaits(s, t, w); }
    else { FirstCheckWaits(s, t); GiveUpWaits(s, t); ControlWaits(s, t); }
  }

  lemma WaitStep(s: State, a: Action)
    requires WaitInv(s) && Enabled(s, a)
    ensures WaitInv(Next(s, a))
  {
    hide Count; hide Section;
    SleeperCounts(s.threads);
    match a {
      case Call(t, pc, retries) => CountMove(s.threads, t, Thread(pc, s.nextCall, retries));
      case Proceed(t, w) => SectionWaits(s, t, w);
      case Spurious(t) => CountAt(s, t, Wakened(s.threads[t].pc));
      case Timeout(t) => CountAt(s, t, PopTimedOut);
    }
  }
}
