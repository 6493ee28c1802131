/** First in, first out, and exactly once. */
module QueueHistory {
  import opened Rings
  import opened BlockingQueue
  import opened QueueSafety

  function Items(es: seq<Entry>): seq<Item> {
    seq(|es|, i requires 0 <= i < |es| => es[i].item)
  }

  /** Calls in progress are numbered apart from each other and from finished ones. */
  ghost predicate Calls(ts: Threads, nextCall: nat, reports: map<nat, Report>) {
    && (forall t :: t in ts && !ts[t].pc.Idle? ==> ts[t].call < nextCall && ts[t].call !in reports)
    && (forall t, u :: t in ts && u in ts && t != u && !ts[t].pc.Idle? && !ts[u].pc.Idle? ==> ts[t].call != ts[u].call)
    && (forall c :: c in reports ==> c < nextCall)
  }

  /** The calls that stored something are exactly those that reported it. */
  ghost predicate StoredOnce(es: seq<Entry>, reports: map<nat, Report>) {
    && (forall i :: 0 <= i < |es| ==> es[i].call in reports && reports[es[i].call] == Pushed(SUCCESS, es[i].item))
    && (forall i, j :: 0 <= i < j < |es| ==> es[i].call != es[j].call)
    && (forall c :: c in reports && reports[c].Pushed? && reports[c].status == SUCCESS ==> Entry(c, reports[c].item) in es)
  }

  ghost predicate FetchedOnce(es: seq<Entry>, reports: map<nat, Report>) {
    && (forall i :: 0 <= i < |es| ==> es[i].call in reports && reports[es[i].call] == Popped(SUCCESS, es[i].item))
    && (forall i, j :: 0 <= i < j < |es| ==> es[i].call != es[j].call)
    && (forall c :: c in reports && reports[c].Popped? && reports[c].status == SUCCESS ==> Entry(c, reports[c].item) in es)
  }

  ghost predicate Ledger(s: State) {
    && s.ring.Valid()
    && Calls(s.threads, s.nextCall, s.reports)
    && StoredOnce(s.stored, s.reports)
    && FetchedOnce(s.fetched, s.reports)
    && Items(s.stored) == Items(s.fetched) + s.ring.Contents()
  }

  /** Only program counters changed, and nobody began or finished a call. */
  ghost predicate OnlyMoved(s: State, s': State) {
    && s'.threads.Keys == s.threads.Keys
    && (forall t :: t in s.threads ==>
          s'.threads[t].call == s.threads[t].call && (s'.threads[t].pc.Idle? <==> s.threads[t].pc.Idle?))
    && s'.ring == s.ring && s'.nextCall == s.nextCall && s'.reports == s.reports
    && s'.stored == s.stored && s'.fetched == s.fetched
  }

  lemma MovedLedger(s: State, s': State)
    requires Ledger(s) && OnlyMoved(s, s')
    ensures Ledger(s')
  {
    hide StoredOnce; hide FetchedOnce; hide Items;
  }

  ghost predicate Failure(r: Report) {
    r.Done? || r.status != SUCCESS
  }

  lemma ReportFailure(s: State, t: Tid, r: Report)
    requires Ledger(s) && t in s.threads && !s.threads[t].pc.Idle? && Failure(r)
    ensures Ledger(Return(s, t, r))
  {
    hide Items;
  }

  lemma ReportedCalls(s: State, t: Tid, r: Report)
    requires Calls(s.threads, s.nextCall, s.reports) && t in s.threads && !s.threads[t].pc.Idle?
    ensures var s' := Return(s, t, r); Calls(s'.threads, s'.nextCall, s'.reports)
  {
  }

  lemma StoreOnce(es: seq<Entry>, reports: map<nat, Report>, c: nat, x: Item)
    requires StoredOnce(es, reports) && c !in reports
    ensures StoredOnce(es + [Entry(c, x)], reports[c := Pushed(SUCCESS, x)])
  {
    var es', r' := es + [Entry(c, x)], reports[c := Pushed(SUCCESS, x)];
    forall d | d in r' && r'[d].Pushed? && r'[d].status == SUCCESS ensures Entry(d, r'[d].item) in es' {
      if d == c { assert es'[|es|] == Entry(c, x); } else { assert Entry(d, r'[d].item) in es; }
    }
  }

  lemma FetchOnce(es: seq<Entry>, reports: map<nat, Report>, c: nat, x: Item)
    requires FetchedOnce(es, reports) && c !in reports
    ensures FetchedOnce(es + [Entry(c, x)], reports[c := Popped(SUCCESS, x)])
  {
    var es', r' := es + [Entry(c, x)], reports[c := Popped(SUCCESS, x)];
    forall d | d in r' && r'[d].Popped? && r'[d].status == SUCCESS ensures Entry(d, r'[d].item) in es' {
      if d == c { assert es'[|es|] == Entry(c, x); } else { assert Entry(d, r'[d].item) in es; }
    }
  }

  lemma OtherReport(es: seq<Entry>, reports: map<nat, Report>, c: nat, r: Report)
    requires c !in reports
    ensures StoredOnce(es, reports) && !(r.Pushed? && r.status == SUCCESS) ==> StoredOnce(es, reports[c := r])
    ensures FetchedOnce(es, reports) && !(r.Popped? && r.status == SUCCESS) ==> FetchedOnce(es, reports[c := r])
  {
  }

  lemma SignalMoves(s: State, w: Tid)
    ensures OnlyMoved(s, Signal(s, w))
  {
  }

  lemma ItemsSnoc(es: seq<Entry>, e: Entry)
    ensures Items(es + [e]) == Items(es) + [e.item]
  {
  }

  lemma StoreLedger(s: State, t: Tid, x: Item, w: Tid)
    requires Ledger(s) && t in s.threads && !s.threads[t].pc.Idle? && !s.ring.Full()
    ensures Ledger(Store(s, t, x, w))
  {
    hide StoredOnce; hide FetchedOnce; hide Items; hide Calls; hide PoppersAsleep; hide OnlyMoved; hide Signal;
    var c := s.threads[t].call;
    assert c !in s.reports by { ActiveCall(s, t); }
    var s1 := s.(ring := s.ring.Put(x), stored := s.stored + [Entry(c, x)]);
    var s2 := Return(s1, t, Pushed(SUCCESS, x));
    PutAppends(s.ring, x);
    ItemsSnoc(s.stored, Entry(c, x));
    StoreOnce(s.stored, s.reports, c, x);
    OtherReport(s.fetched, s.reports, c, Pushed(SUCCESS, x));
    ReportedCalls(s1, t, Pushed(SUCCESS, x));
    assert Items(s.fetched) + s.ring.Contents() + [x] == Items(s.fetched) + (s.ring.Contents() + [x]);
    assert Ledger(s2);
    SignalMoves(s2, w);
    MovedLedger(s2, Signal(s2, w));
  }

  lemma ActiveCall(s: State, t: Tid)
    requires Calls(s.threads, s.nextCall, s.reports) && t in s.threads && !s.threads[t].pc.Idle?
    ensures s.threads[t].call !in s.reports && s.threads[t].call < s.nextCall
  {
  }

  lemma FetchLedger(s: State, t: Tid, w: Tid)
    requires Ledger(s) && t in s.threads && !s.threads[t].pc.Idle? && !s.ring.Empty()
    ensures Ledger(Fetch(s, t, w))
  {
    hide StoredOnce; hide FetchedOnce; hide Items; hide Calls; hide PushersAsleep; hide OnlyMoved; hide Signal;
    var c, x := s.threads[t].call, s.ring.Head();
    assert c !in s.reports by { ActiveCall(s, t); }
    var s1 := s.(ring := s.ring.Drop(), fetched := s.fetched + [Entry(c, x)]);
    var s2 := Return(s1, t, Popped(SUCCESS, x));
    DropRemoves(s.ring);
    ItemsSnoc(s.fetched, Entry(c, x));
    FetchOnce(s.fetched, s.reports, c, x);
    OtherReport(s.stored, s.reports, c, Popped(SUCCESS, x));
    ReportedCalls(s1, t, Popped(SUCCESS, x));
    assert Items(s.fetched) + ([x] + s.ring.Drop().Contents()) == Items(s.fetched) + [x] + s.ring.Drop().Contents();
    assert Ledger(s2);
    SignalMoves(s2, w);
    MovedLedger(s2, Signal(s2, w));
  }

  lemma MoveLedger(s: State, t: Tid, pc: Pc)
    requires Ledger(s) && t in s.threads && !s.threads[t].pc.Idle? && !pc.Idle?
    ensures Ledger(At(s, t, pc))
  {
    hide Ledger;
    MovedLedger(s, At(s, t, pc));
  }

  lemma Waiters(s: State, full: int, empty: int)
    requires Ledger(s)
    ensures Ledger(s.(fullWaiters := full)) && Ledger(s.(emptyWaiters := empty))
  {
    hide Calls; hide StoredOnce; hide FetchedOnce; hide Items;
  }

  lemma PushSectionLedger(s: State, t: Tid, w: Tid)
    requires Ledger(s) && t in s.threads && !s.threads[t].pc.Idle?
    ensures Ledger(PushSection(s, t, w))
  {
    assert WellFormed(s, t);
    hide Ledger; hide Store;
    match s.threads[t].pc {
      case PushEnter(x) =>
        if !s.ring.Full() { StoreLedger(s, t, x, w); }
        else {
          MoveLedger(s, t, PushStopped(x));
          MoveLedger(s, t, PushAsleep(x));
          Waiters(At(s, t, PushAsleep(x)), s.fullWaiters + 1, 0);
        }
      case PushWoken(x) =>
        var s1 := s.(fullWaiters := s.fullWaiters - 1);
        Waiters(s, s.fullWaiters - 1, 0);
        if !s.ring.Full() { StoreLedger(s1, t, x, w); } else { MoveLedger(s1, t, PushStopped(x)); }
      case TryPushEnter(x) =>
        if !s.ring.Full() { StoreLedger(s, t, x, w); } else { ReportFailure(s, t, Pushed(EAGAIN, x)); }
      case _ =>
    }
  }

  lemma PopSectionLedger(s: State, t: Tid, w: Tid)
    requires Ledger(s) && t in s.threads && !s.threads[t].pc.Idle?
    ensures Ledger(PopSection(s, t, w))
  {
    assert WellFormed(s, t);
    hide Ledger; hide Fetch;
    match s.threads[t].pc {
      case PopEnter(timed) =>
        if !s.ring.Empty() { FetchLedger(s, t, w); }
        else {
          MoveLedger(s, t, PopStopped);
          MoveLedger(s, t, PopAsleep(timed));
          Waiters(At(s, t, PopAsleep(timed)), 0, s.emptyWaiters + 1);
        }
      case PopWoken =>
        var s1 := s.(emptyWaiters := s.emptyWaiters - 1);
        Waiters(s, 0, s.emptyWaiters - 1);
        if !s.ring.Empty() { FetchLedger(s1, t, w); } else { MoveLedger(s1, t, PopStopped); }
      case TryPopEnter =>
        if !s.ring.Empty() { FetchLedger(s, t, w); } else { ReportFailure(s, t, Popped(EAGAIN, 0)); }
      case _ =>
    }
  }

  lemma FirstCheckLedger(s: State, t: Tid)
    requires Ledger(s) && t in s.threads && !s.threads[t].pc.Idle?
    ensures Ledger(FirstCheck(s, t))
  {
    hide Ledger;
    match s.threads[t].pc {
      case PushStart(x) => ReportFailure(s, t, Pushed(EOF, x)); MoveLedger(s, t, PushEnter(x));
      case TryPushStart(x) => ReportFailure(s, t, Pushed(EOF, x)); MoveLedger(s, t, TryPushEnter(x));
      case PopStart(timed) => ReportFailure(s, t, Popped(EOF, 0)); MoveLedger(s, t, PopEnter(timed));
      case TryPopStart => ReportFailure(s, t, Popped(EOF, 0)); MoveLedger(s, t, TryPopEnter);
      case _ =>
    }
  }

  lemma GiveUpLedger(s: State, t: Tid)
    requires Ledger(s) && t in s.threads && !s.threads[t].pc.Idle?
    ensures Ledger(GiveUp(s, t))
  {
    hide Ledger;
    match s.threads[t].pc {
      case PushStopped(x) =>
        ReportFailure(s, t, Pushed(EOF, x)); ReportFailure(s, t, Pushed(EINTR, x)); MoveLedger(s, t, PushStart(x));
      case PopStopped => ReportFailure(s, t, Popped(EOF, 0)); ReportFailure(s, t, Popped(EINTR, 0));
      case PopTimedOut =>
        ReportFailure(s, t, Popped(TIMEUP, 0));
        Waiters(Return(s, t, Popped(TIMEUP, 0)), 0, s.emptyWaiters - 1);
      case _ =>
    }
  }

  lemma ControlLedger(s: State, t: Tid)
    requires Ledger(s) && t in s.threads && !s.threads[t].pc.Idle?
    ensures Ledger(Control(s, t))
  {
    hide Ledger;
    match s.threads[t].pc {
      case Interrupting(closing) => BroadcastLedger(s); ReportFailure(Broadcast(s), t, Done(closing));
      case Closing =>
        MoveLedger(s, t, Interrupting(true));
        ClosedLedger(At(s, t, Interrupting(true)), if s.terminated then s.closedAt else s.nextCall);
      case _ =>
    }
  }

  lemma SectionLedger(s: State, t: Tid, w: Tid)
    requires Ledger(s) && t in s.threads && !s.threads[t].pc.Idle?
    ensures WellFormed(s, t) && Ledger(Section(s, t, w))
  {
    assert WellFormed(s, t);
    hide Ledger; hide PushSection; hide PopSection; hide FirstCheck; hide GiveUp; hide Control;
    PushSectionLedger(s, t, w);
    PopSectionLedger(s, t, w);
    FirstCheckLedger(s, t);
    GiveUpLedger(s, t);
    ControlLedger(s, t);
  }

  lemma ClosedLedger(s: State, n: nat)
    requires Ledger(s)
    ensures Ledger(s.(terminated := true, closedAt := n))
  {
    hide Calls; hide StoredOnce; hide FetchedOnce; hide Items;
  }

  lemma BroadcastLedger(s: State)
    requires Ledger(s)
    ensures Ledger(Broadcast(s)) && Broadcast(s).threads.Keys == s.threads.Keys
    ensures forall t :: t in s.threads && !s.threads[t].pc.Idle? ==> !Broadcast(s).threads[t].pc.Idle?
  {
    hide Ledger;
    MovedLedger(s, Broadcast(s));
  }

  lemma LedgerStep(s: State, a: Action)
    requires Ledger(s) && Enabled(s, a)
    ensures Ledger(Next(s, a))
  {
    hide StoredOnce; hide FetchedOnce; hide Items; hide Section;
    match a {
      case Call(t, pc, retries) =>
      case Proceed(t, w) => SectionLedger(s, t, w);
      case Spurious(t) => MoveLedger(s, t, Wakened(s.threads[t].pc));
      case Timeout(t) => MoveLedger(s, t, PopTimedOut);
    }
  }
}
