/** When a call on the queue has to succeed, and what every report means, in terms of the
    queued items alone: a sequence with a bound. */
module QueueOutcomes {
  import opened Rings
  import opened BlockingQueue
  import opened QueueSafety
  import opened QueueHistory
  import opened QueueClosing
  import opened QueueRuns

  /** The call of a thread ends with a report and leaves the items as they were. */
  ghost predicate Answers(s: State, s': State, t: Tid, r: Report)
    requires t in s.threads
  {
    s'.ring == s.ring && s'.reports == s.reports[s.threads[t].call := r] && t in s'.threads && s'.threads[t].pc.Idle?
  }

  /** It ends with success and one item more at the back. */
  ghost predicate Stores(s: State, s': State, t: Tid, x: Item)
    requires t in s.threads && s.ring.Valid()
  {
    && s'.ring.Valid() && s'.ring.Contents() == s.ring.Contents() + [x] && |s'.ring.data| == |s.ring.data|
    && s'.reports == s.reports[s.threads[t].call := Pushed(SUCCESS, x)] && t in s'.threads && s'.threads[t].pc.Idle?
  }

  /** It ends with success and the item at the front. */
  ghost predicate Fetches(s: State, s': State, t: Tid)
    requires t in s.threads && s.ring.Valid()
  {
    var c := s.ring.Contents();
    && c != [] && s'.ring.Valid() && s'.ring.Contents() == c[1..] && |s'.ring.data| == |s.ring.data|
    && s'.reports == s.reports[s.threads[t].call := Popped(SUCCESS, c[0])] && t in s'.threads && s'.threads[t].pc.Idle?
  }

  /** The call goes on. */
  ghost predicate GoesOn(s: State, s': State, t: Tid, pc: Pc) {
    s'.ring == s.ring && s'.reports == s.reports && t in s'.threads && s'.threads[t].pc == pc
  }

  /** Items wait, or there is room. */
  ghost predicate Room(s: State)
    requires s.ring.Valid()
  {
    |s.ring.Contents()| < |s.ring.data|
  }

  ghost predicate Supply(s: State)
    requires s.ring.Valid()
  {
    s.ring.Contents() != []
  }

  /** What a section does for the thread that runs it. */
  ghost predicate Does(s: State, s': State, t: Tid)
    requires t in s.threads && s.ring.Valid()
  {
    match s.threads[t].pc
    case TryPushEnter(x) => if Room(s) then Stores(s, s', t, x) else Answers(s, s', t, Pushed(EAGAIN, x))
    case PushEnter(x) =>
      if Room(s) then Stores(s, s', t, x) else GoesOn(s, s', t, if s.terminated then PushStopped(x) else PushAsleep(x))
    case PushWoken(x) => if Room(s) then Stores(s, s', t, x) else GoesOn(s, s', t, PushStopped(x))
    case PushStopped(x) =>
      if s.terminated then Answers(s, s', t, Pushed(EOF, x))
      else if s.threads[t].retries then GoesOn(s, s', t, PushStart(x))
      else Answers(s, s', t, Pushed(EINTR, x))
    case TryPopEnter => if Supply(s) then Fetches(s, s', t) else Answers(s, s', t, Popped(EAGAIN, 0))
    case PopEnter(timed) =>
      if Supply(s) then Fetches(s, s', t) else GoesOn(s, s', t, if s.terminated then PopStopped else PopAsleep(timed))
    case PopWoken => if Supply(s) then Fetches(s, s', t) else GoesOn(s, s', t, PopStopped)
    case PopStopped => Answers(s, s', t, Popped(if s.terminated then EOF else EINTR, 0))
    case PopTimedOut => Answers(s, s', t, Popped(TIMEUP, 0))
    case PushStart(x) => if s.terminated then Answers(s, s', t, Pushed(EOF, x)) else GoesOn(s, s', t, PushEnter(x))
    case TryPushStart(x) => if s.terminated then Answers(s, s', t, Pushed(EOF, x)) else GoesOn(s, s', t, TryPushEnter(x))
    case PopStart(timed) => if s.terminated then Answers(s, s', t, Popped(EOF, 0)) else GoesOn(s, s', t, PopEnter(timed))
    case TryPopStart => if s.terminated then Answers(s, s', t, Popped(EOF, 0)) else GoesOn(s, s', t, TryPopEnter)
    case Closing => s'.terminated && GoesOn(s, s', t, Interrupting(true))
    case Interrupting(closing) => Answers(s, s', t, Done(closing)) && NoSleepers(s'.threads)
    case _ => true
  }

  lemma RoomIsNotFull(s: State)
    requires s.ring.Valid()
    ensures Room(s) <==> !s.ring.Full()
    ensures Supply(s) <==> !s.ring.Empty()
  {
    assert |s.ring.Contents()| == s.ring.nelts;
  }

  lemma StoreStores(s: State, t: Tid, x: Item, w: Tid)
    requires t in s.threads && s.ring.Valid() && !s.ring.Full()
    ensures s.ring.next < |s.ring.data| && Stores(s, Store(s, t, x, w), t, x)
  {
    PutAppends(s.ring, x);
  }

  lemma FetchFetches(s: State, t: Tid, w: Tid)
    requires t in s.threads && s.ring.Valid() && !s.ring.Empty()
    ensures s.ring.out < |s.ring.data| && Fetches(s, Fetch(s, t, w), t)
  {
    DropRemoves(s.ring);
    HeadIsFirst(s.ring);
  }

  lemma HeadIsFirst(r: Ring)
    requires r.Valid() && !r.Empty()
    ensures r.out < |r.data| && r.Contents() != [] && r.Head() == r.Contents()[0]
  {
    assert r.Contents()[0] == r.data[Wrap(r.out + 0, |r.data|)];
  }

  lemma PushDoes(s: State, t: Tid, w: Tid)
    requires WellFormed(s, t) && s.ring.Valid()
    requires var pc := s.threads[t].pc; pc.PushEnter? || pc.PushWoken? || pc.TryPushEnter?
    ensures Does(s, PushSection(s, t, w), t)
  {
    hide Store; hide Room; hide Supply;
    RoomIsNotFull(s);
    var x := s.threads[t].pc.item;
    var s1 := s.(fullWaiters := s.fullWaiters - 1);
    if !s.ring.Full() {
      StoreStores(s, t, x, w);
      StoreStores(s1, t, x, w);
    }
  }

  lemma PopDoes(s: State, t: Tid, w: Tid)
    requires WellFormed(s, t) && s.ring.Valid()
    requires var pc := s.threads[t].pc; pc.PopEnter? || pc.PopWoken? || pc.TryPopEnter?
    ensures Does(s, PopSection(s, t, w), t)
  {
    hide Fetch; hide Room; hide Supply;
    RoomIsNotFull(s);
    var s1 := s.(emptyWaiters := s.emptyWaiters - 1);
    if !s.ring.Empty() {
      FetchFetches(s, t, w);
      FetchFetches(s1, t, w);
    }
  }

  lemma SectionDoes(s: State, t: Tid, w: Tid)
    requires WellFormed(s, t) && s.ring.Valid()
    ensures Does(s, Section(s, t, w), t)
  {
    hide PushSection; hide PopSection; hide Room; hide Supply; hide Stores; hide Fetches;
    var pc := s.threads[t].pc;
    if pc.PushEnter? || pc.PushWoken? || pc.TryPushEnter? {
      PushDoes(s, t, w);
    } else if pc.PopEnter? || pc.PopWoken? || pc.TryPopEnter? {
      PopDoes(s, t, w);
    }
  }

  /** Over every run: the ring of the queue does what a bounded sequence would do. */
  lemma RunDoes(states: seq<State>, actions: seq<Action>, k: nat)
    requires Run(states, actions) && k < |actions| && actions[k].Proceed?
    ensures states[k].ring.Valid() && actions[k].t in states[k].threads && Does(states[k], states[k + 1], actions[k].t)
  {
    hide Does; hide WaitInv; hide Closed;
    RunHolds(states, actions, k);
    assert StepsTo(states[k], actions[k], states[k + 1]);
    SectionDoes(states[k], actions[k].t, actions[k].w);
  }

  /** A trypush answers EAGAIN exactly when the queue is full, and stores its item otherwise. */
  lemma TryPushExactly(states: seq<State>, actions: seq<Action>, k: nat)
    requires Run(states, actions) && k < |actions| && actions[k].Proceed?
    requires actions[k].t in states[k].threads && states[k].threads[actions[k].t].pc.TryPushEnter?
    ensures states[k].ring.Valid() && states[k + 1].ring.Valid()
    ensures var s, s', t := states[k], states[k + 1], actions[k].t;
      var x, c := s.threads[t].pc.item, s.threads[t].call;
      && c in s'.reports
      && (s'.reports[c] == Pushed(EAGAIN, x) <==> |s.ring.Contents()| == |s.ring.data|)
      && (s'.reports[c] == Pushed(SUCCESS, x) <==> |s.ring.Contents()| < |s.ring.data|)
      && s'.ring.Contents() == if |s.ring.Contents()| < |s.ring.data| then s.ring.Contents() + [x] else s.ring.Contents()
  {
    RunDoes(states, actions, k);
    assert |states[k].ring.Contents()| == states[k].ring.nelts <= |states[k].ring.data|;
  }

  /** A trypop answers EAGAIN exactly when the queue is empty, and takes the front otherwise. */
  lemma TryPopExactly(states: seq<State>, actions: seq<Action>, k: nat)
    requires Run(states, actions) && k < |actions| && actions[k].Proceed?
    requires actions[k].t in states[k].threads && states[k].threads[actions[k].t].pc.TryPopEnter?
    ensures states[k].ring.Valid() && states[k + 1].ring.Valid()
    ensures var s, s', c := states[k], states[k + 1], states[k].threads[actions[k].t].call;
      && c in s'.reports
      && (s.ring.Contents() == [] ==> s'.reports[c] == Popped(EAGAIN, 0) && s'.ring.Contents() == [])
      && (s.ring.Contents() != [] ==>
            s'.reports[c] == Popped(SUCCESS, s.ring.Contents()[0]) && s'.ring.Contents() == s.ring.Contents()[1..])
  {
    RunDoes(states, actions, k);
  }

  /** A push that comes to a queue with room, or wakes up to one, succeeds there and then;
      so does a pop that comes or wakes up to an item. */
  lemma NoNeedToWait(states: seq<State>, actions: seq<Action>, k: nat)
    requires Run(states, actions) && k < |actions| && actions[k].Proceed? && actions[k].t in states[k].threads
    ensures states[k].ring.Valid()
    ensures var s, s', t := states[k], states[k + 1], actions[k].t;
      && ((s.threads[t].pc.PushEnter? || s.threads[t].pc.PushWoken?) && Room(s) ==> Stores(s, s', t, s.threads[t].pc.item))
      && ((s.threads[t].pc.PopEnter? || s.threads[t].pc.PopWoken?) && Supply(s) ==> Fetches(s, s', t))
  {
    hide Room; hide Supply; hide Stores; hide Fetches;
    RunDoes(states, actions, k);
  }

  /** When interrupt_all returns, everybody who slept has been woken. */
  lemma InterruptWakes(states: seq<State>, actions: seq<Action>, k: nat)
    requires Run(states, actions) && k < |actions| && actions[k].Proceed?
    requires actions[k].t in states[k].threads && states[k].threads[actions[k].t].pc.Interrupting?
    ensures PoppersAsleep(states[k + 1].threads) == {} && PushersAsleep(states[k + 1].threads) == {}
    ensures forall u :: u in PoppersAsleep(states[k].threads) ==> u in PoppersWoken(states[k + 1].threads)
    ensures forall u :: u in PushersAsleep(states[k].threads) ==> u in PushersWoken(states[k + 1].threads)
  {
    assert StepsTo(states[k], actions[k], states[k + 1]);
  }

  /** What a report means: EOF that the queue is closed, EINTR that it is not, EAGAIN that
      there was no room or no item, success what was moved. */
  ghost predicate Means(s: State, s': State, r: Report)
    requires s.ring.Valid() && s'.ring.Valid()
  {
    match r
    case Done(_) => true
    case Pushed(EOF, _) => s.terminated && s'.ring == s.ring
    case Popped(EOF, _) => s.terminated && s'.ring == s.ring
    case Pushed(EINTR, _) => !s.terminated && s'.ring == s.ring
    case Popped(EINTR, _) => !s.terminated && s'.ring == s.ring
    case Pushed(EAGAIN, _) => !Room(s) && s'.ring == s.ring
    case Popped(EAGAIN, _) => !Supply(s) && s'.ring == s.ring
    case Pushed(TIMEUP, _) => false
    case Popped(TIMEUP, _) => s'.ring == s.ring
    case Pushed(SUCCESS, x) => Room(s) && s'.ring.Contents() == s.ring.Contents() + [x]
    case Popped(SUCCESS, x) => Supply(s) && s.ring.Contents() == [x] + s'.ring.Contents()
  }

  /** So it is for every call of every run, at the step that makes the report. */
  lemma ReportMeans(states: seq<State>, actions: seq<Action>, k: nat, c: nat)
    requires Run(states, actions) && k < |actions| && c !in states[k].reports && c in states[k + 1].reports
    ensures states[k].ring.Valid() && states[k + 1].ring.Valid()
    ensures Means(states[k], states[k + 1], states[k + 1].reports[c])
  {
    hide Room; hide Supply; hide Means; hide Does;
    var s, s', a := states[k], states[k + 1], actions[k];
    RunHolds(states, actions, k);
    RunHolds(states, actions, k + 1);
    assert StepsTo(s, a, s');
    hide WaitInv; hide Closed; hide Run;
    if a.Proceed? {
      SectionDoes(s, a.t, a.w);
      ReportOf(s, s', a.t, c);
    }
  }

  lemma ReportOf(s: State, s': State, t: Tid, c: nat)
    requires t in s.threads && s.ring.Valid() && s'.ring.Valid() && Does(s, s', t) && !s.threads[t].pc.Idle?
    requires !s.threads[t].pc.PushAsleep? && !s.threads[t].pc.PopAsleep? && c !in s.reports && c in s'.reports
    ensures Means(s, s', s'.reports[c])
  {
    hide Room; hide Supply;
  }
}
