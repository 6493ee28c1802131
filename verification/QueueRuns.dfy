/** What holds in every state the blocking queue can reach. */
module QueueRuns {
  import opened Rings
  import opened BlockingQueue
  import opened QueueSafety
  import opened QueueHistory
  import opened QueueClosing

  /** The states passed on a run, oldest first. */
  ghost predicate Run(states: seq<State>, actions: seq<Action>) {
    && |states| == |actions| + 1
    && Initial(states[0])
    && forall i :: 0 <= i < |actions| ==> StepsTo(states[i], actions[i], states[i + 1])
  }

  ghost predicate StepsTo(s: State, a: Action, s': State) {
    Enabled(s, a) && WellFormed(s, a.t) && s' == Next(s, a)
  }

  lemma InitialHolds(s: State)
    requires Initial(s)
    ensures WaitInv(s) && Ledger(s) && Closed(s)
  {
    assert PoppersAsleep(s.threads) == {} && PoppersWoken(s.threads) == {} && PoppersTimedOut(s.threads) == {};
    assert PushersAsleep(s.threads) == {} && PushersWoken(s.threads) == {};
    assert s.ring.Contents() == [];
  }

  lemma StepHolds(s: State, a: Action, s': State)
    requires WaitInv(s) && Ledger(s) && Closed(s) && StepsTo(s, a, s')
    ensures WaitInv(s') && Ledger(s') && Closed(s')
  {
    assert forall c :: c in s.reports ==> c < s.nextCall;
    hide WaitInv; hide Ledger; hide Closed; hide Next;
    WaitStep(s, a);
    LedgerStep(s, a);
    ClosedStep(s, a);
  }

  lemma {:induction false} RunHolds(states: seq<State>, actions: seq<Action>, k: nat)
    requires Run(states, actions) && k < |states|
    ensures WaitInv(states[k]) && Ledger(states[k]) && Closed(states[k])
  {
    hide WaitInv; hide Ledger; hide Closed; hide StepsTo;
    if k == 0 {
      InitialHolds(states[0]);
    } else {
      RunHolds(states, actions, k - 1);
      assert StepsTo(states[k - 1], actions[k - 1], states[k - 1 + 1]);
      StepHolds(states[k - 1], actions[k - 1], states[k]);
    }
  }

  /** Every run can go on from every state: an enabled action never finds the
      ring outside the bounds its section relies on. */
  lemma RunNeverStuck(states: seq<State>, actions: seq<Action>, k: nat, a: Action)
    requires Run(states, actions) && k < |states| && Enabled(states[k], a)
    ensures WellFormed(states[k], a.t)
  {
    RunHolds(states, actions, k);
  }

  // ----- no lost wakeup

  lemma NoLostWakeup(states: seq<State>, actions: seq<Action>, k: nat)
    requires Run(states, actions) && k < |states|
    ensures var s := states[k];
      && (PoppersAsleep(s.threads) != {} ==> s.ring.nelts <= |PoppersWoken(s.threads)|)
      && (PushersAsleep(s.threads) != {} ==> |s.ring.data| - s.ring.nelts <= |PushersWoken(s.threads)|)
      && s.emptyWaiters == |PoppersAsleep(s.threads)| + |PoppersWoken(s.threads)| + |PoppersTimedOut(s.threads)|
      && s.fullWaiters == |PushersAsleep(s.threads)| + |PushersWoken(s.threads)|
  {
    RunHolds(states, actions, k);
    SleeperCounts(states[k].threads);
  }

  /** With room for at least one item, a push and a pop never both sleep with
      nobody woken to move on. */
  lemma NoStandstill(states: seq<State>, actions: seq<Action>, k: nat)
    requires Run(states, actions) && k < |states| && |states[k].ring.data| > 0
    requires PoppersAsleep(states[k].threads) != {} && PushersAsleep(states[k].threads) != {}
    ensures PoppersWoken(states[k].threads) != {} || PushersWoken(states[k].threads) != {}
  {
    NoLostWakeup(states, actions, k);
  }

  // ----- first in, first out, exactly once

  lemma FirstInFirstOut(states: seq<State>, actions: seq<Action>, k: nat)
    requires Run(states, actions) && k < |states|
    ensures Items(states[k].fetched) <= Items(states[k].stored)
    ensures states[k].ring.Valid()
    ensures Items(states[k].stored) == Items(states[k].fetched) + states[k].ring.Contents()
  {
    RunHolds(states, actions, k);
  }

  /** How often call `c` stored something. */
  function Times(es: seq<Entry>, c: nat): nat {
    if es == [] then 0 else Times(es[..|es| - 1], c) + if es[|es| - 1].call == c then 1 else 0
  }

  lemma {:induction false} TimesZero(es: seq<Entry>, c: nat)
    requires forall i :: 0 <= i < |es| ==> es[i].call != c
    ensures Times(es, c) == 0
  {
    if es != [] { TimesZero(es[..|es| - 1], c); }
  }

  lemma {:induction false} TimesOne(es: seq<Entry>, c: nat, k: nat)
    requires k < |es| && es[k].call == c
    requires forall i, j :: 0 <= i < j < |es| ==> es[i].call != es[j].call
    ensures Times(es, c) == 1
  {
    if k == |es| - 1 { TimesZero(es[..|es| - 1], c); } else { TimesOne(es[..|es| - 1], c, k); }
  }

  /** A finished push stored its item exactly once if it reported success and
      not at all if it reported anything else, retries included. */
  lemma PushExactlyOnce(states: seq<State>, actions: seq<Action>, k: nat, c: nat)
    requires Run(states, actions) && k < |states| && c in states[k].reports && states[k].reports[c].Pushed?
    ensures var s := states[k];
      Times(s.stored, c) == if s.reports[c].status == SUCCESS then 1 else 0
    ensures states[k].reports[c].status == SUCCESS ==> Entry(c, states[k].reports[c].item) in states[k].stored
  {
    RunHolds(states, actions, k);
    var s := states[k];
    hide Items; hide FetchedOnce; hide WaitInv; hide Closed; hide Run;
    if s.reports[c].status == SUCCESS {
      var i :| 0 <= i < |s.stored| && s.stored[i] == Entry(c, s.reports[c].item);
      TimesOne(s.stored, c, i);
    } else {
      TimesZero(s.stored, c);
    }
  }

  lemma PopExactlyOnce(states: seq<State>, actions: seq<Action>, k: nat, c: nat)
    requires Run(states, actions) && k < |states| && c in states[k].reports && states[k].reports[c].Popped?
    ensures var s := states[k];
      Times(s.fetched, c) == if s.reports[c].status == SUCCESS then 1 else 0
    ensures states[k].reports[c].status == SUCCESS ==> Entry(c, states[k].reports[c].item) in states[k].fetched
  {
    RunHolds(states, actions, k);
    var s := states[k];
    hide Items; hide StoredOnce; hide WaitInv; hide Closed; hide Run;
    if s.reports[c].status == SUCCESS {
      var i :| 0 <= i < |s.fetched| && s.fetched[i] == Entry(c, s.reports[c].item);
      TimesOne(s.fetched, c, i);
    } else {
      TimesZero(s.fetched, c);
    }
  }

  /** A call that has not finished has stored nothing yet, however often it was retried. */
  lemma UnfinishedStoredNothing(states: seq<State>, actions: seq<Action>, k: nat, c: nat)
    requires Run(states, actions) && k < |states| && c !in states[k].reports
    ensures Times(states[k].stored, c) == 0 && Times(states[k].fetched, c) == 0
  {
    RunHolds(states, actions, k);
    hide Items; hide WaitInv; hide Closed; hide Run;
    TimesZero(states[k].stored, c);
    TimesZero(states[k].fetched, c);
  }

  // ----- closing

  /** What was reported stays reported, and a closed queue stays closed. */
  ghost predicate Later(s: State, s': State) {
    && (forall c :: c in s.reports ==> c in s'.reports && s'.reports[c] == s.reports[c])
    && (s.terminated ==> s'.terminated && s'.closedAt == s.closedAt)
    && s.nextCall <= s'.nextCall
  }

  lemma StoreLater(s: State, t: Tid, x: Item, w: Tid)
    requires t in s.threads && s.ring.next < |s.ring.data| && s.threads[t].call !in s.reports
    ensures Later(s, Store(s, t, x, w))
  {
  }

  lemma FetchLater(s: State, t: Tid, w: Tid)
    requires t in s.threads && s.ring.out < |s.ring.data| && s.ring.nelts > 0 && s.threads[t].call !in s.reports
    ensures Later(s, Fetch(s, t, w))
  {
  }

  lemma PushSectionLater(s: State, t: Tid, w: Tid)
    requires WellFormed(s, t) && s.threads[t].call !in s.reports
    ensures Later(s, PushSection(s, t, w))
  {
    hide Store;
    var pc := s.threads[t].pc;
    if !s.ring.Full() && (pc.PushEnter? || pc.PushWoken? || pc.TryPushEnter?) {
      StoreLater(s, t, pc.item, w);
      StoreLater(s.(fullWaiters := s.fullWaiters - 1), t, pc.item, w);
    }
  }

  lemma PopSectionLater(s: State, t: Tid, w: Tid)
    requires WellFormed(s, t) && s.threads[t].call !in s.reports
    ensures Later(s, PopSection(s, t, w))
  {
    hide Fetch;
    if !s.ring.Empty() {
      FetchLater(s, t, w);
      FetchLater(s.(emptyWaiters := s.emptyWaiters - 1), t, w);
    }
  }

  lemma SectionLater(s: State, t: Tid, w: Tid)
    requires WellFormed(s, t) && s.threads[t].call !in s.reports
    ensures Later(s, Section(s, t, w))
  {
    hide PushSection; hide PopSection; hide Broadcast;
    PushSectionLater(s, t, w);
    PopSectionLater(s, t, w);
    BroadcastLater(s);
  }

  lemma BroadcastLater(s: State)
    ensures Later(s, Broadcast(s)) && Broadcast(s).threads.Keys == s.threads.Keys
    ensures Broadcast(s).reports == s.reports
    ensures forall t :: t in s.threads ==> Broadcast(s).threads[t].call == s.threads[t].call
  {
  }

  lemma StepLater(s: State, a: Action, s': State)
    requires Ledger(s) && StepsTo(s, a, s')
    ensures Later(s, s')
  {
    hide Section;
    if a.Proceed? { SectionLater(s, a.t, a.w); }
  }

  lemma {:induction false} RunLater(states: seq<State>, actions: seq<Action>, i: nat, k: nat)
    requires Run(states, actions) && i <= k < |states|
    ensures Later(states[i], states[k])
    decreases k
  {
    if i < k {
      RunLater(states, actions, i, k - 1);
      RunHolds(states, actions, k - 1);
      hide Ledger; hide WaitInv; hide Closed; hide StepsTo;
      assert StepsTo(states[k - 1], actions[k - 1], states[k - 1 + 1]);
      StepLater(states[k - 1], actions[k - 1], states[k]);
    }
  }

  /** Once a closing call has returned, nobody is asleep in that or any later state. */
  lemma NobodySleepsAfterClose(states: seq<State>, actions: seq<Action>, i: nat, k: nat, c: nat)
    requires Run(states, actions) && i <= k < |states|
    requires c in states[i].reports && states[i].reports[c] == Done(true)
    ensures PoppersAsleep(states[k].threads) == {} && PushersAsleep(states[k].threads) == {}
  {
    RunLater(states, actions, i, k);
    RunHolds(states, actions, k);
    hide Run; hide Ledger; hide WaitInv;
    assert CloserReturned(states[k].reports);
    forall t | t in states[k].threads ensures !Waits(states[k].threads[t].pc) {}
  }

  /** A push or pop that starts once the queue is closed is refused ... */
  lemma LateCallRefused(states: seq<State>, actions: seq<Action>, i: nat, k: nat, c: nat)
    requires Run(states, actions) && i <= k < |states| && states[i].terminated
    requires c >= states[i].nextCall && c in states[k].reports
    ensures Refused(states[k].reports[c])
    ensures Times(states[k].stored, c) == 0 && Times(states[k].fetched, c) == 0
  {
    RunLater(states, actions, i, k);
    ClosedBefore(states, actions, i);
    RunHolds(states, actions, k);
    hide Run; hide WaitInv; hide Items; hide Calls;
    TimesZero(states[k].stored, c);
    TimesZero(states[k].fetched, c);
  }

  /** ... by its very first step, which leaves the queue as it was. */
  lemma LateCallStep(states: seq<State>, actions: seq<Action>, i: nat, k: nat, t: Tid, w: Tid)
    requires Run(states, actions) && i <= k < |states| && states[i].terminated
    requires Enabled(states[k], Proceed(t, w)) && states[k].threads[t].call >= states[i].nextCall
    ensures WellFormed(states[k], t)
    ensures var s, s' := states[k], Next(states[k], Proceed(t, w));
      && s'.ring == s.ring && s'.stored == s.stored && s'.fetched == s.fetched
      && match s.threads[t].pc
         case PushStart(x) => s'.reports == s.reports[s.threads[t].call := Pushed(EOF, x)]
         case TryPushStart(x) => s'.reports == s.reports[s.threads[t].call := Pushed(EOF, x)]
         case PopStart(_) => s'.reports == s.reports[s.threads[t].call := Popped(EOF, 0)]
         case TryPopStart => s'.reports == s.reports[s.threads[t].call := Popped(EOF, 0)]
         case pc => pc.Interrupting? || pc.Closing?
  {
    RunLater(states, actions, i, k);
    ClosedBefore(states, actions, i);
    RunHolds(states, actions, k);
    hide Run; hide WaitInv; hide Calls; hide StoredOnce; hide FetchedOnce; hide Items; hide PushSection; hide PopSection;
    assert Opening(states[k].threads[t].pc);
  }

  /** The number recorded at closing is one the run had reached by then. */
  lemma {:induction false} ClosedBefore(states: seq<State>, actions: seq<Action>, k: nat)
    requires Run(states, actions) && k < |states|
    ensures states[k].terminated ==> states[k].closedAt <= states[k].nextCall
  {
    if k > 0 {
      ClosedBefore(states, actions, k - 1);
      RunLater(states, actions, k - 1, k);
      assert StepsTo(states[k - 1], actions[k - 1], states[k - 1 + 1]);
      ClosingStep(states[k - 1], actions[k - 1]);
    }
  }

  lemma ClosingStep(s: State, a: Action)
    requires Enabled(s, a) && WellFormed(s, a.t)
    ensures Next(s, a).terminated && !s.terminated ==> Next(s, a).closedAt == Next(s, a).nextCall
  {
  }
}
