/** Hanging up and answering are not one step each: a hangup sets its flag in one
    section, looks at the state outside any, writes it in another, and stores the
    cause after that; an answer looks at cause and state and sets its flag later,
    with no lock in between. This is what is left of the end of life when the
    sections of other calls come in between. */
module ChannelRaces {
  import opened Channels

  /** Where the one call that set the hangup flag stands. */
  datatype Progress = Outside | Flagged(cause: int) | Checked(cause: int) | Written(cause: int)

  /** `answering` are the threads that found the channel alive and will record an answer. */
  datatype Shared = Shared(channel: Channel, progress: Progress, answering: set<nat>)

  datatype Step =
    | Other(next: ChannelState)
    | Look(thread: nat) | Record(thread: nat)
    | Begin(cause: int) | Check | Write | Finish

  ghost predicate Enabled(s: Shared, a: Step) {
    match a
    case Other(_) => true
    case Look(t) => t !in s.answering
    case Record(t) => t in s.answering
    case Begin(_) => !s.channel.hangupFlag
    case Check => s.progress.Flagged?
    case Write => s.progress.Checked?
    case Finish => s.progress.Written?
  }

  function NextShared(s: Shared, a: Step): Shared
    requires a.Check? ==> s.progress.Flagged?
    requires a.Write? ==> s.progress.Checked?
    requires a.Finish? ==> s.progress.Written?
  {
    var c := s.channel;
    match a
    case Other(next) => s.(channel := SetState(c, next))
    case Look(t) => if Over(c) || c.answered then s else s.(answering := s.answering + {t})
    case Record(t) => s.(channel := c.(answered := true), answering := s.answering - {t})
    case Begin(cause) => s.(channel := c.(hangupFlag := true), progress := Flagged(cause))
    case Check => s.(progress := if Ended(c.state) then Outside else Checked(s.progress.cause))
    case Write => s.(channel := c.(state := CS_HANGUP), progress := Written(s.progress.cause))
    case Finish => s.(channel := c.(cause := s.progress.cause, events := c.events + 1), progress := Outside)
  }

  ghost predicate SharedInv(s: Shared) {
    var c := s.channel;
    && c.events <= 1
    && (c.events == 1 ==> c.hangupFlag && Ended(c.state) && s.progress.Outside?)
    && (!s.progress.Outside? ==> c.hangupFlag)
    && (s.progress.Written? ==> Ended(c.state))
    && (!Ended(c.state) ==> c.cause == CAUSE_NONE)
  }

  /** What no section undoes: the end, the event and a recorded answer stay, and nobody
      begins to answer an ended channel. After the event the state only moves up and
      the cause stays. */
  ghost predicate Lasting(s: Shared, s': Shared) {
    var c, c' := s.channel, s'.channel;
    && c.events <= c'.events <= 1 && (c.answered ==> c'.answered)
    && (Ended(c.state) ==> Ended(c'.state) && s'.answering <= s.answering)
    && (Ended(c.state) && s.answering == {} && c'.answered ==> c.answered)
    && (c.events == 1 ==> Rank(c.state) <= Rank(c'.state) && c'.cause == c.cause)
  }

  lemma SharedStep(s: Shared, a: Step)
    requires SharedInv(s) && Enabled(s, a)
    ensures SharedInv(NextShared(s, a)) && Lasting(s, NextShared(s, a))
  {
  }

  ghost predicate SharedRun(states: seq<Shared>, steps: seq<Step>) {
    && |states| == |steps| + 1
    && Fresh(states[0].channel) && states[0].progress == Outside && states[0].answering == {}
    && forall i :: 0 <= i < |steps| ==> Enabled(states[i], steps[i]) && states[i + 1] == NextShared(states[i], steps[i])
  }

  lemma {:induction false} SharedRunKeeps(states: seq<Shared>, steps: seq<Step>, k: nat)
    requires SharedRun(states, steps) && k < |states|
    ensures SharedInv(states[k])
    ensures k < |steps| ==> Lasting(states[k], states[k + 1])
  {
    if k > 0 {
      SharedRunKeeps(states, steps, k - 1);
      assert Enabled(states[k - 1], steps[k - 1]) && states[k - 1 + 1] == NextShared(states[k - 1], steps[k - 1]);
      SharedStep(states[k - 1], steps[k - 1]);
    }
    if k < |steps| { SharedStep(states[k], steps[k]); }
  }

  lemma LastingTwice(a: Shared, b: Shared, c: Shared)
    requires Lasting(a, b) && Lasting(b, c) && SharedInv(b) && a.channel.events <= 1
    ensures Lasting(a, c)
  {
  }

  /** Over every run and between any two of its states. */
  lemma {:induction false} EndIsFinal(states: seq<Shared>, steps: seq<Step>, i: nat, k: nat)
    requires SharedRun(states, steps) && i <= k < |states|
    ensures Lasting(states[i], states[k])
    decreases k
  {
    hide Lasting; hide SharedInv; hide NextShared; hide Enabled;
    SharedRunKeeps(states, steps, i);
    if i == k {
      LastingSelf(states[i]);
    } else {
      EndIsFinal(states, steps, i, k - 1);
      SharedRunKeeps(states, steps, k - 1);
      InvEvents(states[i]);
      LastingTwice(states[i], states[k - 1], states[k]);
    }
  }

  lemma LastingSelf(s: Shared)
    requires SharedInv(s)
    ensures Lasting(s, s)
  {
  }

  lemma InvEvents(s: Shared)
    requires SharedInv(s)
    ensures s.channel.events <= 1
  {
  }

  // ----- answers after the end

  /** At step j a thread found the channel alive, and has not recorded its answer up to k. */
  ghost predicate Looked(states: seq<Shared>, steps: seq<Step>, t: nat, j: nat, k: nat)
    requires |states| == |steps| + 1
  {
    && j < k < |states| && steps[j] == Look(t) && !Ended(states[j].channel.state)
    && forall i :: j < i < k ==> steps[i] != Record(t)
  }

  /** Whoever is about to record an answer has looked before. */
  lemma {:induction false} AnsweringLooked(states: seq<Shared>, steps: seq<Step>, t: nat, k: nat) returns (j: nat)
    requires SharedRun(states, steps) && k < |states| && t in states[k].answering
    ensures Looked(states, steps, t, j, k)
  {
    var a, s := steps[k - 1], states[k - 1];
    assert Enabled(s, a) && states[k - 1 + 1] == NextShared(s, a);
    if a == Look(t) {
      j := k - 1;
    } else {
      j := AnsweringLooked(states, steps, t, k - 1);
    }
  }

  /** An answer comes in after the end exactly when some thread looked before it and
      records after it. */
  lemma {:induction false} AnsweredAfterEnd(states: seq<Shared>, steps: seq<Step>, i: nat, k: nat)
    requires SharedRun(states, steps) && i <= k < |states|
    requires Ended(states[i].channel.state) && !states[i].channel.answered
    ensures states[k].channel.answered <==>
            exists t: nat, j: nat, m: nat :: j < i <= m < k && steps[m] == Record(t) && Looked(states, steps, t, j, m)
    decreases k
  {
    if states[k].channel.answered {
      var t, j, m := FirstAnswer(states, steps, i, k);
    }
    if t: nat, j: nat, m: nat :| j < i <= m < k && steps[m] == Record(t) && Looked(states, steps, t, j, m) {
      assert states[m + 1] == NextShared(states[m], steps[m]);
      EndIsFinal(states, steps, m + 1, k);
    }
  }

  lemma {:induction false} FirstAnswer(states: seq<Shared>, steps: seq<Step>, i: nat, k: nat) returns (t: nat, j: nat, m: nat)
    requires SharedRun(states, steps) && i <= k < |states|
    requires Ended(states[i].channel.state) && !states[i].channel.answered && states[k].channel.answered
    ensures j < i <= m < k && steps[m] == Record(t) && Looked(states, steps, t, j, m)
    decreases k
  {
    if states[k - 1].channel.answered {
      t, j, m := FirstAnswer(states, steps, i, k - 1);
    } else {
      m := k - 1;
      assert Enabled(states[m], steps[m]) && states[m + 1] == NextShared(states[m], steps[m]);
      t := steps[m].thread;
      j := AnsweringLooked(states, steps, t, m);
      if j >= i { EndIsFinal(states, steps, i, j); }
    }
  }

  /** It does happen, even behind the hangup event. */
  lemma AnswerBehindEvent(c: Channel, cause: int, t: nat) returns (states: seq<Shared>, steps: seq<Step>)
    requires Fresh(c)
    ensures SharedRun(states, steps) && |steps| == 6
    ensures states[5].channel.events == 1 && !states[5].channel.answered && states[6].channel.answered
  {
    steps := [Look(t), Begin(cause), Check, Write, Finish, Record(t)];
    var s0 := Shared(c, Outside, {});
    var s1 := NextShared(s0, steps[0]);
    var s2 := NextShared(s1, steps[1]);
    var s3 := NextShared(s2, steps[2]);
    var s4 := NextShared(s3, steps[3]);
    var s5 := NextShared(s4, steps[4]);
    states := [s0, s1, s2, s3, s4, s5, NextShared(s5, steps[5])];
  }

  // ----- hangups after the end

  /** A hangup that is about to write has found the channel alive. */
  lemma {:induction false} HangupChecked(states: seq<Shared>, steps: seq<Step>, k: nat) returns (j: nat)
    requires SharedRun(states, steps) && k < |states| && states[k].progress.Checked?
    ensures j < k && steps[j] == Check && !Ended(states[j].channel.state)
  {
    var a, s := steps[k - 1], states[k - 1];
    SharedRunKeeps(states, steps, k - 1);
    assert Enabled(s, a) && states[k - 1 + 1] == NextShared(s, a);
    if a == Check {
      j := k - 1;
    } else {
      j := HangupChecked(states, steps, k - 1);
    }
  }

  /** Over every run, an ended channel moves back exactly at a write of a hangup that had
      found it alive, once the channel has gone past the state written. */
  lemma MovesBackExactly(states: seq<Shared>, steps: seq<Step>, k: nat)
    requires SharedRun(states, steps) && k < |steps| && Ended(states[k].channel.state)
    ensures Rank(states[k + 1].channel.state) < Rank(states[k].channel.state) <==>
            && states[k].channel.state != CS_HANGUP && steps[k] == Write
            && exists j :: 0 <= j < k && steps[j] == Check && !Ended(states[j].channel.state)
  {
    hide Allowed;
    assert Enabled(states[k], steps[k]) && states[k + 1] == NextShared(states[k], steps[k]);
    if steps[k] == Write { var j := HangupChecked(states, steps, k); }
  }

  /** The cause a hangup carries is the one it was called with. */
  lemma {:induction false} HangupCause(states: seq<Shared>, steps: seq<Step>, k: nat) returns (j: nat)
    requires SharedRun(states, steps) && k < |states| && !states[k].progress.Outside?
    ensures j < k && steps[j] == Begin(states[k].progress.cause)
  {
    var a, s := steps[k - 1], states[k - 1];
    assert Enabled(s, a) && states[k - 1 + 1] == NextShared(s, a);
    if a.Begin? {
      j := k - 1;
    } else {
      j := HangupCause(states, steps, k - 1);
    }
  }

  /** Only one hangup ever begins. */
  lemma {:induction false} BeginsOnce(states: seq<Shared>, steps: seq<Step>, j: nat, k: nat)
    requires SharedRun(states, steps) && j < k < |states| && steps[j].Begin?
    ensures states[k].channel.hangupFlag && (k < |steps| ==> !steps[k].Begin?)
    decreases k
  {
    assert Enabled(states[k - 1], steps[k - 1]) && states[k - 1 + 1] == NextShared(states[k - 1], steps[k - 1]);
    if j < k - 1 { BeginsOnce(states, steps, j, k - 1); }
    assert k < |steps| ==> Enabled(states[k], steps[k]);
  }

  /** Over every run, the cause of an ended channel changes exactly when the hangup that
      had found it alive finishes and was called with another cause. */
  lemma CauseChangesExactly(states: seq<Shared>, steps: seq<Step>, k: nat)
    requires SharedRun(states, steps) && k < |steps| && Ended(states[k].channel.state)
    ensures states[k + 1].channel.cause != states[k].channel.cause <==>
            && steps[k] == Finish
            && exists j :: 0 <= j < k && steps[j].Begin? && steps[j].cause != states[k].channel.cause
  {
    assert Enabled(states[k], steps[k]) && states[k + 1] == NextShared(states[k], steps[k]);
    if steps[k] == Finish {
      var j := HangupCause(states, steps, k);
      forall i | 0 <= i < k && steps[i].Begin? ensures i == j {
        if i < j { BeginsOnce(states, steps, i, j); }
        if j < i { BeginsOnce(states, steps, j, i); }
      }
    }
  }

  /** Both do happen. */
  lemma MovesBackHappens(c: Channel, cause: int) returns (states: seq<Shared>, steps: seq<Step>)
    requires Fresh(c)
    ensures SharedRun(states, steps) && |steps| == 5
    ensures states[3].channel.state == CS_DESTROY && states[4].channel.state == CS_HANGUP
    ensures states[3].channel.cause == CAUSE_NONE && states[5].channel.cause == cause
  {
    steps := [Begin(cause), Check, Other(CS_DESTROY), Write, Finish];
    var s0 := Shared(c, Outside, {});
    var s1 := NextShared(s0, steps[0]);
    var s2 := NextShared(s1, steps[1]);
    var s3 := NextShared(s2, steps[2]);
    var s4 := NextShared(s3, steps[3]);
    states := [s0, s1, s2, s3, s4, NextShared(s4, steps[4])];
  }
}
