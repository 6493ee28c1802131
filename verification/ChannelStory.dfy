/** What the state of a channel says about the calls made on it, over every run in which
    each call is one step. */
module ChannelStory {
  import opened Channels

  // ----- the table

  const STATES: seq<ChannelState> :=
    [CS_NEW, CS_INIT, CS_ROUTING, CS_SOFT_EXECUTE, CS_EXECUTE, CS_EXCHANGE_MEDIA, CS_PARK, CS_CONSUME_MEDIA, CS_HIBERNATE, CS_RESET,
     CS_HANGUP, CS_REPORTING, CS_DESTROY]

  lemma RankIsPosition(st: ChannelState)
    ensures Rank(st) < |STATES| && STATES[Rank(st)] == st
  {
  }

  /** The table by the order of the states: a new or reset channel goes anywhere, one at
      work to any other working state (2 to 9), one in hibernation (8) also back to the
      start (1), and an ended one (from 10) only on. */
  lemma TableByRank(from: ChannelState, next: ChannelState)
    requires from != next
    ensures Allowed(from, next) <==>
            || Rank(from) == 0 || Rank(from) == 9
            || (1 <= Rank(from) <= 8 && 2 <= Rank(next) <= 9) || (Rank(from) == 8 && Rank(next) == 1)
            || 10 <= Rank(from) < Rank(next)
  {
  }

  // ----- what calls do to a live channel

  /** The call ends a channel in this state. */
  ghost predicate Ends(c: Channel, a: Call) {
    match a
    case CallHangup(_) => true
    case CallSetState(next) => Ended(next) && Allowed(c.state, next)
    case CallAnswer(delivered) => delivered == Failed && !c.outbound && !c.answered
    case CallMarkAnswered => false
  }

  /** With an event, when it is a hangup. */
  ghost predicate EndsLoudly(c: Channel, a: Call) {
    Ends(c, a) && !a.CallSetState?
  }

  /** The cause the channel is left with. */
  ghost function EndCause(a: Call): int {
    match a
    case CallHangup(cause) => cause
    case CallSetState(next) => if next == CS_HANGUP then NORMAL_CLEARING else CAUSE_NONE
    case CallAnswer(_) => INCOMPATIBLE_DESTINATION
    case CallMarkAnswered => CAUSE_NONE
  }

  /** The call records an answer on a live channel. */
  ghost predicate Answers(c: Channel, a: Call) {
    a.CallMarkAnswered? || (a == CallAnswer(Success) && !c.outbound)
  }

  /** On a live channel. */
  lemma LiveCall(c: Channel, a: Call)
    requires Inv(c) && !Ended(c.state)
    ensures var c' := Next(c, a);
      && (Ended(c'.state) <==> Ends(c, a))
      && (Ends(c, a) ==> c'.cause == EndCause(a))
      && c'.events == (if EndsLoudly(c, a) then 1 else 0)
      && (c'.answered <==> c.answered || Answers(c, a))
      && (!Ends(c, a) ==> c'.state == if a.CallSetState? && Allowed(c.state, a.next) then a.next else c.state)
  {
    hide Allowed;
    match a {
      case CallSetState(next) => LiveSetState(c, next);
      case CallHangup(_) =>
      case CallMarkAnswered =>
      case CallAnswer(_) =>
    }
  }

  lemma LiveSetState(c: Channel, next: ChannelState)
    requires Inv(c) && !Ended(c.state)
    ensures SetState(c, next) ==
            if next == c.state || !Allowed(c.state, next) then c
            else c.(state := next, cause := if next == CS_HANGUP then NORMAL_CLEARING else CAUSE_NONE)
  {
    hide Allowed;
  }

  /** On an ended one. */
  lemma EndedCall(c: Channel, a: Call)
    requires Inv(c) && Ended(c.state)
    ensures var c' := Next(c, a);
      && Ended(c'.state) && c'.cause == c.cause && c'.events == c.events && c'.answered == c.answered
      && c'.state == if a.CallSetState? && Rank(a.next) > Rank(c.state) then a.next else c.state
  {
    if a.CallSetState? && a.next != c.state { TableByRank(c.state, a.next); }
    hide Allowed;
  }

  /** A hangup clears the hold and notes it, and the first one unblocks the state. */
  lemma HangupFlags(c: Channel, cause: int)
    ensures var c' := Hangup(c, cause);
      && !c'.holding && (c'.hangupHeld <==> c.hangupHeld || c.holding) && c'.hangupFlag
      && (c'.blockState <==> c.blockState && c.hangupFlag)
  {
  }

  // ----- over runs

  /** The call that ended the channel. */
  ghost predicate EndedAt(states: seq<Channel>, calls: seq<Call>, i: nat)
    requires |states| == |calls| + 1
  {
    i < |calls| && !Ended(states[i].state) && Ends(states[i], calls[i])
  }

  /** A channel has ended exactly when one of the calls so far ended it; that call gave it
      its cause, and the event has fired exactly when it was a hangup. */
  lemma {:induction false} HowItEnded(states: seq<Channel>, calls: seq<Call>, k: nat)
    requires Run(states, calls) && k < |states|
    ensures Ended(states[k].state) <==> exists i :: 0 <= i < k && EndedAt(states, calls, i)
    ensures forall i :: 0 <= i < k && EndedAt(states, calls, i) ==>
              && states[k].cause == EndCause(calls[i])
              && states[k].events == (if EndsLoudly(states[i], calls[i]) then 1 else 0)
    ensures !Ended(states[k].state) ==> states[k].cause == CAUSE_NONE && states[k].events == 0
  {
    hide Next; hide Ends; hide EndsLoudly; hide Allowed;
    RunKeeps(states, calls, k);
    if k > 0 {
      var c, a := states[k - 1], calls[k - 1];
      HowItEnded(states, calls, k - 1);
      RunKeeps(states, calls, k - 1);
      assert states[k - 1 + 1] == Next(c, a);
      if Ended(c.state) {
        EndedCall(c, a);
      } else {
        LiveCall(c, a);
        assert Ended(states[k].state) ==> EndedAt(states, calls, k - 1);
      }
    }
  }

  /** It is ended once. */
  lemma {:induction false} EndedOnce(states: seq<Channel>, calls: seq<Call>, i: nat, j: nat)
    requires Run(states, calls) && i < j && j < |calls| && EndedAt(states, calls, i)
    ensures !EndedAt(states, calls, j)
  {
    hide Next; hide Ends; hide Allowed;
    HowItEnded(states, calls, j);
  }

  /** It counts as answered exactly when one of the calls so far answered it while it lived. */
  lemma {:induction false} HowItWasAnswered(states: seq<Channel>, calls: seq<Call>, k: nat)
    requires Run(states, calls) && k < |states|
    ensures states[k].answered <==> exists i :: 0 <= i < k && !Ended(states[i].state) && Answers(states[i], calls[i])
  {
    hide Next; hide Ends; hide EndsLoudly; hide Allowed; hide Answers;
    if k > 0 {
      var c, a := states[k - 1], calls[k - 1];
      HowItWasAnswered(states, calls, k - 1);
      RunKeeps(states, calls, k - 1);
      assert states[k - 1 + 1] == Next(c, a);
      if Ended(c.state) { EndedCall(c, a); } else { LiveCall(c, a); }
    }
  }
}
