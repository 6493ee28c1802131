/** The life of a channel: its state, its hangup and its answer. */
module Channels {
  /** In the order of the enumeration. */
  datatype ChannelState =
    | CS_NEW | CS_INIT | CS_ROUTING | CS_SOFT_EXECUTE | CS_EXECUTE | CS_EXCHANGE_MEDIA
    | CS_PARK | CS_CONSUME_MEDIA | CS_HIBERNATE | CS_RESET
    | CS_HANGUP | CS_REPORTING | CS_DESTROY

  function Rank(st: ChannelState): nat {
    match st
    case CS_NEW => 0 case CS_INIT => 1 case CS_ROUTING => 2 case CS_SOFT_EXECUTE => 3
    case CS_EXECUTE => 4 case CS_EXCHANGE_MEDIA => 5 case CS_PARK => 6 case CS_CONSUME_MEDIA => 7
    case CS_HIBERNATE => 8 case CS_RESET => 9 case CS_HANGUP => 10 case CS_REPORTING => 11 case CS_DESTROY => 12
  }

  predicate Ended(st: ChannelState) {
    Rank(st) >= Rank(CS_HANGUP)
  }

  const CAUSE_NONE := 0
  const NORMAL_CLEARING := 16
  const INCOMPATIBLE_DESTINATION := 88

  /** The moves between the working states of a call. */
  const WORKING := {CS_ROUTING, CS_SOFT_EXECUTE, CS_EXECUTE, CS_EXCHANGE_MEDIA, CS_PARK, CS_CONSUME_MEDIA, CS_HIBERNATE, CS_RESET}

  /** The table of allowed moves. A new or reset channel may go anywhere; a working
      one to any other working state, and from hibernation also back to the start;
      the end is passed in order. */
  predicate Allowed(from: ChannelState, next: ChannelState) {
    match from
    case CS_NEW => true
    case CS_RESET => true
    case CS_HANGUP => next == CS_REPORTING || next == CS_DESTROY
    case CS_REPORTING => next == CS_DESTROY
    case CS_DESTROY => false
    case CS_HIBERNATE => next != from && (next in WORKING || next == CS_INIT)
    case _ => next != from && next in WORKING
  }

  datatype Status = Success | Failed

  /** `events` counts the hangup events fired. */
  datatype Channel = Channel(
    state: ChannelState, cause: int, hangupFlag: bool, answered: bool, holding: bool, hangupHeld: bool,
    blockState: bool, outbound: bool, events: nat)

  /** A fresh channel. */
  ghost predicate Fresh(c: Channel) {
    c.state == CS_NEW && c.cause == CAUSE_NONE && !c.hangupFlag && !c.answered && c.events == 0
  }

  /** The program stops on a forbidden move of a channel that has not ended. */
  predicate Aborts(c: Channel, next: ChannelState) {
    next != c.state && !Ended(c.state) && !Allowed(c.state, next)
  }

  function SetState(c: Channel, next: ChannelState): Channel {
    if next == c.state || (Ended(c.state) && Rank(next) < Rank(c.state)) || !Allowed(c.state, next) then c
    else c.(state := next, cause := if next == CS_HANGUP && c.cause == CAUSE_NONE then NORMAL_CLEARING else c.cause)
  }

  function Hangup(c: Channel, cause: int): Channel {
    var held := if c.holding then c.(holding := false, hangupHeld := true) else c;
    if c.hangupFlag then held
    else
      var first := held.(hangupFlag := true, blockState := false);
      if Ended(c.state) then first else first.(state := CS_HANGUP, cause := cause, events := c.events + 1)
  }

  predicate Over(c: Channel) {
    c.cause != CAUSE_NONE || Ended(c.state)
  }

  function MarkAnswered(c: Channel): Channel {
    if Over(c) then c else c.(answered := true)
  }

  /** `delivered` is what the endpoint said to the request to answer. */
  function Answer(c: Channel, delivered: Status): Channel {
    if c.outbound || Over(c) || c.answered then c
    else if delivered == Success then MarkAnswered(c)
    else Hangup(c, INCOMPATIBLE_DESTINATION)
  }

  datatype Call = CallSetState(next: ChannelState) | CallHangup(cause: int) | CallMarkAnswered | CallAnswer(delivered: Status)

  function Next(c: Channel, a: Call): Channel {
    match a
    case CallSetState(next) => SetState(c, next)
    case CallHangup(cause) => Hangup(c, cause)
    case CallMarkAnswered => MarkAnswered(c)
    case CallAnswer(delivered) => Answer(c, delivered)
  }

  /** The hangup event and a cause other than none come only with the end. */
  ghost predicate Inv(c: Channel) {
    && c.events == (if c.events > 0 then 1 else 0)
    && (c.events > 0 ==> c.hangupFlag)
    && (Ended(c.state) || (c.cause == CAUSE_NONE && c.events == 0))
    && (!Ended(c.state) ==> !c.hangupFlag)
  }

  /** What no call undoes once the channel has ended. */
  ghost predicate Settled(c: Channel, c': Channel) {
    Ended(c.state) ==>
      && Rank(c.state) <= Rank(c'.state) && c'.cause == c.cause
      && (c'.answered ==> c.answered)
  }

  lemma StepKeeps(c: Channel, a: Call)
    requires Inv(c)
    ensures Inv(Next(c, a)) && Settled(c, Next(c, a)) && c.events <= Next(c, a).events
  {
    match a {
      case CallSetState(next) => SetStateKeeps(c, next);
      case CallHangup(cause) => HangupKeeps(c, cause);
      case CallMarkAnswered =>
      case CallAnswer(_) => HangupKeeps(c, INCOMPATIBLE_DESTINATION);
    }
  }

  lemma SetStateKeeps(c: Channel, next: ChannelState)
    requires Inv(c)
    ensures var c' := SetState(c, next); Inv(c') && Settled(c, c') && c'.events == c.events
  {
    hide Allowed;
  }

  lemma HangupKeeps(c: Channel, cause: int)
    requires Inv(c)
    ensures var c' := Hangup(c, cause); Inv(c') && Settled(c, c') && c.events <= c'.events
  {
  }

  ghost predicate Run(states: seq<Channel>, calls: seq<Call>) {
    && |states| == |calls| + 1 && Fresh(states[0])
    && forall i :: 0 <= i < |calls| ==> states[i + 1] == Next(states[i], calls[i])
  }

  lemma {:induction false} RunKeeps(states: seq<Channel>, calls: seq<Call>, k: nat)
    requires Run(states, calls) && k < |states|
    ensures Inv(states[k])
  {
    if k > 0 {
      RunKeeps(states, calls, k - 1);
      assert states[k - 1 + 1] == Next(states[k - 1], calls[k - 1]);
      StepKeeps(states[k - 1], calls[k - 1]);
    }
  }

  /** Over every run: from the end on the state only moves up, the cause stays, no
      answer is recorded any more, and the hangup event fires at most once. */
  lemma {:induction false} EndOfLife(states: seq<Channel>, calls: seq<Call>, i: nat, k: nat)
    requires Run(states, calls) && i <= k < |states|
    ensures Settled(states[i], states[k]) && states[i].events <= states[k].events <= 1
    decreases k
  {
    RunKeeps(states, calls, k);
    if i < k {
      EndOfLife(states, calls, i, k - 1);
      RunKeeps(states, calls, k - 1);
      assert states[k - 1 + 1] == Next(states[k - 1], calls[k - 1]);
      StepKeeps(states[k - 1], calls[k - 1]);
      hide Next; hide Inv;
    }
  }

  // ----- the channel itself

  class LiveChannel {
    var state: ChannelState
    var cause: int
    var hangupFlag: bool
    var answered: bool
    var holding: bool
    var hangupHeld: bool
    var blockState: bool
    const outbound: bool
    ghost var events: nat

    ghost function View(): Channel
      reads this
    {
      Channel(state, cause, hangupFlag, answered, holding, hangupHeld, blockState, outbound, events)
    }

    constructor (outbound: bool)
      ensures Fresh(View()) && this.outbound == outbound
    {
      state, cause, hangupFlag, answered, events := CS_NEW, CAUSE_NONE, false, false, 0;
      holding, hangupHeld, blockState := false, false, false;
      this.outbound := outbound;
    }

    /** `alive` is false when the program stops at a forbidden move. */
    method PerformSetState(next: ChannelState) returns (alive: bool, st: ChannelState)
      modifies this
      ensures View() == SetState(old(View()), next) && st == state
      ensures alive <==> !Aborts(old(View()), next)
    {
      hide Allowed;
      var last := state;
      if last == next { return true, state; }
      if Ended(last) && Rank(next) < Rank(last) { return true, state; }
      var ok := InTable(last, next);
      if ok {
        state := next;
        if next == CS_HANGUP && cause == CAUSE_NONE { cause := NORMAL_CLEARING; }
        return true, state;
      }
      return Ended(state), state;
    }

    method PerformHangup(given: int) returns (st: ChannelState)
      modifies this
      ensures View() == Hangup(old(View()), given) && st == state
    {
      var ok := false;
      if !hangupFlag { hangupFlag, ok := true, true; }
      if holding { holding, hangupHeld := false, true; }
      if !ok { return state; }
      blockState := false;
      if !Ended(state) {
        state := CS_HANGUP;
        cause := given;
        events := events + 1;
      }
      return state;
    }

    method PerformMarkAnswered() returns (status: Status)
      modifies this
      ensures View() == MarkAnswered(old(View()))
      ensures status == Success <==> answered && !Over(View())
    {
      if cause != CAUSE_NONE || Ended(state) { return Failed; }
      if answered { return Success; }
      answered := true;
      return Success;
    }

    method PerformAnswer(delivered: Status) returns (status: Status)
      modifies this
      ensures View() == Answer(old(View()), delivered)
      ensures status == if old(outbound || (!Over(View()) && answered)) then Success
                        else if old(Over(View())) then Failed else delivered
    {
      if outbound { return Success; }
      if cause != CAUSE_NONE || Ended(state) { return Failed; }
      if answered { return Success; }
      if delivered == Success {
        var marked := PerformMarkAnswered();
      } else {
        var st := PerformHangup(INCOMPATIBLE_DESTINATION);
      }
      return delivered;
    }
  }

  /** The table as it is written down, state by state. */
  method InTable(last: ChannelState, next: ChannelState) returns (ok: bool)
    requires last != next
    ensures ok <==> Allowed(last, next)
  {
    match last {
      case CS_NEW => ok := true;
      case CS_RESET => ok := true;
      case CS_INIT =>
        ok := next in {CS_EXCHANGE_MEDIA, CS_SOFT_EXECUTE, CS_ROUTING, CS_EXECUTE, CS_PARK, CS_CONSUME_MEDIA, CS_HIBERNATE, CS_RESET};
      case CS_EXCHANGE_MEDIA =>
        ok := next in {CS_SOFT_EXECUTE, CS_ROUTING, CS_EXECUTE, CS_PARK, CS_CONSUME_MEDIA, CS_HIBERNATE, CS_RESET};
      case CS_SOFT_EXECUTE =>
        ok := next in {CS_EXCHANGE_MEDIA, CS_ROUTING, CS_EXECUTE, CS_PARK, CS_CONSUME_MEDIA, CS_HIBERNATE, CS_RESET};
      case CS_PARK =>
        ok := next in {CS_EXCHANGE_MEDIA, CS_ROUTING, CS_EXECUTE, CS_SOFT_EXECUTE, CS_HIBERNATE, CS_RESET, CS_CONSUME_MEDIA};
      case CS_CONSUME_MEDIA =>
        ok := next in {CS_EXCHANGE_MEDIA, CS_ROUTING, CS_EXECUTE, CS_SOFT_EXECUTE, CS_HIBERNATE, CS_RESET, CS_PARK};
      case CS_HIBERNATE =>
        ok := next in {CS_EXCHANGE_MEDIA, CS_INIT, CS_ROUTING, CS_EXECUTE, CS_SOFT_EXECUTE, CS_PARK, CS_CONSUME_MEDIA, CS_RESET};
      case CS_ROUTING =>
        ok := next in {CS_EXCHANGE_MEDIA, CS_EXECUTE, CS_SOFT_EXECUTE, CS_PARK, CS_CONSUME_MEDIA, CS_HIBERNATE, CS_RESET};
      case CS_EXECUTE =>
        ok := next in {CS_EXCHANGE_MEDIA, CS_SOFT_EXECUTE, CS_ROUTING, CS_PARK, CS_CONSUME_MEDIA, CS_HIBERNATE, CS_RESET};
      case CS_HANGUP => ok := next in {CS_REPORTING, CS_DESTROY};
      case CS_REPORTING => ok := next == CS_DESTROY;
      case CS_DESTROY => ok := false;
    }
  }
}
