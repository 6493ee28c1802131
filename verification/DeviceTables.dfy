/** The table of device records, shared by all channels: a channel joins a record
    when it is given a device id and leaves it when its leg hangs up. */
module DeviceTables {
  import opened Devices

  datatype Record = Record(deviceId: string, legs: seq<Leg>, refs: int)

  /** A channel's place in a record. */
  datatype Node = Node(rec: nat, leg: nat)

  /** All records ever made, those that can be found by device id, and the node
      each channel holds. */
  datatype State = State(records: seq<Record>, hash: map<string, nat>, nodes: map<ChannelId, Node>)

  ghost predicate HashOk(s: State) {
    forall id :: id in s.hash ==> s.hash[id] < |s.records| && s.records[s.hash[id]].deviceId == id
  }

  ghost predicate NodesOk(s: State) {
    forall ch :: ch in s.nodes ==> NodeOk(s, ch, s.nodes[ch])
  }

  /** A channel holds on to a leg that has hung up only if it was the last one. */
  ghost predicate NodeOk(s: State, ch: ChannelId, n: Node) {
    && n.rec < |s.records| && n.leg < |s.records[n.rec].legs|
    && var leg := s.records[n.rec].legs[n.leg];
       leg.channel == ch && (leg.hup ==> leg.final)
  }

  /** The channel of every open leg holds it. */
  ghost predicate OpenOk(s: State) {
    forall r, k :: 0 <= r < |s.records| && 0 <= k < |s.records[r].legs| && !s.records[r].legs[k].hup ==>
      var ch := s.records[r].legs[k].channel;
      ch in s.nodes && s.nodes[ch] == Node(r, k)
  }

  predicate InHash(s: State, r: nat)
    requires r < |s.records|
  {
    var id := s.records[r].deviceId;
    id in s.hash && s.hash[id] == r
  }

  /** The reference count is the number of open legs; the record can be found
      exactly while there is one; and one leg is flagged final exactly from then on. */
  ghost predicate RecordOk(rec: Record, inHash: bool) {
    && rec.legs != [] && rec.refs == Count(rec.legs, IsOpen)
    && Count(rec.legs, IsFinal) == Bit(rec.refs == 0)
    && (inHash <==> rec.refs >= 1)
  }

  ghost predicate RecordsOk(s: State) {
    forall r :: 0 <= r < |s.records| ==> RecordOk(s.records[r], InHash(s, r))
  }

  ghost predicate Inv(s: State) {
    HashOk(s) && NodesOk(s) && OpenOk(s) && RecordsOk(s)
  }

  // ----- steps

  function AddLeg(s: State, r: nat, leg: Leg): State
    requires r < |s.records|
  {
    var rec := s.records[r];
    s.(records := s.records[r := rec.(legs := rec.legs + [leg], refs := rec.refs + 1)],
       nodes := s.nodes[leg.channel := Node(r, |rec.legs|)])
  }

  function NewRecord(s: State, id: string): State {
    s.(records := s.records + [Record(id, [], 0)], hash := s.hash[id := |s.records|])
  }

  /** A channel that already has a node is refused. The leg's direction is seen
      from the device, so it is the opposite of the channel's. */
  function SetDeviceId(s: State, ch: ChannelId, id: string, cs: CallState, dir: Direction): State
    requires HashOk(s)
  {
    var leg := Leg(ch, cs, if dir == Inbound then Outbound else Inbound, false, false);
    if ch in s.nodes then s
    else if id in s.hash then AddLeg(s, s.hash[id], leg)
    else AddLeg(NewRecord(s, id), |s.records|, leg)
  }

  function Filed(rec: Record, k: nat): Record
    requires k < |rec.legs|
  {
    var legs := rec.legs[k := rec.legs[k].(hup := true)];
    var final := Count(legs, IsOpen) == 0;
    rec.(legs := legs[k := legs[k].(final := legs[k].final || final)], refs := rec.refs - 1)
  }

  function Hangup(s: State, ch: ChannelId): State
    requires NodesOk(s)
  {
    if ch !in s.nodes then s
    else
      var Node(r, k) := s.nodes[ch];
      assert NodeOk(s, ch, s.nodes[ch]);
      var rec := s.records[r];
      var s1 := s.(records := s.records[r := Filed(rec, k)]);
      if Count(rec.legs[k := rec.legs[k].(hup := true)], IsOpen) == 0
      then s1.(hash := s.hash - {rec.deviceId})
      else s1.(nodes := s.nodes - {ch})
  }

  function SetCallState(s: State, ch: ChannelId, cs: CallState): State
    requires NodesOk(s)
  {
    if ch !in s.nodes then s
    else
      var Node(r, k) := s.nodes[ch];
      assert NodeOk(s, ch, s.nodes[ch]);
      var rec := s.records[r];
      if rec.legs[k].callState == cs || rec.legs[k].callState == CCS_HANGUP then s
      else s.(records := s.records[r := rec.(legs := rec.legs[k := rec.legs[k].(callState := cs)])])
  }

  datatype Action =
    | Join(ch: ChannelId, id: string, cs: CallState, dir: Direction)
    | Leave(ch: ChannelId)
    | Change(ch: ChannelId, cs: CallState)

  /** Each leg hangs up once. */
  ghost predicate Enabled(s: State, a: Action) {
    a.Leave? && a.ch in s.nodes && NodeOk(s, a.ch, s.nodes[a.ch]) ==>
      var n := s.nodes[a.ch]; !s.records[n.rec].legs[n.leg].hup
  }

  function Next(s: State, a: Action): State
    requires HashOk(s) && NodesOk(s)
  {
    match a
    case Join(ch, id, cs, dir) => SetDeviceId(s, ch, id, cs, dir)
    case Leave(ch) => Hangup(s, ch)
    case Change(ch, cs) => SetCallState(s, ch, cs)
  }

  // ----- joining

  lemma AddKeepsRecord(rec: Record, leg: Leg)
    requires rec.refs == Count(rec.legs, IsOpen) && Count(rec.legs, IsFinal) == 0 && !leg.hup && !leg.final
    ensures RecordOk(rec.(legs := rec.legs + [leg], refs := rec.refs + 1), true)
  {
    CountSnoc(rec.legs, leg, IsOpen);
    CountSnoc(rec.legs, leg, IsFinal);
  }

  lemma AddKeepsNodes(s: State, r: nat, leg: Leg)
    requires NodesOk(s) && r < |s.records| && !leg.hup
    ensures NodesOk(AddLeg(s, r, leg))
  {
  }

  lemma AddKeepsOpen(s: State, r: nat, leg: Leg)
    requires OpenOk(s) && r < |s.records| && leg.channel !in s.nodes
    ensures OpenOk(AddLeg(s, r, leg))
  {
  }

  ghost predicate OthersOk(s: State, r: nat) {
    forall i :: 0 <= i < |s.records| && i != r ==> RecordOk(s.records[i], InHash(s, i))
  }

  lemma AddKeepsRecords(s: State, r: nat, leg: Leg)
    requires HashOk(s) && r < |s.records| && InHash(s, r) && OthersOk(s, r) && !leg.hup && !leg.final
    requires s.records[r].refs == Count(s.records[r].legs, IsOpen) && Count(s.records[r].legs, IsFinal) == 0
    ensures HashOk(AddLeg(s, r, leg)) && RecordsOk(AddLeg(s, r, leg))
  {
    var s' := AddLeg(s, r, leg);
    AddKeepsRecord(s.records[r], leg);
    hide RecordOk;
    forall i | 0 <= i < |s'.records| ensures RecordOk(s'.records[i], InHash(s', i)) {
      assert InHash(s', i) == InHash(s, i);
    }
  }

  lemma NewKeeps(s: State, id: string)
    requires Inv(s) && id !in s.hash
    ensures var s' := NewRecord(s, id);
      HashOk(s') && NodesOk(s') && OpenOk(s') && OthersOk(s', |s.records|) && InHash(s', |s.records|)
  {
    var s' := NewRecord(s, id);
    hide RecordOk;
    forall i | 0 <= i < |s.records| ensures RecordOk(s'.records[i], InHash(s', i)) {
      assert RecordOk(s.records[i], InHash(s, i));
      assert InHash(s', i) == InHash(s, i);
    }
    forall c | c in s'.nodes ensures NodeOk(s', c, s'.nodes[c]) { assert NodeOk(s, c, s.nodes[c]); }
  }

  lemma JoinKeeps(s: State, ch: ChannelId, id: string, cs: CallState, dir: Direction)
    requires Inv(s)
    ensures Inv(SetDeviceId(s, ch, id, cs, dir))
  {
    var leg := Leg(ch, cs, if dir == Inbound then Outbound else Inbound, false, false);
    if ch in s.nodes {
    } else if id in s.hash {
      var r := s.hash[id];
      assert RecordOk(s.records[r], InHash(s, r));
      hide NodesOk; hide OpenOk; hide AddLeg;
      AddKeepsNodes(s, r, leg);
      AddKeepsOpen(s, r, leg);
      AddKeepsRecords(s, r, leg);
    } else {
      NewKeeps(s, id);
      hide NodesOk; hide OpenOk; hide AddLeg; hide HashOk; hide OthersOk; hide RecordsOk;
      AddKeepsNodes(NewRecord(s, id), |s.records|, leg);
      AddKeepsOpen(NewRecord(s, id), |s.records|, leg);
      AddKeepsRecords(NewRecord(s, id), |s.records|, leg);
    }
  }

  // ----- leaving

  lemma FiledCounts(rec: Record, k: nat)
    requires k < |rec.legs| && !rec.legs[k].hup && !rec.legs[k].final
    requires rec.refs == Count(rec.legs, IsOpen) && Count(rec.legs, IsFinal) == 0
    ensures Count(rec.legs[k := rec.legs[k].(hup := true)], IsOpen) == rec.refs - 1
    ensures RecordOk(Filed(rec, k), rec.refs > 1)
  {
    var leg := rec.legs[k].(hup := true);
    var legs := rec.legs[k := leg];
    CountUpdate(rec.legs, k, leg, IsOpen);
    CountUpdate(rec.legs, k, leg, IsFinal);
    var last := leg.(final := leg.final || Count(legs, IsOpen) == 0);
    CountUpdate(legs, k, last, IsOpen);
    CountUpdate(legs, k, last, IsFinal);
  }

  lemma NoFinalYet(rec: Record, k: nat)
    requires RecordOk(rec, true) && k < |rec.legs|
    ensures !rec.legs[k].final
  {
    if rec.legs[k].final { CountPositive(rec.legs, k, IsFinal); }
  }

  lemma LeaveKeeps(s: State, ch: ChannelId)
    requires Inv(s) && Enabled(s, Leave(ch))
    ensures Inv(Hangup(s, ch))
  {
    if ch in s.nodes {
      var Node(r, k) := s.nodes[ch];
      assert NodeOk(s, ch, s.nodes[ch]);
      var rec := s.records[r];
      CountPositive(rec.legs, k, IsOpen);
      assert RecordOk(rec, InHash(s, r));
      NoFinalYet(rec, k);
      FiledCounts(rec, k);
      LeaveNodes(s, ch);
      LeaveOpen(s, ch);
      LeaveRecords(s, ch);
    }
  }

  lemma LeaveNodes(s: State, ch: ChannelId)
    requires NodesOk(s) && OpenOk(s) && ch in s.nodes
    ensures NodesOk(Hangup(s, ch))
  {
    var s', n := Hangup(s, ch), s.nodes[ch];
    assert NodeOk(s, ch, n);
    forall c | c in s'.nodes ensures NodeOk(s', c, s'.nodes[c]) {
      assert NodeOk(s, c, s.nodes[c]);
    }
  }

  lemma LeaveOpen(s: State, ch: ChannelId)
    requires NodesOk(s) && OpenOk(s) && ch in s.nodes
    ensures OpenOk(Hangup(s, ch))
  {
    var s', n := Hangup(s, ch), s.nodes[ch];
    assert NodeOk(s, ch, n);
    forall r, k | 0 <= r < |s'.records| && 0 <= k < |s'.records[r].legs| && !s'.records[r].legs[k].hup
      ensures var c := s'.records[r].legs[k].channel; c in s'.nodes && s'.nodes[c] == Node(r, k)
    {
      assert Node(r, k) != n;
      assert s.records[r].legs[k] == s'.records[r].legs[k];
    }
  }

  lemma LeaveRecords(s: State, ch: ChannelId)
    requires Inv(s) && ch in s.nodes && NodeOk(s, ch, s.nodes[ch])
    requires var n := s.nodes[ch];
      && !s.records[n.rec].legs[n.leg].hup
      && Count(s.records[n.rec].legs[n.leg := s.records[n.rec].legs[n.leg].(hup := true)], IsOpen) == s.records[n.rec].refs - 1
      && RecordOk(Filed(s.records[n.rec], n.leg), s.records[n.rec].refs > 1)
    ensures HashOk(Hangup(s, ch)) && RecordsOk(Hangup(s, ch))
  {
    var s', n := Hangup(s, ch), s.nodes[ch];
    var rec := s.records[n.rec];
    assert RecordOk(rec, InHash(s, n.rec));
    CountPositive(rec.legs, n.leg, IsOpen);
    assert InHash(s, n.rec);
    hide RecordOk; hide Filed; hide NodesOk; hide OpenOk;
    assert Filed(rec, n.leg).deviceId == rec.deviceId by { FiledId(rec, n.leg); }
    forall i | 0 <= i < |s'.records| ensures RecordOk(s'.records[i], InHash(s', i)) {
      if i != n.rec {
        assert RecordOk(s.records[i], InHash(s, i));
        assert InHash(s', i) == InHash(s, i);
      }
    }
  }

  lemma FiledId(rec: Record, k: nat)
    requires k < |rec.legs|
    ensures Filed(rec, k).deviceId == rec.deviceId
  {
  }

  // ----- changing the call state

  lemma ChangeNodes(s: State, ch: ChannelId, cs: CallState)
    requires NodesOk(s) && OpenOk(s)
    ensures NodesOk(SetCallState(s, ch, cs)) && OpenOk(SetCallState(s, ch, cs))
  {
    var s' := SetCallState(s, ch, cs);
    if ch in s.nodes { assert NodeOk(s, ch, s.nodes[ch]); }
    forall c | c in s'.nodes ensures NodeOk(s', c, s'.nodes[c]) { assert NodeOk(s, c, s.nodes[c]); }
  }

  lemma ChangeRecords(s: State, r: nat, k: nat, leg: Leg)
    requires HashOk(s) && RecordsOk(s) && r < |s.records| && k < |s.records[r].legs|
    requires leg.hup == s.records[r].legs[k].hup && leg.final == s.records[r].legs[k].final
    ensures var s' := s.(records := s.records[r := s.records[r].(legs := s.records[r].legs[k := leg])]);
      HashOk(s') && RecordsOk(s')
  {
    var rec := s.records[r];
    var s' := s.(records := s.records[r := rec.(legs := rec.legs[k := leg])]);
    CountUpdate(rec.legs, k, leg, IsOpen);
    CountUpdate(rec.legs, k, leg, IsFinal);
    assert RecordOk(rec, InHash(s, r));
    assert RecordOk(s'.records[r], InHash(s, r));
    hide RecordOk;
    forall i | 0 <= i < |s'.records| ensures RecordOk(s'.records[i], InHash(s', i)) {
      assert InHash(s', i) == InHash(s, i);
      if i != r { assert RecordOk(s.records[i], InHash(s, i)); }
    }
  }

  lemma ChangeKeeps(s: State, ch: ChannelId, cs: CallState)
    requires Inv(s)
    ensures Inv(SetCallState(s, ch, cs))
  {
    ChangeNodes(s, ch, cs);
    if ch in s.nodes {
      var Node(r, k) := s.nodes[ch];
      assert NodeOk(s, ch, s.nodes[ch]);
      hide RecordsOk; hide OpenOk; hide HashOk;
      ChangeRecords(s, r, k, s.records[r].legs[k].(callState := cs));
    }
  }

  lemma StepKeeps(s: State, a: Action)
    requires Inv(s) && Enabled(s, a)
    ensures Inv(Next(s, a))
  {
    match a {
      case Join(ch, id, cs, dir) => JoinKeeps(s, ch, id, cs, dir);
      case Leave(ch) => LeaveKeeps(s, ch);
      case Change(ch, cs) => ChangeKeeps(s, ch, cs);
    }
  }

  // ----- runs

  /** The states passed on a run from an empty table, oldest first. */
  ghost predicate Run(states: seq<State>, actions: seq<Action>) {
    && |states| == |actions| + 1
    && states[0] == State([], map[], map[])
    && forall i :: 0 <= i < |actions| ==> StepsTo(states[i], actions[i], states[i + 1])
  }

  ghost predicate StepsTo(s: State, a: Action, s': State) {
    Enabled(s, a) && HashOk(s) && NodesOk(s) && s' == Next(s, a)
  }

  lemma {:induction false} RunKeeps(states: seq<State>, actions: seq<Action>, k: nat)
    requires Run(states, actions) && k < |states|
    ensures Inv(states[k])
  {
    if k > 0 {
      RunKeeps(states, actions, k - 1);
      hide Inv;
      assert StepsTo(states[k - 1], actions[k - 1], states[k - 1 + 1]);
      StepKeeps(states[k - 1], actions[k - 1]);
    }
  }

  /** A record that can be found has as many references as legs without a hangup
      profile, and at least one; of the others all legs have hung up and exactly
      one of them was flagged final. */
  lemma DeviceRecords(states: seq<State>, actions: seq<Action>, k: nat, r: nat)
    requires Run(states, actions) && k < |states| && r < |states[k].records|
    ensures var s := states[k]; var rec := s.records[r];
      && rec.refs == Count(rec.legs, IsOpen) == StatsOf(rec.legs).offhook
      && (InHash(s, r) <==> rec.refs >= 1)
      && Count(rec.legs, IsFinal) == Bit(!InHash(s, r))
  {
    RunKeeps(states, actions, k);
    var s := states[k];
    assert RecordOk(s.records[r], InHash(s, r));
    StatsPartition(s.records[r].legs);
  }

  /** A record leaves the table exactly when the last of its open legs hangs up,
      and that leg is the one flagged final. */
  lemma LeavesWithLastLeg(states: seq<State>, actions: seq<Action>, k: nat, r: nat)
    requires Run(states, actions) && k < |actions| && r < |states[k].records|
    ensures r < |states[k + 1].records|
    ensures var s, s', a := states[k], states[k + 1], actions[k];
      InHash(s, r) && !InHash(s', r) <==>
        a.Leave? && a.ch in s.nodes && s.nodes[a.ch].rec == r && Count(s.records[r].legs, IsOpen) == 1
    ensures var s, s', a := states[k], states[k + 1], actions[k];
      InHash(s, r) && !InHash(s', r) ==>
        var n := s.nodes[a.ch]; n.leg < |s'.records[r].legs| && s'.records[r].legs[n.leg].final
  {
    RunKeeps(states, actions, k);
    RunKeeps(states, actions, k + 1);
    var s, s', a := states[k], states[k + 1], actions[k];
    assert StepsTo(s, a, s');
    assert RecordOk(s.records[r], InHash(s, r));
    StepLengths(s, a);
    assert RecordOk(s'.records[r], InHash(s', r));
    OpenStep(s, a, r);
    if InHash(s, r) && !InHash(s', r) { LastLegIsFinal(s, a.ch); }
  }

  lemma LastLegIsFinal(s: State, ch: ChannelId)
    requires Inv(s) && Enabled(s, Leave(ch)) && ch in s.nodes
    requires s.nodes[ch].rec < |s.records| && Count(s.records[s.nodes[ch].rec].legs, IsOpen) == 1
    ensures var s', n := Hangup(s, ch), s.nodes[ch]; n.leg < |s'.records[n.rec].legs| && s'.records[n.rec].legs[n.leg].final
  {
    var n := s.nodes[ch];
    assert NodeOk(s, ch, n);
    var legs := s.records[n.rec].legs;
    CountUpdate(legs, n.leg, legs[n.leg].(hup := true), IsOpen);
  }

  /** Hanging up keeps the table in order exactly when the leg has not hung up
      before: a second time the record loses a reference it does not have. */
  lemma HangupOnce(s: State, ch: ChannelId)
    requires Inv(s)
    ensures Inv(Hangup(s, ch)) <==> Enabled(s, Leave(ch))
  {
    if Enabled(s, Leave(ch)) {
      LeaveKeeps(s, ch);
    } else {
      var n := s.nodes[ch];
      assert NodeOk(s, ch, n);
      var rec, s' := s.records[n.rec], Hangup(s, ch);
      assert RecordOk(rec, InHash(s, n.rec));
      CountPositive(rec.legs, n.leg, IsFinal);
      assert s'.records[n.rec].refs == -1;
      assert !RecordOk(s'.records[n.rec], InHash(s', n.rec));
    }
  }

  /** And it takes a record out of the table exactly when a later call has made one
      for the same device. */
  lemma SecondHangupHides(s: State, ch: ChannelId, r: nat)
    requires Inv(s) && !Enabled(s, Leave(ch)) && r < |s.records| && InHash(s, r)
    ensures s.nodes[ch].rec < |s.records| == |Hangup(s, ch).records|
    ensures !InHash(Hangup(s, ch), r) <==> s.records[r].deviceId == s.records[s.nodes[ch].rec].deviceId
  {
    var n := s.nodes[ch];
    assert NodeOk(s, ch, n);
    var rec := s.records[n.rec];
    assert RecordOk(rec, InHash(s, n.rec));
    CountPositive(rec.legs, n.leg, IsFinal);
    assert rec.legs[n.leg := rec.legs[n.leg].(hup := true)] == rec.legs;
  }

  /** A run on which it happens: one call comes and goes, another comes, and the first
      hangs up again. */
  lemma SecondHangupHidesRecord(id: string) returns (states: seq<State>, actions: seq<Action>)
    ensures Run(states, actions) && actions == [Join(0, id, CCS_ACTIVE, Inbound), Leave(0), Join(1, id, CCS_ACTIVE, Inbound)]
    ensures Inv(states[3]) && |states[3].records| == 2 && InHash(states[3], 1)
    ensures |Hangup(states[3], 0).records| == 2 && !InHash(Hangup(states[3], 0), 1)
  {
    hide Inv; hide StepsTo; hide Hangup; hide InHash; hide NodeOk;
    var none := State([], map[], map[]);
    var first, over, second := Leg(0, CCS_ACTIVE, Outbound, false, false), Leg(0, CCS_ACTIVE, Outbound, true, true),
                               Leg(1, CCS_ACTIVE, Outbound, false, false);
    var s1 := State([Record(id, [first], 1)], map[id := 0], map[0 := Node(0, 0)]);
    var s2 := State([Record(id, [over], 0)], map[], map[0 := Node(0, 0)]);
    var s3 := State([Record(id, [over], 0), Record(id, [second], 1)], map[id := 1], map[0 := Node(0, 0), 1 := Node(1, 0)]);
    actions := [Join(0, id, CCS_ACTIVE, Inbound), Leave(0), Join(1, id, CCS_ACTIVE, Inbound)];
    states := [none, s1, s2, s3];
    FirstCall(id, none, s1);
    CallOver(id, s1, s2);
    SecondCall(id, s2, s3);
    HiddenThen(s3);
  }

  lemma HiddenThen(s: State)
    requires Inv(s) && |s.records| == 2 && 0 in s.nodes && s.nodes[0] == Node(0, 0)
    requires s.records[0].legs != [] && s.records[0].legs[0].hup && s.records[0].deviceId == s.records[1].deviceId
    requires s.hash == map[s.records[1].deviceId := 1]
    ensures InHash(s, 1) && |Hangup(s, 0).records| == 2 && !InHash(Hangup(s, 0), 1)
  {
    hide Hangup; hide RecordsOk; hide OpenOk;
    assert NodeOk(s, 0, Node(0, 0));
    SecondHangupHides(s, 0, 1);
  }

  lemma FirstCall(id: string, s: State, s': State)
    requires s == State([], map[], map[])
    requires s' == State([Record(id, [Leg(0, CCS_ACTIVE, Outbound, false, false)], 1)], map[id := 0], map[0 := Node(0, 0)])
    ensures StepsTo(s, Join(0, id, CCS_ACTIVE, Inbound), s') && Inv(s')
  {
    JoinKeeps(s, 0, id, CCS_ACTIVE, Inbound);
    var leg := Leg(0, CCS_ACTIVE, Outbound, false, false);
    assert [] + [leg] == [leg];
    assert ([] + [Record(id, [], 0)])[0 := Record(id, [leg], 1)] == [Record(id, [leg], 1)];
  }

  lemma CallOver(id: string, s: State, s': State)
    requires s == State([Record(id, [Leg(0, CCS_ACTIVE, Outbound, false, false)], 1)], map[id := 0], map[0 := Node(0, 0)])
    requires s' == State([Record(id, [Leg(0, CCS_ACTIVE, Outbound, true, true)], 0)], map[], map[0 := Node(0, 0)])
    requires Inv(s)
    ensures StepsTo(s, Leave(0), s') && Inv(s')
  {
    hide OpenOk; hide RecordsOk; hide HashOk; hide Count;
    LeaveKeeps(s, 0);
    var leg := s.records[0].legs[0].(hup := true);
    assert NodeOk(s, 0, Node(0, 0));
    OneLeg(leg);
    assert s.records[0].legs[0 := leg] == [leg];
    assert [leg][0 := leg.(final := true)] == [leg.(final := true)];
    assert map[id := 0 as nat] - {id} == map[];
    assert s.records[0 := s'.records[0]] == s'.records;
    HangupShape(s, 0);
  }

  lemma SecondCall(id: string, s: State, s': State)
    requires s == State([Record(id, [Leg(0, CCS_ACTIVE, Outbound, true, true)], 0)], map[], map[0 := Node(0, 0)])
    requires s' == State([Record(id, [Leg(0, CCS_ACTIVE, Outbound, true, true)], 0),
                          Record(id, [Leg(1, CCS_ACTIVE, Outbound, false, false)], 1)],
                         map[id := 1], map[0 := Node(0, 0), 1 := Node(1, 0)])
    requires Inv(s)
    ensures StepsTo(s, Join(1, id, CCS_ACTIVE, Inbound), s') && Inv(s')
  {
    hide HashOk; hide NodesOk; hide OpenOk; hide RecordsOk;
    JoinKeeps(s, 1, id, CCS_ACTIVE, Inbound);
    var leg := Leg(1, CCS_ACTIVE, Outbound, false, false);
    assert [] + [leg] == [leg];
    assert (s.records + [Record(id, [], 0)])[1 := Record(id, [leg], 1)] == s'.records;
  }

  lemma OneLeg(leg: Leg)
    ensures Count([leg], IsOpen) == Bit(!leg.hup) && Count([leg], IsFinal) == Bit(leg.final)
  {
    assert [leg][..0] == [];
  }

  /** What hanging up comes to, leg by leg. */
  lemma HangupShape(s: State, ch: ChannelId)
    requires NodesOk(s) && ch in s.nodes && NodeOk(s, ch, s.nodes[ch])
    ensures var n := s.nodes[ch]; var rec := s.records[n.rec];
      var filed := rec.(legs := rec.legs[n.leg := rec.legs[n.leg].(hup := true)], refs := rec.refs - 1);
      Hangup(s, ch) ==
        if Count(filed.legs, IsOpen) == 0
        then s.(records := s.records[n.rec := filed.(legs := filed.legs[n.leg := filed.legs[n.leg].(final := true)])],
                hash := s.hash - {rec.deviceId})
        else s.(records := s.records[n.rec := filed], nodes := s.nodes - {ch})
  {
    var n := s.nodes[ch];
    var rec := s.records[n.rec];
    var legs := rec.legs[n.leg := rec.legs[n.leg].(hup := true)];
    hide NodesOk; hide Count;
    assert legs[n.leg := legs[n.leg]] == legs;
    assert legs[n.leg].(final := legs[n.leg].final || false) == legs[n.leg];
  }

  lemma StepLengths(s: State, a: Action)
    requires HashOk(s) && NodesOk(s)
    ensures |Next(s, a).records| >= |s.records|
  {
    if a.Leave? && a.ch in s.nodes { assert NodeOk(s, a.ch, s.nodes[a.ch]); }
    if a.Change? && a.ch in s.nodes { assert NodeOk(s, a.ch, s.nodes[a.ch]); }
  }

  /** How a step changes the reference count of a record. */
  lemma OpenStep(s: State, a: Action, r: nat)
    requires Inv(s) && Enabled(s, a) && r < |s.records| && |Next(s, a).records| >= |s.records|
    ensures var leaves := a.Leave? && a.ch in s.nodes && s.nodes[a.ch].rec == r;
      if leaves then Next(s, a).records[r].refs == s.records[r].refs - 1
      else Next(s, a).records[r].refs >= s.records[r].refs
  {
    if a.Leave? && a.ch in s.nodes { assert NodeOk(s, a.ch, s.nodes[a.ch]); }
    if a.Change? && a.ch in s.nodes { assert NodeOk(s, a.ch, s.nodes[a.ch]); }
  }

  // ----- the story of a leg

  function Opposite(dir: Direction): Direction {
    if dir == Inbound then Outbound else Inbound
  }

  /** The call state of a channel after some actions: the last one it was given, except
      that nothing follows a hangup. */
  function Following(cs: CallState, actions: seq<Action>, ch: ChannelId): CallState {
    if actions == [] then cs
    else
      var before, a := Following(cs, actions[..|actions| - 1], ch), actions[|actions| - 1];
      if a.Change? && a.ch == ch && before != CCS_HANGUP then a.cs else before
  }

  /** The leg was made when the channel joined at `i`, and has followed it since. */
  ghost predicate LegSince(s: State, actions: seq<Action>, ch: ChannelId, i: nat) {
    && ch in s.nodes && NodeOk(s, ch, s.nodes[ch]) && i < |actions| && actions[i].Join? && actions[i].ch == ch
    && var n, a := s.nodes[ch], actions[i];
       var rec := s.records[n.rec];
       && rec.deviceId == a.id && rec.legs[n.leg].direction == Opposite(a.dir)
       && rec.legs[n.leg].callState == Following(a.cs, actions[i + 1..], ch)
  }

  lemma LegChanges(s: State, a: Action, actions: seq<Action>, ch: ChannelId, i: nat)
    requires Inv(s) && Enabled(s, a) && LegSince(s, actions, ch, i) && !(a.Join? && a.ch == ch && ch !in s.nodes)
    requires ch in Next(s, a).nodes && NodeOk(Next(s, a), ch, Next(s, a).nodes[ch])
    ensures LegSince(Next(s, a), actions + [a], ch, i)
  {
    var all := actions + [a];
    assert all[i] == actions[i];
    var later := actions[i + 1..];
    assert all[i + 1..] == later + [a];
    assert (later + [a])[..|later|] == later;
    hide RecordsOk; hide OpenOk; hide Count;
    if a.Leave? && a.ch in s.nodes { assert NodeOk(s, a.ch, s.nodes[a.ch]); }
    if a.Change? && a.ch in s.nodes { assert NodeOk(s, a.ch, s.nodes[a.ch]); }
    SameLeg(s, a, ch);
  }

  /** What a step does to the leg of a channel that keeps its node. */
  lemma SameLeg(s: State, a: Action, ch: ChannelId)
    requires HashOk(s) && NodesOk(s) && ch in s.nodes && NodeOk(s, ch, s.nodes[ch]) && ch in Next(s, a).nodes
    ensures var s', n := Next(s, a), s.nodes[ch];
      && s'.nodes[ch] == n && n.rec < |s'.records| && n.leg < |s'.records[n.rec].legs|
      && s'.records[n.rec].deviceId == s.records[n.rec].deviceId
      && var leg, leg' := s.records[n.rec].legs[n.leg], s'.records[n.rec].legs[n.leg];
         && leg'.direction == leg.direction
         && leg'.callState == if a.Change? && a.ch == ch && leg.callState != CCS_HANGUP then a.cs else leg.callState
  {
    hide Count;
    var n := s.nodes[ch];
    match a {
      case Join(c, id, cs, dir) =>
      case Leave(c) =>
        if c in s.nodes { assert NodeOk(s, c, s.nodes[c]); FiledLeg(s.records[s.nodes[c].rec], s.nodes[c].leg, n.leg); }
      case Change(c, cs) =>
        if c in s.nodes { assert NodeOk(s, c, s.nodes[c]); }
    }
  }

  lemma FiledLeg(rec: Record, k: nat, j: nat)
    requires k < |rec.legs|
    ensures Filed(rec, k).deviceId == rec.deviceId && |Filed(rec, k).legs| == |rec.legs|
    ensures j < |rec.legs| ==>
      Filed(rec, k).legs[j].direction == rec.legs[j].direction && Filed(rec, k).legs[j].callState == rec.legs[j].callState
  {
    hide Count;
  }

  /** Over every run: a channel with a node joined its device once, its leg has the opposite
      direction, and the call state the channel was last given. */
  lemma {:induction false} LegStory(states: seq<State>, actions: seq<Action>, k: nat, ch: ChannelId) returns (i: nat)
    requires Run(states, actions) && k < |states| && ch in states[k].nodes
    ensures i < k && LegSince(states[k], actions[..k], ch, i)
  {
    hide Inv; hide Next; hide Enabled; hide LegSince; hide StepsTo;
    RunKeeps(states, actions, k);
    var s, a := states[k - 1], actions[k - 1];
    RunKeeps(states, actions, k - 1);
    assert StepsTo(s, a, states[k - 1 + 1]);
    StepFacts(s, a, states[k], ch);
    assert actions[..k] == actions[..k - 1] + [a];
    if ch in s.nodes {
      i := LegStory(states, actions, k - 1, ch);
      LegChanges(s, a, actions[..k - 1], ch, i);
    } else {
      i := k - 1;
      Joined(s, a, actions[..k - 1], ch);
    }
  }

  lemma StepFacts(s: State, a: Action, s': State, ch: ChannelId)
    requires StepsTo(s, a, s') && Inv(s) && Inv(s') && ch in s'.nodes
    ensures Enabled(s, a) && HashOk(s) && NodesOk(s) && s' == Next(s, a) && NodeOk(s', ch, s'.nodes[ch])
    ensures ch !in s.nodes ==> a.Join? && a.ch == ch
  {
    hide RecordsOk; hide OpenOk; hide Count;
    if a.Leave? && a.ch in s.nodes { assert NodeOk(s, a.ch, s.nodes[a.ch]); }
    if a.Change? && a.ch in s.nodes { assert NodeOk(s, a.ch, s.nodes[a.ch]); }
  }

  lemma Joined(s: State, a: Action, actions: seq<Action>, ch: ChannelId)
    requires HashOk(s) && NodesOk(s) && ch !in s.nodes && a.Join? && a.ch == ch
    requires ch in Next(s, a).nodes && NodeOk(Next(s, a), ch, Next(s, a).nodes[ch])
    ensures LegSince(Next(s, a), actions + [a], ch, |actions|)
  {
    var all := actions + [a];
    assert all[|actions|] == a && all[|actions| + 1..] == [];
  }

  // ----- the table itself

  method Offhook(legs: seq<Leg>) returns (n: int)
    ensures n == Count(legs, IsOpen)
  {
    var stats := FetchStats(legs);
    StatsPartition(legs);
    return stats.offhook;
  }

  class Table {
    var records: seq<Record>
    var hash: map<string, nat>
    var nodes: map<ChannelId, Node>

    ghost function AsState(): State
      reads this
    {
      State(records, hash, nodes)
    }

    constructor ()
      ensures AsState() == State([], map[], map[])
    {
      records, hash, nodes := [], map[], map[];
    }

    method AddUuid(r: nat, leg: Leg)
      requires r < |records|
      modifies this
      ensures AsState() == AddLeg(old(AsState()), r, leg)
    {
      var rec := records[r];
      nodes := nodes[leg.channel := Node(r, |rec.legs|)];
      rec := rec.(legs := rec.legs + [leg]);
      rec := rec.(refs := rec.refs + 1);
      records := records[r := rec];
    }

    method AssignDevice(ch: ChannelId, id: string, cs: CallState, dir: Direction) returns (ok: bool)
      requires Inv(AsState())
      modifies this
      ensures Inv(AsState()) && AsState() == SetDeviceId(old(AsState()), ch, id, cs, dir)
      ensures ok <==> ch !in old(nodes)
    {
      JoinKeeps(AsState(), ch, id, cs, dir);
      assert id in hash ==> hash[id] < |records|;
      hide Inv;
      if ch in nodes { return false; }
      var leg := Leg(ch, cs, if dir == Inbound then Outbound else Inbound, false, false);
      if id !in hash {
        hash := hash[id := |records|];
        records := records + [Record(id, [], 0)];
      }
      AddUuid(hash[id], leg);
      return true;
    }

    /** Stores the hangup profile, counts the legs still open, and takes the record
        out of the table when there are none. */
    method ProcessHangup(ch: ChannelId) returns (last: bool)
      requires Inv(AsState())
      modifies this
      ensures AsState() == Hangup(old(AsState()), ch)
      ensures Inv(AsState()) <==> old(Enabled(AsState(), Leave(ch)))
      ensures !last && ch in old(nodes) ==> ch !in nodes
    {
      HangupOnce(AsState(), ch);
      if ch !in nodes { return false; }
      var node := nodes[ch];
      assert NodeOk(AsState(), ch, node);
      last := FileHangup(ch, node);
    }

    method FileHangup(ch: ChannelId, node: Node) returns (last: bool)
      requires NodesOk(AsState()) && ch in nodes && nodes[ch] == node && NodeOk(AsState(), ch, node)
      modifies this
      ensures AsState() == Hangup(old(AsState()), ch)
      ensures !last ==> ch !in nodes
    {
      HangupShape(AsState(), ch);
      hide NodesOk; hide Hangup; hide Count;
      var rec := records[node.rec];
      rec := rec.(legs := rec.legs[node.leg := rec.legs[node.leg].(hup := true)]);
      var offhook := Offhook(rec.legs);
      last := offhook == 0;
      if last {
        hash := hash - {rec.deviceId};
        rec := rec.(legs := rec.legs[node.leg := rec.legs[node.leg].(final := true)]);
      } else {
        nodes := nodes - {ch};
      }
      records := records[node.rec := rec.(refs := rec.refs - 1)];
    }

    method ChangeCallState(ch: ChannelId, cs: CallState)
      requires Inv(AsState())
      modifies this
      ensures Inv(AsState()) && AsState() == SetCallState(old(AsState()), ch, cs)
    {
      ChangeKeeps(AsState(), ch, cs);
      if ch in nodes {
        var node := nodes[ch];
        assert NodeOk(AsState(), ch, node);
        var rec := records[node.rec];
        var leg := rec.legs[node.leg];
        if leg.callState != cs && leg.callState != CCS_HANGUP {
          records := records[node.rec := rec.(legs := rec.legs[node.leg := leg.(callState := cs)])];
        }
      }
    }
  }
}
