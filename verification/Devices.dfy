/** Device records: the legs of all calls a device takes part in. */
module Devices {
  type ChannelId = nat

  datatype Direction = Inbound | Outbound

  datatype CallState =
    | CCS_DOWN | CCS_DIALING | CCS_RINGING | CCS_EARLY | CCS_ACTIVE
    | CCS_HELD | CCS_RING_WAIT | CCS_HANGUP | CCS_UNHELD

  /** One call of the device. `hup` says that a hangup profile was stored,
      `final` that the leg's channel was flagged as the device's last. */
  datatype Leg = Leg(channel: ChannelId, callState: CallState, direction: Direction, hup: bool, final: bool)

  // ----- statistics

  datatype Stats = Stats(
    total: int, totalIn: int, totalOut: int,
    offhook: int, offhookIn: int, offhookOut: int,
    active: int, activeIn: int, activeOut: int,
    held: int, heldIn: int, heldOut: int,
    unheld: int, unheldIn: int, unheldOut: int,
    hup: int, hupIn: int, hupOut: int,
    ringing: int, ringingIn: int, ringingOut: int,
    early: int, earlyIn: int, earlyOut: int,
    ringWait: int) {
    function Plus(o: Stats): Stats {
      Stats(total + o.total, totalIn + o.totalIn, totalOut + o.totalOut,
            offhook + o.offhook, offhookIn + o.offhookIn, offhookOut + o.offhookOut,
            active + o.active, activeIn + o.activeIn, activeOut + o.activeOut,
            held + o.held, heldIn + o.heldIn, heldOut + o.heldOut,
            unheld + o.unheld, unheldIn + o.unheldIn, unheldOut + o.unheldOut,
            hup + o.hup, hupIn + o.hupIn, hupOut + o.hupOut,
            ringing + o.ringing, ringingIn + o.ringingIn, ringingOut + o.ringingOut,
            early + o.early, earlyIn + o.earlyIn, earlyOut + o.earlyOut,
            ringWait + o.ringWait)
    }
  }

  const ZERO := Stats(0, 0, 0, 0, 0, 0, 0, 0, 0, 0, 0, 0, 0, 0, 0, 0, 0, 0, 0, 0, 0, 0, 0, 0, 0)

  function Bit(b: bool): nat { if b then 1 else 0 }

  /** What one leg counts for, category by category. */
  function One(leg: Leg): Stats {
    var here, there, open, cs := leg.direction == Inbound, leg.direction == Outbound, !leg.hup, leg.callState;
    var talking := open && (cs == CCS_ACTIVE || cs == CCS_DIALING);
    var over := leg.hup || cs == CCS_HANGUP;
    Stats(1, Bit(here), Bit(there),
          Bit(open), Bit(open && here), Bit(open && there),
          Bit(talking), Bit(talking && here), Bit(talking && there),
          Bit(open && cs == CCS_HELD), Bit(open && cs == CCS_HELD && here), Bit(open && cs == CCS_HELD && there),
          Bit(open && cs == CCS_UNHELD), Bit(open && cs == CCS_UNHELD && here), Bit(open && cs == CCS_UNHELD && there),
          Bit(over), Bit(over && here), Bit(over && there),
          Bit(open && cs == CCS_RINGING), Bit(open && cs == CCS_RINGING && here), Bit(open && cs == CCS_RINGING && there),
          Bit(open && cs == CCS_EARLY), Bit(open && cs == CCS_EARLY && here), Bit(open && cs == CCS_EARLY && there),
          Bit(open && cs == CCS_RING_WAIT))
  }

  function StatsOf(legs: seq<Leg>): Stats {
    if legs == [] then ZERO else StatsOf(legs[..|legs| - 1]).Plus(One(legs[|legs| - 1]))
  }

  /** Goes over the legs and counts each where it belongs. */
  method FetchStats(legs: seq<Leg>) returns (st: Stats)
    ensures st == StatsOf(legs)
  {
    hide StatsOf; hide One; hide Stats.Plus;
    st := ZERO;
    assert legs[..0] == [];
    StatsNone();
    var i := 0;
    while i < |legs|
      invariant 0 <= i <= |legs|
      invariant st == StatsOf(legs[..i])
    {
      StatsSnoc(legs, i);
      st := CountLeg(st, legs[i]);
      i := i + 1;
    }
    assert legs[..i] == legs;
  }

  lemma StatsNone()
    ensures StatsOf([]) == ZERO
  {
  }

  lemma StatsSnoc(legs: seq<Leg>, i: nat)
    requires i < |legs|
    ensures StatsOf(legs[..i + 1]) == StatsOf(legs[..i]).Plus(One(legs[i]))
  {
    hide Stats.Plus; hide One;
    assert legs[..i + 1][..i] == legs[..i];
  }

  method CountLeg(st: Stats, leg: Leg) returns (st': Stats)
    ensures st' == st.Plus(One(leg))
  {
    var isIn := leg.direction == Inbound;
    st' := st.(total := st.total + 1);
    if isIn { st' := st'.(totalIn := st.totalIn + 1); } else { st' := st'.(totalOut := st.totalOut + 1); }
    if !leg.hup {
      st' := st'.(offhook := st.offhook + 1);
      if isIn { st' := st'.(offhookIn := st.offhookIn + 1); } else { st' := st'.(offhookOut := st.offhookOut + 1); }
      if leg.callState == CCS_HELD {
        st' := st'.(held := st.held + 1);
        if isIn { st' := st'.(heldIn := st.heldIn + 1); } else { st' := st'.(heldOut := st.heldOut + 1); }
      } else if leg.callState == CCS_UNHELD {
        st' := st'.(unheld := st.unheld + 1);
        if isIn { st' := st'.(unheldIn := st.unheldIn + 1); } else { st' := st'.(unheldOut := st.unheldOut + 1); }
      } else if leg.callState == CCS_EARLY {
        st' := st'.(early := st.early + 1);
        if isIn { st' := st'.(earlyIn := st.earlyIn + 1); } else { st' := st'.(earlyOut := st.earlyOut + 1); }
      } else if leg.callState == CCS_RINGING {
        st' := st'.(ringing := st.ringing + 1);
        if isIn { st' := st'.(ringingIn := st.ringingIn + 1); } else { st' := st'.(ringingOut := st.ringingOut + 1); }
      } else if leg.callState == CCS_RING_WAIT {
        st' := st'.(ringWait := st.ringWait + 1);
      } else if leg.callState == CCS_HANGUP {
        st' := st'.(hup := st.hup + 1);
        if isIn { st' := st'.(hupIn := st.hupIn + 1); } else { st' := st'.(hupOut := st.hupOut + 1); }
      } else if leg.callState != CCS_DOWN {
        st' := st'.(active := st.active + 1);
        if isIn { st' := st'.(activeIn := st.activeIn + 1); } else { st' := st'.(activeOut := st.activeOut + 1); }
      }
    } else {
      st' := st'.(hup := st.hup + 1);
      if isIn { st' := st'.(hupIn := st.hupIn + 1); } else { st' := st'.(hupOut := st.hupOut + 1); }
    }
  }

  // ----- counting legs

  function Count(legs: seq<Leg>, p: Leg -> bool): nat {
    if legs == [] then 0 else Count(legs[..|legs| - 1], p) + Bit(p(legs[|legs| - 1]))
  }

  predicate IsOpen(leg: Leg) { !leg.hup }
  predicate IsFinal(leg: Leg) { leg.final }
  predicate IsDown(leg: Leg) { !leg.hup && leg.callState == CCS_DOWN }
  predicate IsOverUnfiled(leg: Leg) { !leg.hup && leg.callState == CCS_HANGUP }

  ghost predicate Balanced(st: Stats, legs: nat, open: nat, unfiled: nat, down: nat) {
    && st.total == legs == st.totalIn + st.totalOut
    && st.offhook == open == st.offhookIn + st.offhookOut
    && st.total + unfiled == st.offhook + st.hup
    && st.total == st.held + st.unheld + st.early + st.ringing + st.ringWait + st.active + st.hup + down
    && st.held == st.heldIn + st.heldOut && st.unheld == st.unheldIn + st.unheldOut
    && st.early == st.earlyIn + st.earlyOut && st.ringing == st.ringingIn + st.ringingOut
    && st.active == st.activeIn + st.activeOut && st.hup == st.hupIn + st.hupOut
  }

  lemma OneBalanced(leg: Leg)
    ensures Balanced(One(leg), 1, Bit(IsOpen(leg)), Bit(IsOverUnfiled(leg)), Bit(IsDown(leg)))
  {
  }

  lemma PlusBalanced(a: Stats, n: nat, o: nat, u: nat, d: nat, b: Stats, n': nat, o': nat, u': nat, d': nat)
    requires Balanced(a, n, o, u, d) && Balanced(b, n', o', u', d')
    ensures Balanced(a.Plus(b), n + n', o + o', u + u', d + d')
  {
  }

  /** The categories partition the legs: directions, on and off hook, and what the
      call is doing. Legs that are down are in no category of their own, and legs
      that are over count as hung up even before their profile is stored. */
  lemma {:induction false} StatsPartition(legs: seq<Leg>)
    ensures Balanced(StatsOf(legs), |legs|, Count(legs, IsOpen), Count(legs, IsOverUnfiled), Count(legs, IsDown))
  {
    hide Balanced; hide Stats.Plus; hide One; hide StatsOf;
    if legs == [] {
      StatsNone();
      ZeroBalanced();
    } else {
      var front, last := legs[..|legs| - 1], legs[|legs| - 1];
      StatsPartition(front);
      OneBalanced(last);
      PlusBalanced(StatsOf(front), |front|, Count(front, IsOpen), Count(front, IsOverUnfiled), Count(front, IsDown),
                   One(last), 1, Bit(IsOpen(last)), Bit(IsOverUnfiled(last)), Bit(IsDown(last)));
      assert legs[..|front| + 1] == legs;
      StatsSnoc(legs, |front|);
    }
  }

  lemma ZeroBalanced()
    ensures Balanced(ZERO, 0, 0, 0, 0)
  {
  }

  lemma CountSnoc(legs: seq<Leg>, leg: Leg, p: Leg -> bool)
    ensures Count(legs + [leg], p) == Count(legs, p) + Bit(p(leg))
  {
    assert (legs + [leg])[..|legs|] == legs;
  }

  lemma {:induction false} CountUpdate(legs: seq<Leg>, k: nat, leg: Leg, p: Leg -> bool)
    requires k < |legs|
    ensures Count(legs[k := leg], p) + Bit(p(legs[k])) == Count(legs, p) + Bit(p(leg))
  {
    var front, last := legs[..|legs| - 1], legs[|legs| - 1];
    if k == |legs| - 1 {
      assert legs[k := leg][..|legs| - 1] == front;
    } else {
      CountUpdate(front, k, leg, p);
      assert legs[k := leg][..|legs| - 1] == front[k := leg];
    }
  }

  lemma {:induction false} CountPositive(legs: seq<Leg>, k: nat, p: Leg -> bool)
    requires k < |legs| && p(legs[k])
    ensures Count(legs, p) >= 1
  {
    if k < |legs| - 1 { CountPositive(legs[..|legs| - 1], k, p); }
  }

  /** With a single leg that satisfies `p`, it is this one. */
  lemma {:induction false} CountOne(legs: seq<Leg>, k: nat, j: nat, p: Leg -> bool)
    requires k < |legs| && j < |legs| && p(legs[k]) && p(legs[j]) && Count(legs, p) == 1
    ensures k == j
  {
    var front := legs[..|legs| - 1];
    if k < |legs| - 1 && j < |legs| - 1 {
      CountPositive(front, k, p);
      CountOne(front, k, j, p);
    } else if k < |legs| - 1 {
      CountPositive(front, k, p);
    } else if j < |legs| - 1 {
      CountPositive(front, j, p);
    }
  }

  // ----- what each number counts

  /** Any leg, one not filed, one not filed in a call state, one in conversation, one that
      is over; and its direction. */
  datatype What = Any | OffHook | Doing(cs: CallState) | Talking | Over
  datatype Way = Either | Only(d: Direction)

  predicate Belongs(leg: Leg, what: What, way: Way) {
    && (way.Only? ==> leg.direction == way.d)
    && match what
       case Any => true
       case OffHook => !leg.hup
       case Doing(cs) => !leg.hup && leg.callState == cs
       case Talking => !leg.hup && leg.callState in {CCS_ACTIVE, CCS_DIALING}
       case Over => leg.hup || leg.callState == CCS_HANGUP
  }

  /** How many of the legs belong. */
  function Tally(legs: seq<Leg>, what: What, way: Way): nat {
    |set k | 0 <= k < |legs| && Belongs(legs[k], what, way)|
  }

  lemma TallySnoc(legs: seq<Leg>, leg: Leg, what: What, way: Way)
    ensures Tally(legs + [leg], what, way) == Tally(legs, what, way) + Bit(Belongs(leg, what, way))
  {
    var all := legs + [leg];
    var a, b := set k | 0 <= k < |legs| && Belongs(legs[k], what, way), set k | 0 <= k < |all| && Belongs(all[k], what, way);
    if Belongs(leg, what, way) { assert b == a + {|legs|}; } else { assert b == a; }
  }

  /** Three numbers of one kind: in all, inbound and outbound. */
  ghost predicate Three(all: int, here: int, there: int, legs: seq<Leg>, what: What) {
    && all == Tally(legs, what, Either)
    && here == Tally(legs, what, Only(Inbound)) && there == Tally(legs, what, Only(Outbound))
  }

  ghost predicate Tallied(st: Stats, legs: seq<Leg>) {
    && Three(st.total, st.totalIn, st.totalOut, legs, Any)
    && Three(st.offhook, st.offhookIn, st.offhookOut, legs, OffHook)
    && Three(st.active, st.activeIn, st.activeOut, legs, Talking)
    && Three(st.held, st.heldIn, st.heldOut, legs, Doing(CCS_HELD))
    && Three(st.unheld, st.unheldIn, st.unheldOut, legs, Doing(CCS_UNHELD))
    && Three(st.hup, st.hupIn, st.hupOut, legs, Over)
    && Three(st.ringing, st.ringingIn, st.ringingOut, legs, Doing(CCS_RINGING))
    && Three(st.early, st.earlyIn, st.earlyOut, legs, Doing(CCS_EARLY))
    && st.ringWait == Tally(legs, Doing(CCS_RING_WAIT), Either)
  }

  lemma ThreeSnoc(all: int, here: int, there: int, legs: seq<Leg>, leg: Leg, what: What, a: int, h: int, o: int)
    requires Three(all, here, there, legs, what)
    requires a == Bit(Belongs(leg, what, Either))
    requires h == Bit(Belongs(leg, what, Only(Inbound))) && o == Bit(Belongs(leg, what, Only(Outbound)))
    ensures Three(all + a, here + h, there + o, legs + [leg], what)
  {
    hide Tally; hide Belongs;
    TallySnoc(legs, leg, what, Either);
    TallySnoc(legs, leg, what, Only(Inbound));
    TallySnoc(legs, leg, what, Only(Outbound));
  }

  lemma TalliedSnoc(st: Stats, legs: seq<Leg>, leg: Leg)
    requires Tallied(st, legs)
    ensures Tallied(st.Plus(One(leg)), legs + [leg])
  {
    hide Tally; hide Three;
    var o := One(leg);
    ThreeSnoc(st.total, st.totalIn, st.totalOut, legs, leg, Any, o.total, o.totalIn, o.totalOut);
    ThreeSnoc(st.offhook, st.offhookIn, st.offhookOut, legs, leg, OffHook, o.offhook, o.offhookIn, o.offhookOut);
    ThreeSnoc(st.active, st.activeIn, st.activeOut, legs, leg, Talking, o.active, o.activeIn, o.activeOut);
    ThreeSnoc(st.held, st.heldIn, st.heldOut, legs, leg, Doing(CCS_HELD), o.held, o.heldIn, o.heldOut);
    ThreeSnoc(st.unheld, st.unheldIn, st.unheldOut, legs, leg, Doing(CCS_UNHELD), o.unheld, o.unheldIn, o.unheldOut);
    ThreeSnoc(st.hup, st.hupIn, st.hupOut, legs, leg, Over, o.hup, o.hupIn, o.hupOut);
    ThreeSnoc(st.ringing, st.ringingIn, st.ringingOut, legs, leg, Doing(CCS_RINGING), o.ringing, o.ringingIn, o.ringingOut);
    ThreeSnoc(st.early, st.earlyIn, st.earlyOut, legs, leg, Doing(CCS_EARLY), o.early, o.earlyIn, o.earlyOut);
    TallySnoc(legs, leg, Doing(CCS_RING_WAIT), Either);
  }

  /** Every number of the statistics is the number of legs it is named after. */
  lemma {:induction false} StatsTally(legs: seq<Leg>)
    ensures Tallied(StatsOf(legs), legs)
  {
    hide Tallied; hide Stats.Plus; hide One;
    if legs == [] {
      NothingTallied();
    } else {
      var front, last := legs[..|legs| - 1], legs[|legs| - 1];
      StatsTally(front);
      TalliedSnoc(StatsOf(front), front, last);
      assert front + [last] == legs;
    }
  }

  lemma NothingTallied()
    ensures Tallied(ZERO, [])
  {
    hide Tally; hide Three;
    ThreeNone(Any);
    ThreeNone(OffHook);
    ThreeNone(Talking);
    ThreeNone(Over);
    ThreeNone(Doing(CCS_HELD));
    ThreeNone(Doing(CCS_UNHELD));
    ThreeNone(Doing(CCS_RINGING));
    ThreeNone(Doing(CCS_EARLY));
    TallyNone(Doing(CCS_RING_WAIT), Either);
  }

  lemma ThreeNone(what: What)
    ensures Three(0, 0, 0, [], what)
  {
    hide Tally;
    TallyNone(what, Either);
    TallyNone(what, Only(Inbound));
    TallyNone(what, Only(Outbound));
  }

  lemma TallyNone(what: What, way: Way)
    ensures Tally([], what, way) == 0
  {
    var none: seq<Leg> := [];
    assert (set k | 0 <= k < |none| && Belongs(none[k], what, way)) == {};
  }
}
