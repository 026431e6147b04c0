/** Two logged group calls under way at once: each checks, commits its record and applies its
    change, in every interleaving, with commits that may fail. */
module GroupRaces {
  import opened Basics
  import opened Affinity

  datatype Pc = Ready | Checked(record: Record) | Committed(record: Record) | Over

  datatype Race = Race(state: Groups, log: seq<Record>, pcs: seq<Pc>)

  /** The next step of call `i`. */
  ghost predicate RaceStep(calls: seq<Call>, r: Race, t: Race, i: nat)
    requires i < |calls| == |r.pcs|
  {
    match r.pcs[i]
    case Ready =>
      t == r.(pcs := r.pcs[i := if Accepts(r.state, calls[i]) then Checked(Logged(r.state, calls[i])) else Over])
    case Checked(record) =>
      t == r.(pcs := r.pcs[i := Committed(record)], log := r.log + [record]) || t == r.(pcs := r.pcs[i := Over])
    case Committed(_) => t == r.(pcs := r.pcs[i := Over], state := Applied(r.state, calls[i]))
    case Over => false
  }

  ghost predicate Races(calls: seq<Call>, s: Groups, states: seq<Race>) {
    && |calls| == 2 && states != [] && states[0] == Race(s, [], [Ready, Ready])
    && (forall k :: 0 <= k < |states| ==> |states[k].pcs| == 2)
    && forall k :: 0 < k < |states| ==> RaceStep(calls, states[k - 1], states[k], 0) || RaceStep(calls, states[k - 1], states[k], 1)
  }

  ghost predicate Done(r: Race) {
    r.pcs == [Over, Over]
  }

  // ----- what replaying a call's record does -----

  function ReplayedCall(s: Groups, c: Call, cap: nat): Groups {
    match c
    case Create(gid) => Created(s, gid)
    case Add(entity, gid, _) => Added(s, entity, gid, cap)
    case Remove(entity) => Removed(s, entity)
  }

  predicate RecordOf(record: Record, c: Call) {
    match c
    case Create(gid) => record == GroupCreate(gid)
    case Add(entity, gid, _) => record == GroupMember(gid, entity)
    case Remove(entity) => record.GroupRemove? && record.entity == entity
  }

  lemma RecordReplays(s: Groups, record: Record, c: Call, cap: nat)
    requires RecordOf(record, c)
    ensures Replayed(s, record, cap) == ReplayedCall(s, c, cap)
  {}

  predicate Within(c: Call, cap: nat) {
    c.Add? ==> c.cap <= cap
  }

  lemma AcceptedReplays(s: Groups, c: Call, cap: nat)
    requires Accepts(s, c) && Within(c, cap)
    ensures ReplayedCall(s, c, cap) == Applied(s, c)
  {}

  // ----- when two accepted calls get in each other's way -----

  /** `e` is mapped to the group and a member: adding it changes nothing. */
  predicate Settled(s: Groups, e: Id, gid: Id) {
    gid in s.groups && e in s.groups[gid].members && e in s.explicit && s.explicit[e] == gid
  }

  /** Applying `b` before `a`, though `a` was logged first, shows: `b` leaves `a`'s group full,
      or both move the same entity. */
  predicate Overtakes(s: Groups, a: Call, b: Call) {
    match (a, b)
    case (Add(e, g, cap), Add(f, h, _)) =>
      if e == f then g != h
      else g == h && g in s.groups && f !in s.groups[g].members && |s.groups[g].members| + 1 >= cap && !Settled(s, e, g)
    case (Add(e, _, _), Remove(f)) => e == f
    case (Remove(e), Add(f, _, _)) => e == f
    case _ => false
  }

  predicate Conflict(s: Groups, calls: seq<Call>)
    requires |calls| == 2
  {
    && Accepts(s, calls[0]) && Accepts(s, calls[1])
    && (Overtakes(s, calls[0], calls[1]) || Overtakes(s, calls[1], calls[0]))
  }

  /** Logged first and applied last, the overtaken call leaves other groups than its replay. */
  lemma OvertakenDiffers(s: Groups, a: Call, b: Call, cap: nat)
    requires Accepts(s, a) && Accepts(s, b) && Within(a, cap) && Within(b, cap) && Overtakes(s, a, b)
    ensures Applied(Applied(s, b), a) != ReplayedCall(ReplayedCall(s, a, cap), b, cap)
  {
    var live, back := Applied(Applied(s, b), a), ReplayedCall(ReplayedCall(s, a, cap), b, cap);
    match (a, b)
    case (Add(e, g, k), Add(f, h, _)) =>
      if e == f {
        assert live.explicit[e] == g && back.explicit[e] == h;
      } else {
        var mid := Applied(s, b);
        assert mid.groups[g].members == s.groups[g].members + {f};
        assert live == mid && !Settled(live, e, g);
        assert Settled(back, e, g);
      }
    case (Add(e, _, _), Remove(_)) =>
      assert e in live.explicit && e !in back.explicit;
    case (Remove(e), Add(_, _, _)) =>
      assert e !in live.explicit && e in back.explicit;
  }

  lemma SettledAdd(s: Groups, e: Id, g: Id, cap: nat)
    requires Settled(s, e, g)
    ensures Added(s, e, g, cap) == s
  {
    JoinedSame(s, e, g);
  }

  /** What one addition leaves of the other's group. */
  lemma AddedRoom(s: Groups, e: Id, g: Id, h: Id)
    requires g in s.groups && h in s.groups
    ensures var t := Joined(s, e, g);
      && h in t.groups && |t.groups[h].members| <= |s.groups[h].members| + 1
      && (g != h || e in s.groups[g].members ==> |t.groups[h].members| == |s.groups[h].members|)
      && Settled(t, e, g)
  {
    assert e in s.groups[g].members ==> s.groups[g].members + {e} == s.groups[g].members;
  }

  /** After the other call, the live check of a call still says what replay under a larger cap
      says. */
  lemma ReplaysAfter(s: Groups, a: Call, b: Call, cap: nat)
    requires Accepts(s, a) && Accepts(s, b) && Within(b, cap) && !Overtakes(s, b, a)
    ensures ReplayedCall(Applied(s, a), b, cap) == Applied(Applied(s, a), b)
    ensures b.Add? ==> HasRoom(Applied(s, a), b.gid, b.cap) || Settled(Applied(s, a), b.entity, b.gid)
  {
    match (a, b)
    case (Add(e, g, _), Add(f, h, k)) =>
      AddedRoom(s, e, g, h);
      if !HasRoom(Applied(s, a), h, k) {
        assert Settled(Applied(s, a), f, h);
        SettledAdd(Applied(s, a), f, h, cap);
        SettledAdd(Applied(s, a), f, h, k);
      }
    case (Remove(e), Add(f, h, k)) =>
      assert s.groups[h].members - {e} <= s.groups[h].members;
      SubsetCount(s.groups[h].members - {e}, s.groups[h].members);
    case _ =>
  }

  /** Both additions take effect, or change nothing, in either order. */
  lemma AddsCommute(s: Groups, a: Call, b: Call)
    requires a.Add? && b.Add? && Accepts(s, a) && Accepts(s, b)
    requires !Overtakes(s, a, b) && !Overtakes(s, b, a)
    ensures Applied(Applied(s, a), b) == Applied(Applied(s, b), a)
  {
    var e, g, f, h := a.entity, a.gid, b.entity, b.gid;
    ReplaysAfter(s, a, b, b.cap);
    ReplaysAfter(s, b, a, a.cap);
    var x, y := Joined(s, e, g), Joined(s, f, h);
    AddedSettled(x, f, h, b.cap);
    AddedSettled(y, e, g, a.cap);
    JoinsCommute(s, e, g, f, h);
  }

  lemma AddedSettled(s: Groups, e: Id, g: Id, cap: nat)
    requires HasRoom(s, g, cap) || Settled(s, e, g)
    ensures Added(s, e, g, cap) == Joined(s, e, g)
  {
    if Settled(s, e, g) { JoinedSame(s, e, g); }
  }

  lemma SwapUpdates<K, V>(m: map<K, V>, g: K, a: V, h: K, b: V)
    requires g != h
    ensures m[g := a][h := b] == m[h := b][g := a]
  {}

  lemma JoinsCommute(s: Groups, e: Id, g: Id, f: Id, h: Id)
    requires g in s.groups && h in s.groups && (e == f ==> g == h)
    ensures Joined(Joined(s, e, g), f, h) == Joined(Joined(s, f, h), e, g)
  {
    var gm, hm := s.groups[g], s.groups[h];
    if e != f { SwapUpdates(s.explicit, e, g, f, h); }
    if g != h {
      SwapUpdates(s.groups, g, gm.(members := gm.members + {e}), h, hm.(members := hm.members + {f}));
    } else {
      assert gm.members + {e} + {f} == gm.members + {f} + {e};
      Overwritten(s.groups, g, gm.(members := gm.members + {e}), gm.(members := gm.members + {e} + {f}));
      Overwritten(s.groups, g, gm.(members := gm.members + {f}), gm.(members := gm.members + {e} + {f}));
    }
  }

  lemma Overwritten<K, V>(m: map<K, V>, g: K, a: V, b: V)
    ensures m[g := a][g := b] == m[g := b]
  {}

  lemma MinusSwapped<K, V>(m: map<K, V>, e: K, f: K, b: V)
    ensures m - {e} - {f} == m - {f} - {e}
    ensures e != f ==> m[f := b] - {e} == (m - {e})[f := b]
  {}

  lemma RemoveAdd(s: Groups, e: Id, f: Id, h: Id)
    requires e in s.explicit && h in s.groups && e != f
    ensures Joined(Removed(s, e), f, h) == Removed(Joined(s, f, h), e)
  {
    var g := s.explicit[e];
    MinusSwapped(s.explicit, e, f, h);
    if g in s.groups {
      var gm, hm := s.groups[g], s.groups[h];
      if g != h {
        SwapUpdates(s.groups, g, gm.(members := gm.members - {e}), h, hm.(members := hm.members + {f}));
      } else {
        assert (gm.members - {e}) + {f} == (gm.members + {f}) - {e};
        Overwritten(s.groups, g, gm.(members := gm.members - {e}), gm.(members := (gm.members - {e}) + {f}));
        Overwritten(s.groups, g, gm.(members := gm.members + {f}), gm.(members := (gm.members - {e}) + {f}));
      }
    }
  }

  lemma RemoveRemove(s: Groups, e: Id, f: Id)
    requires e in s.explicit && f in s.explicit && e != f
    ensures Removed(Removed(s, e), f) == Removed(Removed(s, f), e)
  {
    var g, h := s.explicit[e], s.explicit[f];
    MinusSwapped(s.explicit, e, f, g);
    if g in s.groups && h in s.groups {
      var gm, hm := s.groups[g], s.groups[h];
      if g != h {
        SwapUpdates(s.groups, g, gm.(members := gm.members - {e}), h, hm.(members := hm.members - {f}));
      } else {
        assert gm.members - {e} - {f} == gm.members - {f} - {e};
        Overwritten(s.groups, g, gm.(members := gm.members - {e}), gm.(members := gm.members - {e} - {f}));
        Overwritten(s.groups, g, gm.(members := gm.members - {f}), gm.(members := gm.members - {e} - {f}));
      }
    }
  }

  lemma RemoveCommutes(s: Groups, e: Id, b: Call)
    requires e in s.explicit && Accepts(s, b) && (b.Add? ==> b.entity != e)
    ensures Applied(Removed(s, e), b) == Removed(Applied(s, b), e)
  {
    match b
    case Create(g) =>
      RemoveCreate(s, e, g);
    case Add(f, h, k) =>
      RemoveAdd(s, e, f, h);
      ReplaysAfter(s, Remove(e), b, k);
    case Remove(f) =>
      if e != f { RemoveRemove(s, e, f); }
  }

  lemma RemoveCreate(s: Groups, e: Id, g: Id)
    requires e in s.explicit && g !in s.groups
    ensures Created(Removed(s, e), g) == Removed(Created(s, g), e)
  {
    var h := s.explicit[e];
    if h in s.groups {
      SwapUpdates(s.groups, h, s.groups[h].(members := s.groups[h].members - {e}), g, Group({}, false));
    } else if h == g {
      assert {} - {e} == {};
      Overwritten(s.groups, g, Group({}, false), Group({}, false));
    }
  }

  lemma CreateCommutes(s: Groups, g: Id, b: Call)
    requires g !in s.groups && Accepts(s, b) && !b.Remove?
    ensures Applied(Created(s, g), b) == Created(Applied(s, b), g)
  {
    assert Applied(Created(s, g), b).groups == Created(Applied(s, b), g).groups;
  }

  /** Otherwise the order of the two makes no difference, live or in replay. */
  lemma Commute(s: Groups, a: Call, b: Call, cap: nat)
    requires Accepts(s, a) && Accepts(s, b) && Within(a, cap) && Within(b, cap)
    requires !Overtakes(s, a, b) && !Overtakes(s, b, a)
    ensures Applied(Applied(s, a), b) == Applied(Applied(s, b), a)
    ensures ReplayedCall(Applied(s, a), b, cap) == Applied(Applied(s, a), b)
    ensures ReplayedCall(Applied(s, b), a, cap) == Applied(Applied(s, b), a)
  {
    ReplaysAfter(s, a, b, cap);
    ReplaysAfter(s, b, a, cap);
    hide Settled, HasRoom;
    if a.Remove? {
      RemoveCommutes(s, a.entity, b);
    } else if b.Remove? {
      RemoveCommutes(s, b.entity, a);
    } else if a.Create? {
      CreateCommutes(s, a.gid, b);
    } else if b.Create? {
      CreateCommutes(s, b.gid, a);
    } else {
      AddsCommute(s, a, b);
    }
  }

  // ----- every interleaving -----

  predicate Active(pc: Pc) {
    pc.Checked? || pc.Committed?
  }

  function Pending(s: Groups, pc: Pc, c: Call): Groups {
    if pc.Committed? then Applied(s, c) else s
  }

  /** The log replays to the groups with the committed changes applied, calls that overlap were
      both accepted at the start, and a call that is the last to commit replays as it applies. */
  ghost predicate RaceInv(calls: seq<Call>, s: Groups, r: Race, cap: nat)
    requires |calls| == 2
  {
    && |r.pcs| == 2
    && (forall i :: 0 <= i < 2 && Active(r.pcs[i]) ==> RecordOf(r.pcs[i].record, calls[i]))
    && (r.pcs == [Ready, Ready] ==> r.state == s)
    && (forall i :: 0 <= i < 2 && Active(r.pcs[i]) && !r.pcs[1 - i].Over? ==> r.state == s && Accepts(s, calls[i]))
    && (forall i :: 0 <= i < 2 && r.pcs[i].Checked? && r.pcs[1 - i].Over? ==>
      ReplayedCall(r.state, calls[i], cap) == Applied(r.state, calls[i]))
    && Replay(s, r.log, cap) == Pending(Pending(r.state, r.pcs[0], calls[0]), r.pcs[1], calls[1])
  }

  ghost predicate Peaceful(s: Groups, calls: seq<Call>, cap: nat) {
    && |calls| == 2 && !Conflict(s, calls) && Within(calls[0], cap) && Within(calls[1], cap)
  }

  /** What the other call may be told of call `i`, whatever the two have done so far. */
  lemma Peace(s: Groups, calls: seq<Call>, cap: nat)
    requires Peaceful(s, calls, cap)
    ensures forall i :: 0 <= i < 2 && Accepts(s, calls[i]) ==> ReplayedCall(s, calls[i], cap) == Applied(s, calls[i])
    ensures Accepts(s, calls[0]) && Accepts(s, calls[1]) ==>
      && Applied(Applied(s, calls[0]), calls[1]) == Applied(Applied(s, calls[1]), calls[0])
      && ReplayedCall(Applied(s, calls[0]), calls[1], cap) == Applied(Applied(s, calls[0]), calls[1])
      && ReplayedCall(Applied(s, calls[1]), calls[0], cap) == Applied(Applied(s, calls[0]), calls[1])
  {
    forall i | 0 <= i < 2 && Accepts(s, calls[i]) ensures ReplayedCall(s, calls[i], cap) == Applied(s, calls[i]) {
      AcceptedReplays(s, calls[i], cap);
    }
    if Accepts(s, calls[0]) && Accepts(s, calls[1]) { Commute(s, calls[0], calls[1], cap); }
  }

  lemma CheckStep(calls: seq<Call>, s: Groups, r: Race, t: Race, i: nat, cap: nat)
    requires Peaceful(s, calls, cap) && RaceInv(calls, s, r, cap) && i < 2 && RaceStep(calls, r, t, i) && r.pcs[i].Ready?
    ensures RaceInv(calls, s, t, cap)
  {
    Peace(s, calls, cap);
    if Accepts(r.state, calls[i]) {
      AcceptedReplays(r.state, calls[i], cap);
      LoggedRecord(r.state, calls[i]);
    }
    assert t.pcs[1 - i] == r.pcs[1 - i];
    hide Replay, ReplayedCall, Applied, Accepts, Logged, RecordOf, Within, Conflict;
  }

  lemma LoggedRecord(s: Groups, c: Call)
    requires Accepts(s, c)
    ensures RecordOf(Logged(s, c), c)
  {}

  lemma CommitStep(calls: seq<Call>, s: Groups, r: Race, t: Race, i: nat, cap: nat)
    requires Peaceful(s, calls, cap) && RaceInv(calls, s, r, cap) && i < 2 && r.pcs[i].Checked?
    requires t == r.(pcs := r.pcs[i := Committed(r.pcs[i].record)], log := r.log + [r.pcs[i].record])
    ensures RaceInv(calls, s, t, cap)
  {
    Peace(s, calls, cap);
    var record := r.pcs[i].record;
    ReplayLast(s, r.log, record, cap);
    RecordReplays(Replay(s, r.log, cap), record, calls[i], cap);
    assert t.pcs[1 - i] == r.pcs[1 - i];
    hide Replay, Replayed, ReplayedCall, Applied, Accepts, RecordOf, Within, Conflict, Peaceful;
  }

  lemma CommitFails(calls: seq<Call>, s: Groups, r: Race, t: Race, i: nat, cap: nat)
    requires Peaceful(s, calls, cap) && RaceInv(calls, s, r, cap) && i < 2 && r.pcs[i].Checked?
    requires t == r.(pcs := r.pcs[i := Over])
    ensures RaceInv(calls, s, t, cap)
  {
    Peace(s, calls, cap);
    assert t.pcs[1 - i] == r.pcs[1 - i];
    hide Replay, Replayed, ReplayedCall, Applied, Accepts, RecordOf, Within, Conflict, Peaceful;
  }

  lemma ApplyStep(calls: seq<Call>, s: Groups, r: Race, t: Race, i: nat, cap: nat)
    requires Peaceful(s, calls, cap) && RaceInv(calls, s, r, cap) && i < 2 && RaceStep(calls, r, t, i) && r.pcs[i].Committed?
    ensures RaceInv(calls, s, t, cap)
  {
    Peace(s, calls, cap);
    assert t.pcs[1 - i] == r.pcs[1 - i];
    hide Replay, ReplayedCall, Applied, Accepts, RecordOf, Within, Conflict;
  }

  lemma {:induction false} RacesKeep(calls: seq<Call>, s: Groups, states: seq<Race>, m: nat, cap: nat)
    requires Peaceful(s, calls, cap) && Races(calls, s, states) && m < |states|
    ensures RaceInv(calls, s, states[m], cap)
  {
    if m > 0 {
      RacesKeep(calls, s, states, m - 1, cap);
      var r, t := states[m - 1], states[m];
      assert |r.pcs| == 2;
      var i := if RaceStep(calls, r, t, 0) then 0 else 1;
      assert RaceStep(calls, r, t, i);
      match r.pcs[i]
      case Ready => CheckStep(calls, s, r, t, i, cap);
      case Checked(_) =>
        if t.pcs[i].Over? { CommitFails(calls, s, r, t, i, cap); } else { CommitStep(calls, s, r, t, i, cap); }
      case Committed(_) => ApplyStep(calls, s, r, t, i, cap);
      case Over =>
    }
  }

  /** Both check, `a` commits before `b` and applies after it. */
  lemma OvertakingRun(calls: seq<Call>, s: Groups, a: nat, cap: nat) returns (states: seq<Race>)
    requires |calls| == 2 && a < 2 && Accepts(s, calls[0]) && Accepts(s, calls[1])
    ensures Races(calls, s, states) && Done(states[|states| - 1])
    ensures states[|states| - 1].state == Applied(Applied(s, calls[1 - a]), calls[a])
    ensures Replay(s, states[|states| - 1].log, cap) == ReplayedCall(ReplayedCall(s, calls[a], cap), calls[1 - a], cap)
  {
    var b := 1 - a;
    var first, second := Logged(s, calls[a]), Logged(s, calls[b]);
    var s0 := Race(s, [], [Ready, Ready]);
    var s1 := s0.(pcs := s0.pcs[a := Checked(first)]);
    var s2 := s1.(pcs := s1.pcs[b := Checked(second)]);
    var s3 := s2.(pcs := s2.pcs[a := Committed(first)], log := s2.log + [first]);
    var s4 := s3.(pcs := s3.pcs[b := Committed(second)], log := s3.log + [second]);
    var s5 := s4.(pcs := s4.pcs[b := Over], state := Applied(s, calls[b]));
    var s6 := s5.(pcs := s5.pcs[a := Over], state := Applied(s5.state, calls[a]));
    LoggedRecord(s, calls[a]);
    LoggedRecord(s, calls[b]);
    hide Applied, Accepts, Logged, RecordOf;
    states := [s0, s1, s2, s3, s4, s5, s6];
    assert RaceStep(calls, s0, s1, a) && RaceStep(calls, s1, s2, b) && RaceStep(calls, s2, s3, a);
    assert RaceStep(calls, s3, s4, b) && RaceStep(calls, s4, s5, b) && RaceStep(calls, s5, s6, a);
    forall k | 0 < k < |states| ensures RaceStep(calls, states[k - 1], states[k], 0) || RaceStep(calls, states[k - 1], states[k], 1) {
      assert RaceStep(calls, states[k - 1], states[k], a) || RaceStep(calls, states[k - 1], states[k], b);
    }
    assert s6.log == [first, second];
    ReplayTwo(s, first, second, cap);
    RecordReplays(s, first, calls[a], cap);
    RecordReplays(ReplayedCall(s, calls[a], cap), second, calls[b], cap);
  }

  /** Over every interleaving of two logged calls, and whichever commits fail, replaying the log
      under a cap no smaller than theirs gives the live groups, exactly unless both were accepted
      where they started and one leaves the other's group full or moves its entity. */
  lemma RacesAgreeIff(s: Groups, calls: seq<Call>, cap: nat)
    requires |calls| == 2 && Within(calls[0], cap) && Within(calls[1], cap)
    ensures (forall states: seq<Race> :: Races(calls, s, states) && Done(states[|states| - 1]) ==>
        Replay(s, states[|states| - 1].log, cap) == states[|states| - 1].state)
      <==> !Conflict(s, calls)
  {
    if !Conflict(s, calls) {
      forall states: seq<Race> | Races(calls, s, states) && Done(states[|states| - 1])
        ensures Replay(s, states[|states| - 1].log, cap) == states[|states| - 1].state
      {
        RacesKeep(calls, s, states, |states| - 1, cap);
      }
    } else {
      var a := if Overtakes(s, calls[0], calls[1]) then 0 else 1;
      var states := OvertakingRun(calls, s, a, cap);
      OvertakenDiffers(s, calls[a], calls[1 - a], cap);
      assert Races(calls, s, states) && Replay(s, states[|states| - 1].log, cap) != states[|states| - 1].state;
    }
  }
}
