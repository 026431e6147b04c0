/** Affinity groups: explicit membership, its log and replay, and learned co-location. */
module Affinity {
  import opened Basics
  import opened Cooccurrence

  datatype Group = Group(members: set<Id>, learned: bool)

  /** The entity-to-group map and the groups. */
  datatype Groups = Groups(explicit: map<Id, Id>, groups: map<Id, Group>)

  const NO_GROUPS: Groups := Groups(map[], map[])

  datatype GroupError = AlreadyExists | NotFound | Full | WalCommit

  datatype Outcome = Done | Failed(error: GroupError)

  /** Log payloads; one that does not decode is skipped by replay. */
  datatype Record = GroupCreate(gid: Id) | GroupMember(gid: Id, entity: Id) | GroupRemove(entity: Id, gid: Id) | Undecodable

  // ----- what the operations do to the maps -----

  function Created(s: Groups, gid: Id): Groups {
    if gid in s.groups then s else s.(groups := s.groups[gid := Group({}, false)])
  }

  predicate HasRoom(s: Groups, gid: Id, cap: nat) {
    gid in s.groups && |s.groups[gid].members| < cap
  }

  /** Joining maps the entity to the group; a group it was in before keeps it as a member. */
  function Joined(s: Groups, entity: Id, gid: Id): Groups
    requires gid in s.groups
  {
    var g := s.groups[gid];
    Groups(s.explicit[entity := gid], s.groups[gid := g.(members := g.members + {entity})])
  }

  function Added(s: Groups, entity: Id, gid: Id, cap: nat): Groups {
    if HasRoom(s, gid, cap) then Joined(s, entity, gid) else s
  }

  function Removed(s: Groups, entity: Id): Groups {
    if entity !in s.explicit then s
    else
      var gid := s.explicit[entity];
      Groups(s.explicit - {entity},
             if gid in s.groups then s.groups[gid := s.groups[gid].(members := s.groups[gid].members - {entity})] else s.groups)
  }

  /** Replay takes the group of a removal from the current map, not from the payload. */
  function Replayed(s: Groups, r: Record, cap: nat): Groups {
    match r
    case GroupCreate(gid) => Created(s, gid)
    case GroupMember(gid, entity) => Added(s, entity, gid, cap)
    case GroupRemove(entity, _) => Removed(s, entity)
    case Undecodable => s
  }

  function Replay(s: Groups, log: seq<Record>, cap: nat): Groups {
    if log == [] then s else Replayed(Replay(s, log[..|log| - 1], cap), log[|log| - 1], cap)
  }

  // ----- runs of logged operations -----

  datatype Call = Create(gid: Id) | Add(entity: Id, gid: Id, cap: nat) | Remove(entity: Id)

  /** The check a logged operation makes before it writes to the log. */
  predicate Accepts(s: Groups, c: Call) {
    match c
    case Create(gid) => gid !in s.groups
    case Add(_, gid, cap) => HasRoom(s, gid, cap)
    case Remove(entity) => entity in s.explicit
  }

  function Logged(s: Groups, c: Call): (r: Record)
    requires Accepts(s, c)
  {
    match c
    case Create(gid) => GroupCreate(gid)
    case Add(entity, gid, _) => GroupMember(gid, entity)
    case Remove(entity) => GroupRemove(entity, s.explicit[entity])
  }

  function Applied(s: Groups, c: Call): Groups {
    match c
    case Create(gid) => Created(s, gid)
    case Add(entity, gid, cap) => Added(s, entity, gid, cap)
    case Remove(entity) => Removed(s, entity)
  }

  datatype Step = Step(call: Call, commits: bool)

  datatype Live = Live(state: Groups, log: seq<Record>)

  /** One logged call: rejected calls and failed commits change nothing. */
  function Stepped(l: Live, step: Step): Live {
    if Accepts(l.state, step.call) && step.commits
    then Live(Applied(l.state, step.call), l.log + [Logged(l.state, step.call)])
    else l
  }

  function Run(steps: seq<Step>): Live {
    if steps == [] then Live(NO_GROUPS, []) else Stepped(Run(steps[..|steps| - 1]), steps[|steps| - 1])
  }

  /** What a logged call needs and does. It writes one record exactly if it commits and: the group is
      new, or there and not full, or the entity has one. A created group is empty, an added entity is
      mapped to its group and in it, a removed one is neither mapped nor in the group it was in. */
  lemma StepMeaning(l: Live, step: Step)
    ensures var s, t, c := l.state, Stepped(l, step), step.call;
      var wrote := step.commits
        && (c.Create? ==> c.gid !in s.groups)
        && (c.Add? ==> c.gid in s.groups && |s.groups[c.gid].members| < c.cap)
        && (c.Remove? ==> c.entity in s.explicit);
      && (!wrote ==> t == l)
      && (wrote ==> |t.log| == |l.log| + 1 && t.log[..|l.log|] == l.log)
      && (wrote && c.Create? ==> t.state == Groups(s.explicit, s.groups[c.gid := Group({}, false)]))
      && (wrote && c.Add? ==>
        t.state == Groups(s.explicit[c.entity := c.gid],
          s.groups[c.gid := Group(s.groups[c.gid].members + {c.entity}, s.groups[c.gid].learned)]))
      && (wrote && c.Remove? ==> t.state.explicit == s.explicit - {c.entity} && t.state.groups.Keys == s.groups.Keys)
      && (wrote && c.Remove? ==> forall g :: g in s.groups ==>
        t.state.groups[g].members == s.groups[g].members - (if g == s.explicit[c.entity] then {c.entity} else {}))
  {}

  /** Two entities without a group get one of their own, marked as learned. */
  lemma LearnedGroup(s: Groups, p: Pair, cap: nat)
    requires p.0 !in s.explicit && p.1 !in s.explicit
    ensures var t := Promoted(s, p, cap);
      && p.0 in t.explicit && p.1 in t.explicit && t.explicit[p.0] == t.explicit[p.1] && t.explicit[p.0] in t.groups
      && t.groups[t.explicit[p.0]] == Group({p.0, p.1}, true)
  {}

  lemma ReplayLast(s: Groups, log: seq<Record>, r: Record, cap: nat)
    ensures Replay(s, log + [r], cap) == Replayed(Replay(s, log, cap), r, cap)
  {
    assert (log + [r])[..|log|] == log;
  }

  /** Whether replaying a call's record under `cap` does what the live call did. */
  predicate Fits(s: Groups, step: Step, cap: nat) {
    var c := step.call;
    Accepts(s, c) && step.commits && c.Add? ==>
      HasRoom(s, c.gid, cap) || (c.entity in s.groups[c.gid].members && c.entity in s.explicit && s.explicit[c.entity] == c.gid)
  }

  lemma StepReplaysIff(l: Live, step: Step, cap: nat)
    requires Replay(NO_GROUPS, l.log, cap) == l.state
    ensures Replay(NO_GROUPS, Stepped(l, step).log, cap) == Stepped(l, step).state <==> Fits(l.state, step, cap)
  {
    if Accepts(l.state, step.call) && step.commits {
      ReplayLast(NO_GROUPS, l.log, Logged(l.state, step.call), cap);
      if step.call.Add? { JoinedSame(l.state, step.call.entity, step.call.gid); }
    }
  }

  lemma JoinedSame(s: Groups, entity: Id, gid: Id)
    requires gid in s.groups
    ensures Joined(s, entity, gid) == s <==>
      entity in s.groups[gid].members && entity in s.explicit && s.explicit[entity] == gid
  {
    var t := Joined(s, entity, gid);
    if entity in s.groups[gid].members && entity in s.explicit && s.explicit[entity] == gid {
      assert s.groups[gid].members + {entity} == s.groups[gid].members;
      assert t.explicit == s.explicit && t.groups == s.groups;
    } else {
      assert entity in t.explicit && t.explicit[entity] == gid && entity in t.groups[gid].members;
    }
  }

  /** Replaying the log under `cap` gives the live groups after every step of a run exactly when
      every logged addition found room under `cap`, or changed nothing. */
  lemma {:induction false} ReplayRebuildsIff(steps: seq<Step>, cap: nat)
    ensures (forall n :: 0 <= n <= |steps| ==> Replay(NO_GROUPS, Run(steps[..n]).log, cap) == Run(steps[..n]).state)
      <==> (forall n :: 0 <= n < |steps| ==> Fits(Run(steps[..n]).state, steps[n], cap))
  {
    if forall n :: 0 <= n <= |steps| ==> Replay(NO_GROUPS, Run(steps[..n]).log, cap) == Run(steps[..n]).state {
      forall n | 0 <= n < |steps| ensures Fits(Run(steps[..n]).state, steps[n], cap) {
        RunNext(steps, n);
        assert Replay(NO_GROUPS, Run(steps[..n + 1]).log, cap) == Run(steps[..n + 1]).state;
        StepReplaysIff(Run(steps[..n]), steps[n], cap);
      }
    }
    if forall n :: 0 <= n < |steps| ==> Fits(Run(steps[..n]).state, steps[n], cap) {
      forall n | 0 <= n <= |steps| ensures Replay(NO_GROUPS, Run(steps[..n]).log, cap) == Run(steps[..n]).state {
        ReplayPrefix(steps, n, cap);
      }
    }
  }

  lemma RunNext(steps: seq<Step>, n: nat)
    requires n < |steps|
    ensures Run(steps[..n + 1]) == Stepped(Run(steps[..n]), steps[n])
  {
    assert steps[..n + 1][..n] == steps[..n];
  }

  lemma {:induction false} ReplayPrefix(steps: seq<Step>, n: nat, cap: nat)
    requires n <= |steps| && forall i :: 0 <= i < |steps| ==> Fits(Run(steps[..i]).state, steps[i], cap)
    ensures Replay(NO_GROUPS, Run(steps[..n]).log, cap) == Run(steps[..n]).state
  {
    if n > 0 {
      ReplayPrefix(steps, n - 1, cap);
      RunNext(steps, n - 1);
      hide Run, Stepped, Replay, Fits;
      StepReplaysIff(Run(steps[..n - 1]), steps[n - 1], cap);
    }
  }

  ghost predicate CapsAtMost(steps: seq<Step>, cap: nat) {
    forall i :: 0 <= i < |steps| && steps[i].call.Add? ==> steps[i].call.cap <= cap
  }

  /** A cap no smaller than any the live calls used rebuilds memberships and map. */
  lemma {:induction false} ReplayRebuilds(steps: seq<Step>, cap: nat)
    requires CapsAtMost(steps, cap)
    ensures Replay(NO_GROUPS, Run(steps).log, cap) == Run(steps).state
  {
    forall i | 0 <= i < |steps| ensures Fits(Run(steps[..i]).state, steps[i], cap) {}
    ReplayPrefix(steps, |steps|, cap);
    assert steps[..|steps|] == steps;
  }

  /** A run's log begins with the creation of a group that it never creates again, and that the
      run never loses. */
  lemma {:induction false} FirstCreated(steps: seq<Step>)
    ensures var l := Run(steps);
      if l.log == [] then l.state == NO_GROUPS
      else l.log[0].GroupCreate? && l.log[0].gid in l.state.groups && forall i :: 0 < i < |l.log| ==> l.log[i] != l.log[0]
  {
    if steps != [] {
      FirstCreated(steps[..|steps| - 1]);
      var before := Run(steps[..|steps| - 1]);
      var c := steps[|steps| - 1].call;
      hide Run;
      GroupsStay(before.state, c);
      assert before.log == [] ==> !Accepts(NO_GROUPS, c) || c.Create?;
    }
  }

  lemma GroupsStay(s: Groups, c: Call)
    ensures s.groups.Keys <= Applied(s, c).groups.Keys
    ensures c.Create? ==> c.gid in Applied(s, c).groups
  {}

  /** Replay makes only the groups that the log creates. */
  lemma {:induction false} ReplayedGroups(log: seq<Record>, cap: nat, gid: Id)
    requires GroupCreate(gid) !in log
    ensures gid !in Replay(NO_GROUPS, log, cap).groups
  {
    if log != [] {
      ReplayedGroups(log[..|log| - 1], cap, gid);
      assert log[|log| - 1] in log;
    }
  }

  /** A log replayed without its first records never gives the groups back. */
  lemma {:induction false} ReplaySuffixIff(steps: seq<Step>, cap: nat, j: nat)
    requires CapsAtMost(steps, cap) && j <= |Run(steps).log|
    ensures Replay(NO_GROUPS, Run(steps).log[j..], cap) == Run(steps).state <==> j == 0
  {
    var log := Run(steps).log;
    if j == 0 {
      ReplayRebuilds(steps, cap);
      assert log[0..] == log;
    } else {
      FirstCreated(steps);
      assert forall i :: j <= i < |log| ==> log[j..][i - j] == log[i];
      ReplayedGroups(log[j..], cap, log[0].gid);
    }
  }

  /** Two additions that both passed the check while one place was left: both are logged, the
      second finds the group full. Replay agrees only under exactly the live cap. */
  lemma RacingAddsIff(s: Groups, gid: Id, e1: Id, e2: Id, live: nat, cap: nat)
    requires gid in s.groups && |s.groups[gid].members| + 1 == live
    requires e1 != e2 && e1 !in s.groups[gid].members && e2 !in s.groups[gid].members
    ensures Replay(s, [GroupMember(gid, e1), GroupMember(gid, e2)], cap) == Added(Added(s, e1, gid, live), e2, gid, live)
      <==> cap == live
  {
    ReplayTwo(s, GroupMember(gid, e1), GroupMember(gid, e2), cap);
    hide Replay;
    RacedOutcome(s, gid, e1, e2, live, live);
    RacedOutcome(s, gid, e1, e2, live, cap);
  }

  lemma ReplayTwo(s: Groups, r1: Record, r2: Record, cap: nat)
    ensures Replay(s, [r1, r2], cap) == Replayed(Replayed(s, r1, cap), r2, cap)
  {
    hide Replayed;
    assert [r1, r2] == [] + [r1] + [r2];
    ReplayLast(s, [], r1, cap);
    ReplayLast(s, [] + [r1], r2, cap);
  }

  /** Who is in the group after both additions under a cap. */
  lemma RacedOutcome(s: Groups, gid: Id, e1: Id, e2: Id, live: nat, cap: nat)
    requires gid in s.groups && |s.groups[gid].members| + 1 == live
    requires e1 != e2 && e1 !in s.groups[gid].members && e2 !in s.groups[gid].members
    ensures var t := Added(Added(s, e1, gid, cap), e2, gid, cap);
      && gid in t.groups
      && (e1 in t.groups[gid].members <==> cap >= live)
      && (e2 in t.groups[gid].members <==> cap > live)
      && (cap == live ==> t == Joined(s, e1, gid))
  {
    var one := Added(s, e1, gid, cap);
    assert cap >= live ==> one.groups[gid].members == s.groups[gid].members + {e1};
    assert |s.groups[gid].members + {e1}| == live;
  }

  // ----- invariants of runs -----

  /** Every mapped entity is a member of its group. */
  ghost predicate Mapped(s: Groups) {
    forall e :: e in s.explicit ==> s.explicit[e] in s.groups && e in s.groups[s.explicit[e]].members
  }

  ghost predicate Bounded(s: Groups, cap: nat) {
    forall gid :: gid in s.groups ==> |s.groups[gid].members| <= cap
  }

  lemma {:induction false} AppliedKeeps(s: Groups, c: Call, cap: nat)
    requires Mapped(s) && Bounded(s, cap) && (c.Add? ==> c.cap <= cap)
    ensures Mapped(Applied(s, c)) && Bounded(Applied(s, c), cap)
  {
    if c.Remove? && c.entity in s.explicit {
      SubsetCount(s.groups[s.explicit[c.entity]].members - {c.entity}, s.groups[s.explicit[c.entity]].members);
    }
  }

  lemma {:induction false} RunInvariant(steps: seq<Step>, cap: nat)
    requires CapsAtMost(steps, cap)
    ensures Mapped(Run(steps).state) && Bounded(Run(steps).state, cap)
  {
    if steps != [] {
      var n := |steps| - 1;
      RunInvariant(steps[..n], cap);
      AppliedKeeps(Run(steps[..n]).state, steps[n].call, cap);
    }
  }

  /** A step that takes effect: accepted and committed. */
  predicate Effective(s: Groups, step: Step) {
    Accepts(s, step.call) && step.commits
  }

  /** The group an entity joined last and has not been removed from since. */
  function LastJoined(steps: seq<Step>, entity: Id): Option<Id> {
    if steps == [] then None
    else
      var n := |steps| - 1;
      var c := steps[n].call;
      if !Effective(Run(steps[..n]).state, steps[n]) then LastJoined(steps[..n], entity)
      else if c.Add? && c.entity == entity then Some(c.gid)
      else if c.Remove? && c.entity == entity then None
      else LastJoined(steps[..n], entity)
  }

  /** Whether an entity joined a group and has not since been removed while that was the group
      it joined last. */
  predicate Joins(steps: seq<Step>, entity: Id, gid: Id) {
    steps != [] &&
    var n := |steps| - 1;
    var c := steps[n].call;
    if !Effective(Run(steps[..n]).state, steps[n]) then Joins(steps[..n], entity, gid)
    else if c.Add? && c.entity == entity && c.gid == gid then true
    else if c.Remove? && c.entity == entity && LastJoined(steps[..n], entity) == Some(gid) then false
    else Joins(steps[..n], entity, gid)
  }

  /** The map and the memberships tell the history of the run, whatever the groups were asked
      in between. */
  lemma {:induction false} RunTellsHistory(steps: seq<Step>, entity: Id, gid: Id)
    ensures var s := Run(steps).state;
      && (LastJoined(steps, entity) == if entity in s.explicit then Some(s.explicit[entity]) else None)
      && (Joins(steps, entity, gid) <==> gid in s.groups && entity in s.groups[gid].members)
  {
    if steps != [] {
      var n := |steps| - 1;
      RunTellsHistory(steps[..n], entity, gid);
    }
  }

  /** An entity that changes groups stays a member of the old one: membership alone does not
      say which group an entity is in. */
  lemma {:induction false} OldMembershipStays(s: Groups, entity: Id, from: Id, to: Id, cap: nat)
    requires Mapped(s) && entity in s.explicit && s.explicit[entity] == from != to && HasRoom(s, to, cap)
    ensures var t := Added(s, entity, to, cap);
      && t.explicit[entity] == to && entity in t.groups[from].members && entity in t.groups[to].members
      && entity in Removed(t, entity).groups[from].members
  {}

  // ----- learned groups -----

  function LearnedName(a: Id, b: Id): Id {
    "learned_" + a + "_" + b
  }

  /** Co-locating a strongly related pair. With neither mapped, a fresh group takes the pair,
      replacing any group of that name. */
  function Promoted(s: Groups, p: Pair, cap: nat): Groups {
    var (a, b) := p;
    if a in s.explicit && b in s.explicit then s
    else if a in s.explicit then Added(s, b, s.explicit[a], cap)
    else if b in s.explicit then Added(s, a, s.explicit[b], cap)
    else
      var gid := LearnedName(a, b);
      Groups(s.explicit[a := gid][b := gid], s.groups[gid := Group({a, b}, true)])
  }

  /** Learning keeps every mapped entity a member of its group exactly when the pair already
      had a group or no entity is mapped to the learned name. */
  lemma PromotedKeepsMappedIff(s: Groups, p: Pair, cap: nat)
    requires Mapped(s)
    ensures Mapped(Promoted(s, p, cap)) <==>
      p.0 in s.explicit || p.1 in s.explicit
      || forall e :: e in s.explicit ==> s.explicit[e] != LearnedName(p.0, p.1)
  {
    var t := Promoted(s, p, cap);
    hide LearnedName;
    if p.0 !in s.explicit && p.1 !in s.explicit {
      if e :| e in s.explicit && s.explicit[e] == LearnedName(p.0, p.1) {
        assert e in t.explicit && e !in t.groups[t.explicit[e]].members;
      }
    }
  }

  /** Learning keeps groups within the cap exactly when the pair had a group or the pair fits. */
  lemma PromotedKeepsBoundIff(s: Groups, p: Pair, cap: nat)
    requires Bounded(s, cap)
    ensures Bounded(Promoted(s, p, cap), cap) <==>
      p.0 in s.explicit || p.1 in s.explicit || |{p.0, p.1}| <= cap
  {
    var t := Promoted(s, p, cap);
    hide LearnedName;
    if p.0 !in s.explicit && p.1 !in s.explicit {
      assert t.groups[LearnedName(p.0, p.1)].members == {p.0, p.1};
    }
  }

  /** The first id of a pair continues the other pair's first id, and the second ids make up
      for it: the same text split at two different underscores. */
  ghost predicate Resplits(p: Pair, q: Pair) {
    exists s: Id :: q.0 == p.0 + "_" + s && p.1 == s + "_" + q.1
  }

  /** Exactly when two pairs share a learned name. */
  lemma LearnedNameIff(p: Pair, q: Pair)
    ensures LearnedName(p.0, p.1) == LearnedName(q.0, q.1) <==> p == q || Resplits(p, q) || Resplits(q, p)
  {
    var (a, b) := p;
    var (c, d) := q;
    var x, y := a + "_" + b, c + "_" + d;
    NameTail(a, b);
    NameTail(c, d);
    hide LearnedName;
    if x == y {
      if |a| < |c| {
        SplitLater(p, q);
      } else if |c| < |a| {
        SplitLater(q, p);
      } else {
        assert a == x[..|a|] && c == y[..|c|] && b == x[|a| + 1..] && d == y[|c| + 1..];
      }
    }
    if Resplits(p, q) { ResplitSame(p, q); }
    if Resplits(q, p) { ResplitSame(q, p); }
  }

  lemma NameTail(a: Id, b: Id)
    ensures LearnedName(a, b) == "learned_" + (a + "_" + b) && LearnedName(a, b)[8..] == a + "_" + b
  {}

  lemma ResplitSame(p: Pair, q: Pair)
    requires Resplits(p, q)
    ensures p.0 + "_" + p.1 == q.0 + "_" + q.1
  {
    var s: Id :| q.0 == p.0 + "_" + s && p.1 == s + "_" + q.1;
    assert p.0 + "_" + (s + "_" + q.1) == (p.0 + "_" + s) + "_" + q.1;
  }

  lemma SplitLater(p: Pair, q: Pair)
    requires p.0 + "_" + p.1 == q.0 + "_" + q.1 && |p.0| < |q.0|
    ensures Resplits(p, q)
  {
    var x := p.0 + "_" + p.1;
    var s := q.0[|p.0| + 1..];
    assert q.0 == x[..|q.0|] && p.0 == x[..|p.0|] && x[|p.0|] == '_';
    assert q.0 == p.0 + "_" + s;
    assert p.1 == x[|p.0| + 1..] == s + "_" + q.1;
  }

  /** First ids without an underscore give every pair a name of its own. */
  lemma PlainNamesDistinct(p: Pair, q: Pair)
    requires '_' !in p.0 && '_' !in q.0
    ensures LearnedName(p.0, p.1) == LearnedName(q.0, q.1) <==> p == q
  {
    LearnedNameIff(p, q);
    hide LearnedName;
    forall s: Id, a: Id ensures '_' in a + "_" + s {
      assert (a + "_" + s)[|a|] == '_';
    }
  }

  /** Different pairs can share a learned name. */
  lemma {:induction false} LearnedNameCollision()
    ensures LearnedName("x", "y_z") == LearnedName("x_y", "z")
    ensures ("x", "y_z") != ("x_y", "z")
  {
    assert "learned_" + "x" + "_" + "y_z" == "learned_x_y_z";
    assert "learned_" + "x_y" + "_" + "z" == "learned_x_y_z";
    assert |"x"| != |"x_y"|;
  }

  function PromotedAll(s: Groups, order: seq<Pair>, scores: Scores, threshold: real, cap: nat): Groups {
    if order == [] then s
    else
      var n := |order| - 1;
      var t := PromotedAll(s, order[..n], scores, threshold, cap);
      if Score(scores, order[n]) >= threshold then Promoted(t, order[n], cap) else t
  }

  ghost predicate Visits(order: seq<Pair>, scores: Scores) {
    && (forall i, j :: 0 <= i < j < |order| ==> order[i] != order[j])
    && (forall k :: k in scores <==> k in order)
  }

  /** Learning never moves an entity that has a group. */
  ghost predicate Extends(s: Groups, t: Groups) {
    forall e :: e in s.explicit ==> e in t.explicit && t.explicit[e] == s.explicit[e]
  }

  lemma {:induction false} LearningExtends(s: Groups, order: seq<Pair>, scores: Scores, threshold: real, cap: nat)
    ensures Extends(s, PromotedAll(s, order, scores, threshold, cap))
  {
    if order != [] { LearningExtends(s, order[..|order| - 1], scores, threshold, cap); }
  }

  /** Learning maps an entity only for a pair of it at or above the threshold. */
  lemma {:induction false} LearnedFromPair(s: Groups, order: seq<Pair>, scores: Scores, threshold: real, cap: nat, e: Id)
    requires e !in s.explicit && e in PromotedAll(s, order, scores, threshold, cap).explicit
    ensures exists i :: 0 <= i < |order| && (order[i].0 == e || order[i].1 == e) && Score(scores, order[i]) >= threshold
  {
    var n := |order| - 1;
    var t := PromotedAll(s, order[..n], scores, threshold, cap);
    hide LearnedName;
    if e in t.explicit {
      LearnedFromPair(s, order[..n], scores, threshold, cap, e);
      var i :| 0 <= i < n && (order[..n][i].0 == e || order[..n][i].1 == e) && Score(scores, order[..n][i]) >= threshold;
      assert order[i] == order[..n][i];
    } else {
      assert order[n].0 == e || order[n].1 == e;
    }
  }

  predicate SameGroup(s: Groups, p: Pair) {
    p.0 in s.explicit && p.1 in s.explicit && s.explicit[p.0] == s.explicit[p.1]
  }

  /** Neither has a group, or only one has and that group has room. */
  predicate CanJoin(s: Groups, p: Pair, cap: nat) {
    && !(p.0 in s.explicit && p.1 in s.explicit)
    && (p.0 in s.explicit ==> HasRoom(s, s.explicit[p.0], cap))
    && (p.1 in s.explicit ==> HasRoom(s, s.explicit[p.1], cap))
  }

  lemma {:induction false} PromotedJoins(s: Groups, p: Pair, cap: nat)
    ensures var t := Promoted(s, p, cap);
      && (SameGroup(t, p) <==> CanJoin(s, p, cap) || SameGroup(s, p))
      && (SameGroup(t, p) <==> p.0 in t.explicit && p.1 in t.explicit && t.explicit[p.0] == t.explicit[p.1])
  {
    hide LearnedName;
  }

  /** A pair at the threshold ends in one group if the two were together or could join when the
      pair's turn came: learning later pairs does not part them. */
  lemma {:induction false} LearningCoLocates(s: Groups, order: seq<Pair>, scores: Scores, threshold: real, cap: nat, k: nat)
    requires k < |order| && Score(scores, order[k]) >= threshold
    ensures var before := PromotedAll(s, order[..k], scores, threshold, cap);
      (CanJoin(before, order[k], cap) || SameGroup(before, order[k])) ==>
        SameGroup(PromotedAll(s, order, scores, threshold, cap), order[k])
    decreases |order|
  {
    var n := |order| - 1;
    var head := order[..n];
    if k < n {
      assert head[..k] == order[..k];
      LearningCoLocates(s, head, scores, threshold, cap, k);
      hide SameGroup, LearnedName;
      StaysTogether(PromotedAll(s, head, scores, threshold, cap), order[k], order[n], cap);
    } else {
      PromotedJoins(PromotedAll(s, head, scores, threshold, cap), order[k], cap);
    }
  }

  lemma StaysTogether(s: Groups, p: Pair, q: Pair, cap: nat)
    ensures SameGroup(s, p) ==> SameGroup(Promoted(s, q, cap), p)
  {
    hide LearnedName;
  }

  datatype Config = Config(maxGroupSize: nat, decayFactor: real, learnThreshold: real)

  class Wal {
    var records: seq<Record>

    constructor ()
      ensures records == []
    {
      records := [];
    }
  }

  class AffinityIndex {
    var explicit: map<Id, Id>
    var implicit: Scores
    var groups: map<Id, Group>

    ghost function State(): Groups
      reads this
    {
      Groups(explicit, groups)
    }

    constructor ()
      ensures State() == NO_GROUPS && implicit == map[]
    {
      explicit, implicit, groups := map[], map[], map[];
    }

    method CreateGroup(gid: Id) returns (r: Outcome)
      modifies this`groups
      ensures r == if gid in old(groups) then Failed(AlreadyExists) else Done
      ensures State() == Created(old(State()), gid)
    {
      if gid in groups {
        return Failed(AlreadyExists);
      }
      groups := groups[gid := Group({}, false)];
      r := Done;
    }

    method AddToGroup(entity: Id, gid: Id, maxSize: nat) returns (r: Outcome)
      modifies this`explicit, this`groups
      ensures r == if gid !in old(groups) then Failed(NotFound)
                   else if |old(groups)[gid].members| >= maxSize then Failed(Full)
                   else Done
      ensures State() == Added(old(State()), entity, gid, maxSize)
    {
      if gid !in groups {
        return Failed(NotFound);
      }
      var g := groups[gid];
      if |g.members| >= maxSize {
        return Failed(Full);
      }
      groups := groups[gid := g.(members := g.members + {entity})];
      explicit := explicit[entity := gid];
      r := Done;
    }

    method RemoveFromGroup(entity: Id)
      modifies this`explicit, this`groups
      ensures State() == Removed(old(State()), entity)
    {
      if entity in explicit {
        var gid := explicit[entity];
        explicit := explicit - {entity};
        if gid in groups {
          groups := groups[gid := groups[gid].(members := groups[gid].members - {entity})];
        }
      }
    }

    /** The logged forms check, commit one record, then apply. */
    method CreateGroupLogged(gid: Id, wal: Wal, commits: bool) returns (r: Outcome)
      modifies this`groups, wal
      ensures Live(State(), wal.records) == Stepped(old(Live(State(), wal.records)), Step(Create(gid), commits))
      ensures r == if gid in old(groups) then Failed(AlreadyExists) else if !commits then Failed(WalCommit) else Done
    {
      if gid in groups {
        return Failed(AlreadyExists);
      }
      if !commits {
        return Failed(WalCommit);
      }
      wal.records := wal.records + [GroupCreate(gid)];
      r := CreateGroup(gid);
    }

    method AddToGroupLogged(entity: Id, gid: Id, maxSize: nat, wal: Wal, commits: bool) returns (r: Outcome)
      modifies this`explicit, this`groups, wal
      ensures Live(State(), wal.records) == Stepped(old(Live(State(), wal.records)), Step(Add(entity, gid, maxSize), commits))
      ensures r == if gid !in old(groups) then Failed(NotFound)
                   else if |old(groups)[gid].members| >= maxSize then Failed(Full)
                   else if !commits then Failed(WalCommit)
                   else Done
    {
      if gid !in groups {
        return Failed(NotFound);
      }
      if |groups[gid].members| >= maxSize {
        return Failed(Full);
      }
      if !commits {
        return Failed(WalCommit);
      }
      wal.records := wal.records + [GroupMember(gid, entity)];
      r := AddToGroup(entity, gid, maxSize);
    }

    method RemoveFromGroupLogged(entity: Id, wal: Wal, commits: bool) returns (r: Outcome)
      modifies this`explicit, this`groups, wal
      ensures Live(State(), wal.records) == Stepped(old(Live(State(), wal.records)), Step(Remove(entity), commits))
      ensures r == if entity in old(explicit) && !commits then Failed(WalCommit) else Done
    {
      if entity in explicit {
        if !commits {
          return Failed(WalCommit);
        }
        wal.records := wal.records + [GroupRemove(entity, explicit[entity])];
        RemoveFromGroup(entity);
      }
      r := Done;
    }

    method ReplayRecord(r: Record, maxGroupSize: nat)
      modifies this`explicit, this`groups
      ensures State() == Replayed(old(State()), r, maxGroupSize)
    {
      match r {
        case GroupCreate(gid) =>
          var _ := CreateGroup(gid);
        case GroupMember(gid, entity) =>
          var _ := AddToGroup(entity, gid, maxGroupSize);
        case GroupRemove(entity, _) =>
          RemoveFromGroup(entity);
        case Undecodable =>
      }
    }

    method RecordCooccurrence(results: seq<Id>)
      modifies this`implicit
      ensures implicit == Recorded(old(implicit), results)
    {
      if |results| < 2 {
        return;
      }
      var increment := 1.0 / (|results| - 1) as real;
      for i := 0 to |results|
        invariant implicit == RowsRecorded(old(implicit), results, i, increment)
      {
        ghost var before := implicit;
        for j := i + 1 to |results|
          invariant implicit == RowRecorded(before, results, i, j, increment)
        {
          var key := CanonicalPair(results[i], results[j]);
          implicit := implicit[key := (if key in implicit then implicit[key] else 0.0) + increment];
        }
      }
    }

    method CreateImplicitGroup(a: Id, b: Id, maxSize: nat)
      modifies this`explicit, this`groups
      ensures State() == Promoted(old(State()), (a, b), maxSize)
    {
      if a in explicit && b in explicit {
      } else if a in explicit {
        var _ := AddToGroup(b, explicit[a], maxSize);
      } else if b in explicit {
        var _ := AddToGroup(a, explicit[b], maxSize);
      } else {
        var gid := LearnedName(a, b);
        groups := groups[gid := Group({a, b}, true)];
        explicit := explicit[a := gid];
        explicit := explicit[b := gid];
      }
    }

    /** `order` is the order in which the pairs happen to be visited. */
    method PromoteAndDecay(cfg: Config, order: seq<Pair>)
      requires Visits(order, implicit)
      modifies this
      ensures State() == PromotedAll(old(State()), order, old(implicit), cfg.learnThreshold, cfg.maxGroupSize)
      ensures implicit == Decayed(old(implicit), cfg.decayFactor)
    {
      Promote(cfg, order);
      DecayScores(cfg.decayFactor);
    }

    method Promote(cfg: Config, order: seq<Pair>)
      requires Visits(order, implicit)
      modifies this`explicit, this`groups
      ensures State() == PromotedAll(old(State()), order, implicit, cfg.learnThreshold, cfg.maxGroupSize)
    {
      hide Promoted;
      var n := |order|;
      for i := 0 to n
        invariant State() == PromotedAll(old(State()), order[..i], implicit, cfg.learnThreshold, cfg.maxGroupSize)
      {
        assert order[..i + 1][..i] == order[..i];
        if implicit[order[i]] >= cfg.learnThreshold {
          CreateImplicitGroup(order[i].0, order[i].1, cfg.maxGroupSize);
        }
      }
      assert order[..n] == order;
    }

    method DecayScores(factor: real)
      modifies this`implicit
      ensures implicit == Decayed(old(implicit), factor)
    {
      implicit := map k | k in implicit :: implicit[k] * factor;
      implicit := map k | k in implicit && implicit[k] >= 0.01 :: implicit[k];
    }
  }
}
