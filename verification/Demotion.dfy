/** Concurrent demotions of one entity as interleaved steps, with crash points everywhere. */
module Demotion {
  import opened Basics
  import opened Location
  import opened Recovery

  /** Program points of one demotion. `Stuck` is a run that failed after taking the migrating
      state and before giving it back; `Finished` covers success and every other failure. */
  datatype Pc = Start | Marked | Logged | HasData | Written | Unindexed | Relocated | Unlocked | Finished | Stuck

  datatype Run = Run(from: Partition, to: Partition, pc: Pc) {
    predicate Demotes() { (from == Hot && to == Warm) || (from == Warm && to == Cold) }
    predicate Critical() { pc in {Marked, Logged, HasData, Written, Unindexed, Relocated, Stuck} }
    predicate WroteTarget() { pc in {Written, Unindexed, Relocated, Unlocked} }
    function AsMove(): Move { Move(from, to) }
  }

  /** The partitions holding the entity, its location entry, the log and the runs. */
  datatype Sys = Sys(holding: set<Partition>, state: LocState, tier: Partition, log: seq<Move>, runs: seq<Run>)

  ghost predicate Initial(s: Sys) {
    && s.state != Migrating
    && forall i :: 0 <= i < |s.runs| ==> s.runs[i].Demotes() && s.runs[i].pc == Start
  }

  function At(s: Sys, i: nat, pc: Pc): Sys
    requires i < |s.runs|
  {
    s.(runs := s.runs[i := s.runs[i].(pc := pc)])
  }

  /** The successful outcome of the next step of run `i`, where it has one. */
  ghost predicate RunStep(s: Sys, t: Sys, i: nat)
    requires i < |s.runs|
  {
    var r := s.runs[i];
    match r.pc
    case Start => s.state == Clean && t == At(s, i, Marked).(state := Migrating)
    case Marked => t == At(s, i, Logged).(log := s.log + [r.AsMove()])
    case Logged => r.from in s.holding && t == At(s, i, HasData)
    case HasData => t == At(s, i, Written).(holding := s.holding + {r.to})
    case Written => t == At(s, i, Unindexed)
    case Unindexed => t == At(s, i, Relocated).(tier := r.to)
    case Relocated => t == At(s, i, Unlocked).(state := Clean)
    case Unlocked => t == At(s, i, Finished).(holding := s.holding - {r.from})
    case Finished => false
    case Stuck => false
  }

  /** Run `i` gives up: the migrating state is refused, a read finds nothing, or any storage,
      codec or log operation fails. A run that fails inside keeps the migrating state. */
  ghost predicate FailStep(s: Sys, t: Sys, i: nat)
    requires i < |s.runs|
  {
    match s.runs[i].pc
    case Start => t == At(s, i, Finished)
    case Unlocked => t == At(s, i, Finished)
    case Finished => false
    case Stuck => false
    case _ => t == At(s, i, Stuck)
  }

  /** Other actors move the entry along its other transitions. */
  ghost predicate EnvironmentStep(s: Sys, t: Sys) {
    s.state != Migrating && t.state != Migrating && CanTransition(s.state, t.state) && t == s.(state := t.state)
  }

  ghost predicate Next(s: Sys, t: Sys) {
    || EnvironmentStep(s, t)
    || exists i :: 0 <= i < |s.runs| && (RunStep(s, t, i) || FailStep(s, t, i))
  }

  /** Every run may step or give up at any moment, and the entry may move along any legal transition
      that neither begins nor ends migrating. */
  lemma AnyoneMoves(s: Sys, t: Sys, i: nat, state: LocState)
    ensures i < |s.runs| && (RunStep(s, t, i) || FailStep(s, t, i)) ==> Next(s, t)
    ensures s.state == Clean && state == Dirty ==> Next(s, s.(state := state))
    ensures s.state == Dirty && state == Recomputing ==> Next(s, s.(state := state))
    ensures s.state == Recomputing && state == Clean ==> Next(s, s.(state := state))
  {}

  ghost predicate Trace(states: seq<Sys>) {
    && states != []
    && Initial(states[0])
    && forall k :: 0 < k < |states| ==> Next(states[k - 1], states[k])
  }

  // ----- safety -----

  function Rank(p: Partition): nat {
    match p case Hot => 0 case Warm => 1 case Cold => 2
  }

  /** The entity is held at `rank` or colder. */
  ghost predicate HeldBeyond(h: set<Partition>, rank: nat) {
    exists p :: p in h && Rank(p) >= rank
  }

  /** The migrating state is held exactly by the runs inside, of which there is at most one,
      and a run that wrote its target still finds a copy there or colder. */
  ghost predicate Inv(s: Sys) {
    && (forall i :: 0 <= i < |s.runs| ==> s.runs[i].Demotes())
    && (s.state == Migrating <==> exists i :: 0 <= i < |s.runs| && s.runs[i].Critical())
    && (forall i, j :: 0 <= i < |s.runs| && 0 <= j < |s.runs| && s.runs[i].Critical() && s.runs[j].Critical() ==> i == j)
    && (forall i :: 0 <= i < |s.runs| && s.runs[i].WroteTarget() ==> HeldBeyond(s.holding, Rank(s.runs[i].to)))
    && s.holding != {}
  }

  lemma {:induction false} InitialInv(s: Sys)
    requires Initial(s) && s.holding != {}
    ensures Inv(s)
  {}

  /** The coldest partition holding the entity never gets hotter. */
  lemma {:induction false} StepKeepsColdest(s: Sys, t: Sys, rank: nat)
    requires Inv(s) && Next(s, t) && HeldBeyond(s.holding, rank)
    ensures HeldBeyond(t.holding, rank)
  {
    if i :| 0 <= i < |s.runs| && RunStep(s, t, i) {
      var r := s.runs[i];
      var p :| p in s.holding && Rank(p) >= rank;
      if r.pc == Unlocked {
        var q :| q in s.holding && Rank(q) >= Rank(r.to);
        assert r.Demotes() && Rank(r.to) > Rank(r.from);
        assert q in t.holding && (p == r.from || p in t.holding);
      } else {
        assert p in t.holding;
      }
    }
  }

  lemma WrittenHeld(s: Sys, t: Sys, i: nat)
    requires Inv(s) && Next(s, t) && i < |t.runs| && t.runs[i].WroteTarget()
    ensures HeldBeyond(t.holding, Rank(t.runs[i].to))
  {
    RunKept(s, t, i);
    hide Inv, Next;
    if s.runs[i].WroteTarget() {
      assert HeldBeyond(s.holding, Rank(s.runs[i].to)) by { WroteHeld(s, i); }
      StepKeepsColdest(s, t, Rank(s.runs[i].to));
    } else {
      assert s.runs[i].to in t.holding;
    }
  }

  lemma WroteHeld(s: Sys, i: nat)
    requires Inv(s) && i < |s.runs| && s.runs[i].WroteTarget()
    ensures HeldBeyond(s.holding, Rank(s.runs[i].to))
  {}

  /** No step changes where a run goes, and the one after which it has written puts its target there. */
  lemma RunKept(s: Sys, t: Sys, i: nat)
    requires Next(s, t) && i < |t.runs|
    ensures |s.runs| == |t.runs| && s.runs[i].to == t.runs[i].to
    ensures t.runs[i].WroteTarget() && !s.runs[i].WroteTarget() ==> t.runs[i].to in t.holding
  {
    if !EnvironmentStep(s, t) {
      var j :| 0 <= j < |s.runs| && (RunStep(s, t, j) || FailStep(s, t, j));
      OnlyOneMoves(s, t, j);
      hide RunStep, FailStep, EnvironmentStep, Next;
    }
  }

  lemma OnlyOneMoves(s: Sys, t: Sys, j: nat)
    requires j < |s.runs| && (RunStep(s, t, j) || FailStep(s, t, j))
    ensures |s.runs| == |t.runs| && s.runs[j].to == t.runs[j].to
    ensures forall i :: 0 <= i < |s.runs| && i != j ==> t.runs[i] == s.runs[i]
    ensures t.runs[j].WroteTarget() && !s.runs[j].WroteTarget() ==> t.runs[j].to in t.holding
  {}

  lemma StepInv(s: Sys, t: Sys)
    requires Inv(s) && Next(s, t)
    ensures Inv(t)
  {
    var p :| p in s.holding;
    assert HeldBeyond(s.holding, 0);
    StepKeepsColdest(s, t, 0);
    forall i | 0 <= i < |t.runs| && t.runs[i].WroteTarget() ensures HeldBeyond(t.holding, Rank(t.runs[i].to)) {
      WrittenHeld(s, t, i);
    }
    StepExclusion(s, t);
    hide Next, HeldBeyond;
  }

  /** A writer that sets the entry's state without asking keeps the invariant exactly when it
      neither ends nor begins the migrating state. */
  lemma StateWriteKeepsIff(s: Sys, state: LocState)
    requires Inv(s)
    ensures Inv(s.(state := state)) <==> (state == Migrating <==> s.state == Migrating)
  {
    var t := s.(state := state);
    assert t.runs == s.runs && t.holding == s.holding;
  }

  lemma StepExclusion(s: Sys, t: Sys)
    requires Inv(s) && Next(s, t)
    ensures forall i :: 0 <= i < |t.runs| ==> t.runs[i].Demotes()
    ensures t.state == Migrating <==> exists i :: 0 <= i < |t.runs| && t.runs[i].Critical()
    ensures forall i, j :: 0 <= i < |t.runs| && 0 <= j < |t.runs| && t.runs[i].Critical() && t.runs[j].Critical() ==> i == j
  {
    if !EnvironmentStep(s, t) {
      var i :| 0 <= i < |s.runs| && (RunStep(s, t, i) || FailStep(s, t, i));
      StepOwner(s, t, i);
      hide RunStep, FailStep, EnvironmentStep, Next;
      if !t.runs[i].Critical() && t.state == Migrating {
        var j :| 0 <= j < |s.runs| && s.runs[j].Critical();
        assert t.runs[j].Critical();
      }
    }
  }

  /** What one step of run `i` does to the migrating state. */
  lemma StepOwner(s: Sys, t: Sys, i: nat)
    requires Inv(s) && i < |s.runs| && (RunStep(s, t, i) || FailStep(s, t, i))
    ensures |t.runs| == |s.runs| && t.runs[i].Demotes()
    ensures forall j :: 0 <= j < |s.runs| && j != i ==> t.runs[j] == s.runs[j]
    ensures t.runs[i].Critical() ==> t.state == Migrating && forall j :: 0 <= j < |s.runs| && j != i ==> !s.runs[j].Critical()
    ensures !t.runs[i].Critical() ==> if s.runs[i].Critical() then t.state != Migrating else t.state == s.state
  {
    if s.runs[i].Critical() {
      assert s.state == Migrating;
    }
  }

  /** In every interleaving of any number of demotions, at every moment: the entity is in at
      least one tier, at most one run is inside, and the coldest tier holding the entity at an
      earlier moment bounds every later one. */
  lemma {:induction false} DemotionSafety(states: seq<Sys>, k: nat, m: nat)
    requires Trace(states) && states[0].holding != {} && k <= m < |states|
    ensures Inv(states[m])
    ensures forall rank :: HeldBeyond(states[k].holding, rank) ==> HeldBeyond(states[m].holding, rank)
    decreases m
  {
    if m == 0 {
      InitialInv(states[0]);
    } else {
      DemotionSafety(states, if k < m then k else m - 1, m - 1);
      assert Next(states[m - 1], states[m]);
      StepInv(states[m - 1], states[m]);
      if k < m {
        forall rank | HeldBeyond(states[k].holding, rank) ensures HeldBeyond(states[m].holding, rank) {
          StepKeepsColdest(states[m - 1], states[m], rank);
        }
      }
    }
  }

  // ----- crash at any moment, then recovery -----

  const TO_WARM: Move := Move(Hot, Warm)
  const TO_COLD: Move := Move(Warm, Cold)
  const TO_HOT: Move := Move(Warm, Hot)

  /** Only moves the migrator ever logs: the two demotions and the promotion. */
  ghost predicate Migrations(log: seq<Move>) {
    forall k :: 0 <= k < |log| ==> log[k] in {TO_WARM, TO_COLD, TO_HOT}
  }

  /** The next demotion of any copy held brings source and target to one destination. */
  ghost predicate Keeps(h: set<Partition>, log: seq<Move>) {
    && (Hot in h ==> (Dest(log, Hot) == Cold <==> Dest(log, Warm) == Cold))
    && (Warm in h ==> Dest(log, Warm) != Hot)
  }

  /** A hot copy that the log moves ends where a warm one does. */
  ghost predicate Merged(log: seq<Move>) {
    TO_WARM in log ==> Dest(log, Hot) == Dest(log, Warm)
  }

  /** Run `i` has logged and has not (yet) seen its source. */
  predicate Unconfirmed(r: Run) {
    r.pc == Logged || r.pc == Stuck
  }

  ghost predicate Confirmed(s: Sys) {
    forall i :: 0 <= i < |s.runs| ==> !Unconfirmed(s.runs[i])
  }

  /** Source and target of a run that has logged have one destination, also for what follows. */
  ghost predicate Ready(h: set<Partition>, log: seq<Move>, r: Run) {
    Dest(log, r.from) == Dest(log, r.to) && Keeps(h + {r.to}, log)
  }

  /** What relates the log to the copies: all copies have one destination under it, and so will
      those that the run inside, or else any next run, makes. */
  ghost predicate LogInv(s: Sys) {
    && Migrations(s.log)
    && Agree(s.holding, s.log)
    && (Hot in s.holding ==> Merged(s.log))
    && (forall i :: 0 <= i < |s.runs| && s.runs[i].pc == Logged && s.runs[i].from in s.holding ==>
      Ready(s.holding, s.log, s.runs[i]))
    && (forall i :: 0 <= i < |s.runs| && s.runs[i].pc == HasData ==>
      Agree(s.holding + {s.runs[i].from}, s.log) && Ready(s.holding, s.log, s.runs[i]))
    && (Confirmed(s) ==> Keeps(s.holding, s.log))
  }

  /** With a hot copy that comes back when the engine opens, the log sends that one along too. */
  ghost predicate HotInv(s: Sys, effect: Effect) {
    effect == HotBack ==> Agree(s.holding + {Hot}, s.log) && Merged(s.log)
  }

  lemma DestAppend(log: seq<Move>, m: Move, p: Partition)
    ensures Dest(log + [m], p) == StepOf(m, Dest(log, p))
  {
    assert (log + [m])[..|log|] == log;
  }

  /** Where a log of migrations sends each partition. */
  lemma {:induction false} DestOfMigrations(log: seq<Move>)
    requires Migrations(log)
    ensures Dest(log, Cold) == Cold
    ensures TO_WARM !in log ==> Dest(log, Hot) == Hot
    ensures TO_HOT !in log ==> Dest(log, Warm) == if TO_COLD in log then Cold else Warm
    ensures TO_HOT !in log && TO_WARM in log ==> Dest(log, Hot) != Hot
    ensures TO_WARM in log || TO_HOT in log ==> Dest(log, Warm) == Cold || Dest(log, Hot) == Dest(log, Warm)
    ensures log != [] && log[0] == TO_WARM ==> Dest(log, Hot) == Dest(log, Warm)
    decreases |log|
  {
    if log != [] {
      var n := |log| - 1;
      var init := log[..n];
      assert log == init + [log[n]];
      DestOfMigrations(init);
      if n == 0 {
        assert init == [];
        assert forall m :: m in log ==> m == log[0];
        assert log[0] in log;
      } else {
        assert init[0] == log[0];
      }
    }
  }

  lemma InitialLogInv(s: Sys, p: Partition)
    requires Initial(s) && s.holding == {p} && Migrations(s.log) && Keeps({p}, s.log)
    ensures LogInv(s)
  {
    DestOfMigrations(s.log);
  }

  /** Steps that change neither the log nor the copies. */
  lemma QuietStep(s: Sys, t: Sys, i: nat)
    requires LogInv(s) && i < |s.runs| && (RunStep(s, t, i) || FailStep(s, t, i))
    requires s.runs[i].pc !in {Start, Marked, Logged, HasData, Unlocked} || FailStep(s, t, i)
    ensures LogInv(t)
  {
    QuietEffect(s, t, i);
    hide RunStep, FailStep, Agree, Keeps, Merged, Migrations, Ready;
    forall j | 0 <= j < |t.runs| && t.runs[j].pc in {Logged, HasData} ensures t.runs[j] == s.runs[j] {}
    if Confirmed(t) {
      forall j | 0 <= j < |s.runs| ensures !Unconfirmed(s.runs[j]) {
        assert !Unconfirmed(t.runs[j]);
      }
    }
  }

  lemma QuietEffect(s: Sys, t: Sys, i: nat)
    requires i < |s.runs| && (RunStep(s, t, i) || FailStep(s, t, i))
    requires s.runs[i].pc !in {Start, Marked, Logged, HasData, Unlocked} || FailStep(s, t, i)
    ensures t.log == s.log && t.holding == s.holding && |t.runs| == |s.runs|
    ensures forall j :: 0 <= j < |s.runs| && j != i ==> t.runs[j] == s.runs[j]
    ensures t.runs[i].pc !in {Logged, HasData} && (Unconfirmed(s.runs[i]) ==> Unconfirmed(t.runs[i]))
  {}

  lemma MarkStep(s: Sys, t: Sys, i: nat)
    requires LogInv(s) && i < |s.runs| && s.runs[i].pc == Start && RunStep(s, t, i)
    ensures LogInv(t)
  {
    assert t.log == s.log && t.holding == s.holding && |t.runs| == |s.runs|;
    assert forall j :: 0 <= j < |s.runs| && j != i ==> t.runs[j] == s.runs[j];
    assert t.runs[i].pc == Marked;
    hide RunStep, Agree, Keeps, Merged, Migrations, Ready;
    if Confirmed(t) {
      forall j | 0 <= j < |s.runs| ensures !Unconfirmed(s.runs[j]) {
        assert j != i ==> !Unconfirmed(t.runs[j]);
      }
    }
  }

  /** Logging a demotion, with `x` for the destinations before it. */
  lemma LogMove(h: set<Partition>, log: seq<Move>, r: Run)
    requires Migrations(log) && Agree(h, log) && Keeps(h, log) && (Hot in h ==> Merged(log)) && r.Demotes()
    ensures var next := log + [r.AsMove()];
      && Migrations(next) && Agree(h, next) && (Hot in h ==> Merged(next))
      && (r.from in h ==> Ready(h, next, r))
  {
    var next := log + [r.AsMove()];
    DestOfMigrations(log);
    forall p: Partition ensures Dest(next, p) == StepOf(r.AsMove(), Dest(log, p)) {
      DestAppend(log, r.AsMove(), p);
    }
    hide Dest;
    if Hot in h && r.from == Warm {
      assert TO_WARM in next ==> TO_WARM in log;
    }
  }

  lemma LogStep(s: Sys, t: Sys, i: nat)
    requires Inv(s) && LogInv(s) && i < |s.runs| && s.runs[i].pc == Marked && RunStep(s, t, i)
    ensures LogInv(t)
  {
    var r := s.runs[i];
    assert r.Critical() && r.Demotes();
    assert forall j :: 0 <= j < |s.runs| && j != i ==> t.runs[j] == s.runs[j] && !s.runs[j].Critical();
    assert Confirmed(s) by {
      forall j | 0 <= j < |s.runs| ensures !Unconfirmed(s.runs[j]) {
        assert j != i ==> !s.runs[j].Critical();
      }
    }
    LogMove(s.holding, s.log, r);
    assert t.log == s.log + [r.AsMove()] && t.holding == s.holding && |t.runs| == |s.runs|;
    assert t.runs[i] == r.(pc := Logged);
    hide RunStep, Inv, Agree, Keeps, Merged, Migrations;
    assert Unconfirmed(t.runs[i]);
  }

  lemma ReadStep(s: Sys, t: Sys, i: nat)
    requires Inv(s) && LogInv(s) && i < |s.runs| && s.runs[i].pc == Logged && RunStep(s, t, i)
    ensures LogInv(t)
  {
    var r := s.runs[i];
    assert r.Critical();
    assert forall j :: 0 <= j < |s.runs| && j != i ==> t.runs[j] == s.runs[j] && !s.runs[j].Critical();
    assert t.log == s.log && t.holding == s.holding && |t.runs| == |s.runs| && t.runs[i] == r.(pc := HasData);
    assert s.holding + {r.from} == s.holding;
    assert Keeps(s.holding + {r.to}, s.log) ==> Keeps(s.holding, s.log);
    hide RunStep, Inv, Agree, Keeps, Merged, Migrations;
  }

  lemma WriteStep(s: Sys, t: Sys, i: nat)
    requires Inv(s) && LogInv(s) && i < |s.runs| && s.runs[i].pc == HasData && RunStep(s, t, i)
    ensures LogInv(t)
  {
    var r := s.runs[i];
    assert r.Critical() && r.Demotes();
    assert forall j :: 0 <= j < |s.runs| && j != i ==> t.runs[j] == s.runs[j] && !s.runs[j].Critical();
    assert t.log == s.log && t.holding == s.holding + {r.to} && |t.runs| == |s.runs| && t.runs[i].pc == Written;
    hide RunStep, Inv, Keeps, Merged, Migrations, Dest;
    forall p, q | p in t.holding && q in t.holding ensures Dest(t.log, p) == Dest(t.log, q) {
      var p', q' := if p == r.to then r.from else p, if q == r.to then r.from else q;
      assert p' in s.holding + {r.from} && q' in s.holding + {r.from};
    }
  }

  lemma DeleteStep(s: Sys, t: Sys, i: nat)
    requires LogInv(s) && i < |s.runs| && s.runs[i].pc == Unlocked && RunStep(s, t, i)
    ensures LogInv(t)
  {
    assert forall j :: 0 <= j < |s.runs| && j != i ==> t.runs[j] == s.runs[j];
    assert t.log == s.log && t.holding <= s.holding && |t.runs| == |s.runs| && t.runs[i].pc == Finished;
    hide RunStep, Merged, Migrations, Dest;
    forall j | 0 <= j < |t.runs| && t.runs[j].pc == HasData
      ensures Agree(t.holding + {t.runs[j].from}, t.log)
    {
      assert Agree(s.holding + {s.runs[j].from}, s.log);
    }
    if Confirmed(t) {
      forall j | 0 <= j < |s.runs| ensures !Unconfirmed(s.runs[j]) {
        assert j != i ==> !Unconfirmed(t.runs[j]);
      }
    }
  }

  lemma StepLogInv(s: Sys, t: Sys)
    requires Inv(s) && LogInv(s) && Next(s, t)
    ensures LogInv(t)
  {
    if !EnvironmentStep(s, t) {
      var i :| 0 <= i < |s.runs| && (RunStep(s, t, i) || FailStep(s, t, i));
      hide Inv, LogInv;
      if FailStep(s, t, i) {
        QuietStep(s, t, i);
      } else {
        match s.runs[i].pc {
          case Start => MarkStep(s, t, i);
          case Marked => LogStep(s, t, i);
          case Logged => ReadStep(s, t, i);
          case HasData => WriteStep(s, t, i);
          case Unlocked => DeleteStep(s, t, i);
          case _ => QuietStep(s, t, i);
        }
      }
    }
  }

  /** The two steps that matter to a hot copy that comes back. */
  lemma LogHot(h: set<Partition>, log: seq<Move>, r: Run)
    requires Migrations(log) && h != {} && Agree(h + {Hot}, log) && Keeps(h, log) && Merged(log) && r.Demotes()
    ensures Agree(h + {Hot}, log + [r.AsMove()]) && Merged(log + [r.AsMove()])
  {
    DestOfMigrations(log);
    forall p: Partition ensures Dest(log + [r.AsMove()], p) == StepOf(r.AsMove(), Dest(log, p)) {
      DestAppend(log, r.AsMove(), p);
    }
    var p :| p in h;
    assert p in h + {Hot} && Hot in h + {Hot};
    assert Dest(log, p) == Dest(log, Hot);
    hide Dest, Migrations;
    assert p == Hot || p == Warm || p == Cold;
    assert Dest(log, Hot) == Hot ==> Dest(log, Warm) != Cold;
    assert r.from == Warm && TO_WARM in log + [r.AsMove()] ==> TO_WARM in log;
  }

  lemma WriteHot(h: set<Partition>, log: seq<Move>, r: Run)
    requires h != {} && Agree(h + {Hot}, log) && Agree(h + {r.from}, log) && Ready(h, log, r)
    ensures Agree(h + {r.to} + {Hot}, log)
  {
    hide Keeps, Dest;
    var p :| p in h;
    assert p in h + {Hot} && p in h + {r.from};
    assert Hot in h + {Hot} && r.from in h + {r.from};
    forall q | q in h + {r.to} + {Hot} ensures Dest(log, q) == Dest(log, p) {
      assert q != r.to ==> q in h + {Hot};
    }
  }

  /** Steps that leave the log and take no copy a hot one could be parted from. */
  lemma ShrinkHot(s: Sys, t: Sys, effect: Effect)
    requires HotInv(s, effect) && t.log == s.log && t.holding <= s.holding
    ensures HotInv(t, effect)
  {}

  lemma StepHotInv(s: Sys, t: Sys, effect: Effect)
    requires Inv(s) && LogInv(s) && HotInv(s, effect) && Next(s, t)
    ensures HotInv(t, effect)
  {
    if i :| 0 <= i < |s.runs| && RunStep(s, t, i) && s.runs[i].pc in {Marked, HasData} {
      var r := s.runs[i];
      if r.pc == Marked {
        assert r.Critical() && r.Demotes();
        assert t.log == s.log + [r.AsMove()] && t.holding == s.holding;
        assert Confirmed(s) by {
          forall j | 0 <= j < |s.runs| ensures !Unconfirmed(s.runs[j]) {
            assert j != i ==> !s.runs[j].Critical();
          }
        }
        hide Inv, RunStep, Agree, Merged, Keeps, Migrations;
        if effect == HotBack { LogHot(s.holding, s.log, r); }
      } else {
        assert t.log == s.log && t.holding == s.holding + {r.to};
        assert Agree(s.holding + {r.from}, s.log) && Ready(s.holding, s.log, r);
        hide Inv, LogInv, RunStep, Agree, Merged, Ready;
        if effect == HotBack { WriteHot(s.holding, s.log, r); }
      }
    } else {
      QuietLog(s, t);
      ShrinkHot(s, t, effect);
    }
  }

  lemma QuietLog(s: Sys, t: Sys)
    requires Next(s, t)
    requires forall i :: 0 <= i < |s.runs| && RunStep(s, t, i) ==> s.runs[i].pc !in {Marked, HasData}
    ensures t.log == s.log && t.holding <= s.holding
  {}

  /** A trace of demotions that begins with one copy, at `p`, and the log of earlier lives. */
  ghost predicate Restart(states: seq<Sys>, p: Partition, log: seq<Move>) {
    Trace(states) && states[0].holding == {p} && states[0].log == log
  }

  /** What a restart with one copy at `p` asks of the log: the next demotion of the copy does not
      part it from its target and, where a write of the entity is re-applied on each opening,
      the hot copy it makes ends where the copy itself does. */
  ghost predicate Restartable(p: Partition, log: seq<Move>, effect: Effect) {
    match effect
    case Untouched => Keeps({p}, log)
    case HotBack => Keeps({p}, log) && Agree({p, Hot}, log)
    case HotOnly => true
    case Erased => false
  }

  lemma InitialHotInv(s: Sys, p: Partition)
    requires s.holding == {p} && Migrations(s.log) && Restartable(p, s.log, HotBack)
    ensures HotInv(s, HotBack)
  {
    DestOfMigrations(s.log);
    assert s.holding + {Hot} == {p, Hot};
  }

  lemma {:induction false} ReachableLogInv(states: seq<Sys>, m: nat, p: Partition, log: seq<Move>, effect: Effect)
    requires Restart(states, p, log) && Migrations(log) && Restartable(p, log, effect) && m < |states|
    requires effect == Untouched || effect == HotBack
    ensures Inv(states[m]) && LogInv(states[m]) && HotInv(states[m], effect)
  {
    if m == 0 {
      InitialInv(states[0]);
      InitialLogInv(states[0], p);
      if effect == HotBack { InitialHotInv(states[0], p); }
    } else {
      ReachableLogInv(states, m - 1, p, log, effect);
      assert Next(states[m - 1], states[m]);
      hide Inv, LogInv, HotInv, Next, Restart;
      StepInv(states[m - 1], states[m]);
      StepLogInv(states[m - 1], states[m]);
      StepHotInv(states[m - 1], states[m], effect);
    }
  }

  lemma {:induction false} DestSplit(log: seq<Move>, k: nat, p: Partition)
    requires k <= |log|
    ensures Dest(log, p) == Dest(log[k..], Dest(log[..k], p))
    decreases |log|
  {
    var n := |log| - 1;
    if k == |log| {
      assert log[..k] == log && log[k..] == [];
    } else {
      assert log[..n][..k] == log[..k] && log[k..][..n - k] == log[..n][k..];
      DestSplit(log[..n], k, p);
    }
  }

  /** Wherever a recovery stops, what it has moved so far ends where it would have ended. */
  lemma StopAnywhere(log: seq<Move>, k: nat, q: Partition)
    requires Migrations(log) && k <= |log| && (q == Hot ==> Merged(log))
    ensures var stop := Dest(log[..k], q);
      Dest(log, stop) == Dest(log, q) && (stop == Hot ==> Merged(log))
  {
    var head, tail := log[..k], log[k..];
    DestOfMigrations(log);
    DestOfMigrations(head);
    DestOfMigrations(tail);
    DestSplit(log, k, Hot);
    DestSplit(log, k, Warm);
    DestSplit(log, k, Cold);
    assert (TO_WARM in head ==> TO_WARM in log) && (TO_HOT in head ==> TO_HOT in log);
    hide Dest, Migrations;
  }

  /** The copies of a reachable state lie in a funnel of its log, the hot one that comes back
      included. */
  lemma ReachableFunnel(s: Sys, effect: Effect) returns (a: set<Partition>, t: Partition)
    requires Inv(s) && LogInv(s) && HotInv(s, effect) && (effect == Untouched || effect == HotBack)
    ensures Funnel(a, s.log, t) && AfterOpen(s.holding, effect) <= a && Proper(s.log)
    ensures forall p :: p in s.holding ==> Dest(s.log, p) == t
  {
    var p :| p in s.holding;
    t := Dest(s.log, p);
    a := set q: Partition | Dest(s.log, q) == t && (q == Hot ==> Merged(s.log));
    forall q, k | q in a && 0 <= k <= |s.log| ensures Dest(s.log[..k], q) in a {
      StopAnywhere(s.log, k, q);
    }
    assert effect == HotBack ==> p in s.holding + {Hot} && Hot in s.holding + {Hot};
  }

  /** From any tiers and log of this shape, a restart leaves exactly one copy, however often it
      is interrupted first. The log may mention other entities. */
  ghost predicate Recovers(s: Sys, effect: Effect) {
    forall store, ops, log, crashes: seq<Crash>, collection, entity ::
      (&& Holding(store, collection, entity) == s.holding && Moves(log, collection, entity) == s.log
       && EffectOf(ops, collection, entity) == effect && Possible(crashes, ops, log)) ==>
        OneCopy(Restarted(store, ops, log, crashes), collection, entity)
  }

  ghost predicate OneCopy(store: Store, collection: string, entity: Id) {
    exists t :: Holding(store, collection, entity) == {t}
  }

  /** A restart leaves the one copy at `t`, however often it is interrupted first. */
  ghost predicate Settles(s: Sys, effect: Effect, t: Partition) {
    forall store, ops, log, crashes: seq<Crash>, collection, entity ::
      (&& Holding(store, collection, entity) == s.holding && Moves(log, collection, entity) == s.log
       && EffectOf(ops, collection, entity) == effect && Possible(crashes, ops, log)) ==>
        Holding(Restarted(store, ops, log, crashes), collection, entity) == {t}
  }

  lemma SettlesRecovers(s: Sys, effect: Effect, t: Partition)
    requires Settles(s, effect, t)
    ensures Recovers(s, effect)
  {
    hide Restarted, Holding, Moves, EffectOf;
  }

  lemma FunnelSettles(s: Sys, effect: Effect, a: set<Partition>, t: Partition)
    requires Funnel(a, s.log, t) && {} != AfterOpen(s.holding, effect) <= a && Proper(s.log)
    ensures Settles(s, effect, t)
  {
    hide Funnel, Proper, Restarted, Holding, Moves, EffectOf;
    forall store, ops, records, crashes: seq<Crash>, collection, entity |
      && Holding(store, collection, entity) == s.holding && Moves(records, collection, entity) == s.log
      && EffectOf(ops, collection, entity) == effect && Possible(crashes, ops, records)
      ensures Holding(Restarted(store, ops, records, crashes), collection, entity) == {t}
    {
      CrashTolerant(store, ops, records, crashes, collection, entity, a, t);
    }
  }

  lemma RewrittenSettles(s: Sys)
    requires Proper(s.log)
    ensures Settles(s, HotOnly, Dest(s.log, Hot))
  {
    hide Proper, Restarted, Holding, Moves, EffectOf;
    forall store, ops, records, crashes: seq<Crash>, collection, entity |
      && Holding(store, collection, entity) == s.holding && Moves(records, collection, entity) == s.log
      && EffectOf(ops, collection, entity) == HotOnly && Possible(crashes, ops, records)
      ensures Holding(Restarted(store, ops, records, crashes), collection, entity) == {Dest(s.log, Hot)}
    {
      RewrittenRestart(store, ops, records, crashes, collection, entity);
    }
  }

  /** Every record a trace adds is a demotion's. */
  lemma {:induction false} ReachableMigrations(states: seq<Sys>, m: nat, p: Partition, log: seq<Move>)
    requires Restart(states, p, log) && Migrations(log) && m < |states|
    ensures Inv(states[m]) && Migrations(states[m].log)
  {
    if m == 0 {
      InitialInv(states[0]);
    } else {
      ReachableMigrations(states, m - 1, p, log);
      assert Next(states[m - 1], states[m]);
      StepInv(states[m - 1], states[m]);
      StepMigrations(states[m - 1], states[m]);
    }
  }

  lemma StepMigrations(s: Sys, t: Sys)
    requires Inv(s) && Next(s, t) && Migrations(s.log)
    ensures Migrations(t.log)
  {
    if i :| 0 <= i < |s.runs| && RunStep(s, t, i) {
      assert s.runs[i].Demotes();
    }
  }

  /** Crash at any moment of any interleaving of demotions that started from one copy. A restart
      over the whole log, itself crashing any number of times, leaves exactly one copy, if the
      log was restartable at the start. */
  lemma CrashRecoveryOneCopy(states: seq<Sys>, m: nat, p: Partition, log: seq<Move>, effect: Effect)
    returns (t: Partition)
    requires Restart(states, p, log) && Migrations(log) && Restartable(p, log, effect) && m < |states|
    ensures Recovers(states[m], effect) && Settles(states[m], effect, t)
    ensures Migrations(states[m].log)
    ensures Confirmed(states[m]) ==> Restartable(t, states[m].log, effect)
  {
    var s := states[m];
    ReachableMigrations(states, m, p, log);
    if effect == HotOnly {
      t := Dest(s.log, Hot);
      RewrittenSettles(s);
    } else {
      ReachableLogInv(states, m, p, log, effect);
      var a;
      a, t := ReachableFunnel(s, effect);
      assert s.holding != {};
      FunnelSettles(s, effect, a, t);
      if Confirmed(s) { NextLife(s, effect, t); }
    }
    SettlesRecovers(s, effect, t);
  }

  /** Where no run is left unconfirmed, the next life may begin from the recovered copy. */
  lemma NextLife(s: Sys, effect: Effect, t: Partition)
    requires Inv(s) && LogInv(s) && HotInv(s, effect) && Confirmed(s) && (effect == Untouched || effect == HotBack)
    requires forall p :: p in s.holding ==> Dest(s.log, p) == t
    ensures Restartable(t, s.log, effect)
  {
    var p :| p in s.holding;
    DestOfMigrations(s.log);
    StopAnywhere(s.log, |s.log|, p);
    assert s.log[..|s.log|] == s.log;
    assert p in s.holding + {Hot} && Hot in s.holding + {Hot};
    hide Inv, Dest, Migrations;
  }

  // ----- one run with nobody else around -----

  /** A run that is let through takes eight steps, to one more logged move, the target held in
      place of the source, and a clean entry there. */
  lemma FullRun(s: Sys) returns (states: seq<Sys>)
    requires |s.runs| == 1 && s.runs[0].pc == Start && s.state == Clean && s.runs[0].from in s.holding
    ensures |states| == 9 && states[0] == s && forall k :: 0 <= k < |states| ==> |states[k].runs| == 1
    ensures forall k :: 0 < k < |states| ==> RunStep(states[k - 1], states[k], 0)
    ensures var r := s.runs[0];
      states[8] == s.(holding := s.holding + {r.to} - {r.from}, tier := r.to, log := s.log + [r.AsMove()],
        runs := [r.(pc := Finished)])
  {
    var r := s.runs[0];
    var s1 := At(s, 0, Marked).(state := Migrating);
    var s2 := At(s1, 0, Logged).(log := s.log + [r.AsMove()]);
    var s3 := At(s2, 0, HasData);
    var s4 := At(s3, 0, Written).(holding := s.holding + {r.to});
    var s5 := At(s4, 0, Unindexed);
    var s6 := At(s5, 0, Relocated).(tier := r.to);
    var s7 := At(s6, 0, Unlocked).(state := Clean);
    var s8 := At(s7, 0, Finished).(holding := s.holding + {r.to} - {r.from});
    assert RunStep(s, s1, 0) && RunStep(s1, s2, 0) && RunStep(s2, s3, 0) && RunStep(s3, s4, 0);
    assert RunStep(s4, s5, 0) && RunStep(s5, s6, 0) && RunStep(s6, s7, 0) && RunStep(s7, s8, 0);
    states := [s, s1, s2, s3, s4, s5, s6, s7, s8];
  }

  // ----- the condition on a restart is exact -----

  function TierOf(p: Partition): Tier {
    match p case Hot => Fjall case Warm => NVMe case Cold => Archive
  }

  function RecordOf(m: Move): Migration {
    Migration("", "", TierOf(m.from), TierOf(m.to))
  }

  ghost function RecordsOf(log: seq<Move>): seq<Migration> {
    if log == [] then [] else RecordsOf(log[..|log| - 1]) + [RecordOf(log[|log| - 1])]
  }

  lemma {:induction false} MovesOfRecords(log: seq<Move>)
    ensures Moves(RecordsOf(log), "", "") == log
  {
    if log != [] {
      var n := |log| - 1;
      MovesOfRecords(log[..n]);
      var init := RecordsOf(log[..n]);
      assert RecordsOf(log) == init + [RecordOf(log[n])];
      assert (init + [RecordOf(log[n])])[..|init|] == init;
    }
  }

  /** A log of entity records with a given effect. */
  function OpsWith(effect: Effect): seq<EntityOp> {
    match effect
    case Untouched => []
    case HotBack => [Put("", "", [])]
    case HotOnly => [Erase("", ""), Put("", "", [])]
    case Erased => [Erase("", "")]
  }

  lemma OpsWithEffect(effect: Effect)
    ensures EffectOf(OpsWith(effect), "", "") == effect
  {
    assert OpsWith(HotOnly)[..1] == [Erase("", "")];
    assert EffectOf([Erase("", "")], "", "") == Erased;
  }

  /** A state recovers only if opening leaves copies, all of which the log sends to one place. */
  lemma RecoversOnlyIf(s: Sys, effect: Effect)
    requires Recovers(s, effect) && Proper(s.log)
    ensures AfterOpen(s.holding, effect) != {} && Agree(AfterOpen(s.holding, effect), s.log)
  {
    var store, ops, records := Shown(s, effect);
    var crashes: seq<Crash> := [];
    hide Proper, Agree, Moves, EffectOf, Reopened, RecoverAll, Holding;
    assert CrashedRuns(store, ops, records, crashes) == store;
    assert Restarted(store, ops, records, crashes) == RecoverAll(Reopened(store, ops), records);
    OneCopyIff(store, ops, records, "", "");
    assert OneCopy(Restarted(store, ops, records, crashes), "", "");
  }

  function NextColder(p: Partition): Partition {
    match p case Hot => Warm case Warm => Cold case Cold => Cold
  }

  /** One run alone, up to program point `pc` with what it has logged and written. */
  function Alone(p: Partition, log: seq<Move>, pc: Pc): Sys {
    var r := Run(p, NextColder(p), pc);
    Sys(if pc == Written then {p, r.to} else {p}, if pc == Start then Clean else Migrating, p,
        if pc == Start || pc == Marked then log else log + [r.AsMove()], [r])
  }

  lemma AloneSteps(p: Partition, log: seq<Move>) returns (states: seq<Sys>)
    requires p != Cold
    ensures Restart(states, p, log) && |states| == 5 && states[2] == Alone(p, log, Logged) && states[4] == Alone(p, log, Written)
  {
    states := [Alone(p, log, Start), Alone(p, log, Marked), Alone(p, log, Logged), Alone(p, log, HasData), Alone(p, log, Written)];
    assert RunStep(states[0], states[1], 0);
    assert RunStep(states[1], states[2], 0);
    assert RunStep(states[2], states[3], 0);
    assert RunStep(states[3], states[4], 0);
    forall k | 0 < k < |states| ensures Next(states[k - 1], states[k]) {
      assert RunStep(states[k - 1], states[k], 0);
    }
  }

  lemma UnkeptApart(p: Partition, log: seq<Move>)
    requires Migrations(log) && !Keeps({p}, log)
    ensures p != Cold && Proper(log + [Move(p, NextColder(p))])
    ensures var next := log + [Move(p, NextColder(p))]; Dest(next, p) != Dest(next, NextColder(p))
  {
    var to := NextColder(p);
    DestOfMigrations(log);
    DestAppend(log, Move(p, to), p);
    DestAppend(log, Move(p, to), to);
    hide Dest;
  }

  /** Where the log parts the copy from its next target, one demotion that crashes after its
      write is enough, re-applied write or not. */
  lemma UnkeptSplits(p: Partition, log: seq<Move>, effect: Effect) returns (states: seq<Sys>)
    requires Migrations(log) && !Keeps({p}, log) && (effect == Untouched || effect == HotBack)
    ensures Restart(states, p, log) && |states| == 5 && !Recovers(states[4], effect)
  {
    UnkeptApart(p, log);
    states := AloneSteps(p, log);
    var s, to := states[4], NextColder(p);
    hide Restart, Recovers, Dest, Migrations, Proper, Keeps;
    assert p in AfterOpen(s.holding, effect) && to in AfterOpen(s.holding, effect);
    assert !Agree(AfterOpen(s.holding, effect), s.log);
    NotAgreeing(s, effect);
  }

  lemma NotAgreeing(s: Sys, effect: Effect)
    requires Proper(s.log) && !(AfterOpen(s.holding, effect) != {} && Agree(AfterOpen(s.holding, effect), s.log))
    ensures !Recovers(s, effect)
  {
    hide Recovers, Agree;
    if Recovers(s, effect) { RecoversOnlyIf(s, effect); }
  }

  /** A restart with no demotion at all. */
  function Idle(p: Partition, log: seq<Move>): Sys {
    Sys({p}, Clean, p, log, [])
  }

  /** Over every interleaving of demotions after a restart with one copy at `p` and any log of
      migrations, every moment is recoverable to exactly one copy, however the restart is
      interrupted, exactly when the log is restartable. */
  lemma RestartIff(p: Partition, log: seq<Move>, effect: Effect)
    requires Migrations(log)
    ensures (forall states: seq<Sys>, m: nat :: Restart(states, p, log) && m < |states| ==> Recovers(states[m], effect))
      <==> Restartable(p, log, effect)
  {
    if Restartable(p, log, effect) {
      forall states: seq<Sys>, m: nat | Restart(states, p, log) && m < |states| ensures Recovers(states[m], effect) {
        var _ := CrashRecoveryOneCopy(states, m, p, log, effect);
      }
    } else if effect == Erased || Keeps({p}, log) {
      var states := [Idle(p, log)];
      assert Restart(states, p, log);
      assert {p} + {Hot} == {p, Hot};
      NotAgreeing(states[0], effect);
    } else {
      var states := UnkeptSplits(p, log, effect);
      assert Restart(states, p, log) && !Recovers(states[4], effect);
    }
  }

  /** The condition after demotions alone. Without a re-applied write, a hot copy must not meet a
      logged warm-to-cold move that the log leaves it behind; with one, the copy's destination
      must be the hot tier's too. */
  lemma RestartAfterDemotions(p: Partition, log: seq<Move>)
    requires Migrations(log) && TO_HOT !in log
    ensures Restartable(p, log, Untouched) <==> p != Hot || TO_COLD !in log || Dest(log, Hot) == Cold
    ensures Restartable(p, log, HotBack) <==> Restartable(p, log, Untouched) && Dest(log, Hot) == Dest(log, p)
    ensures log == [] || log[0] == TO_WARM || p != Hot ==> Restartable(p, log, Untouched)
    ensures (log == [] && p == Hot) || (log != [] && log[0] == TO_WARM && (p == Cold ==> TO_COLD in log)) ==> Restartable(p, log, HotBack)
  {
    DestOfMigrations(log);
    hide Dest, Migrations;
  }

  /** A history of migrations that each began where the last one ended always restarts, with a
      re-applied write exactly if it passes the hot tier. */
  lemma ChainRestarts(log: seq<Move>, start: Partition)
    requires Migrations(log) && Chain(log, start)
    ensures Restartable(ChainEnd(log, start), log, Untouched)
    ensures Restartable(ChainEnd(log, start), log, HotBack) <==> Hot in ChainNodes(log, start)
  {
    ChainDest(log, start, Hot);
    ChainDest(log, start, Warm);
    ChainDest(log, start, Cold);
    ChainEndNamed(log, start);
    hide Dest, Chain, ChainNodes, ChainEnd, Migrations;
  }

  /** A history that does not: a warm-to-cold run on an entity that is hot logs its move and
      finds no source. The state recovers, but its log parts the next demotion's copies. */
  lemma UnconfirmedMoveSpoilsRestart() returns (states: seq<Sys>, later: seq<Sys>)
    ensures Trace(states) && |states| == 4 && states[0].log == [] && states[0].holding == {Hot}
    ensures Recovers(states[3], Untouched) && Recovers(states[3], HotBack)
    ensures states[3].holding == {Hot} && states[3].log == [TO_COLD] && states[3].runs == [Run(Warm, Cold, Stuck)]
    ensures Restart(later, Hot, [TO_COLD]) && |later| == 5 && !Recovers(later[4], Untouched)
  {
    var r := Run(Warm, Cold, Start);
    var s0 := Sys({Hot}, Clean, Hot, [], [r]);
    var s1 := At(s0, 0, Marked).(state := Migrating);
    var s2 := At(s1, 0, Logged).(log := [] + [TO_COLD]);
    var s3 := At(s2, 0, Stuck);
    states := [s0, s1, s2, s3];
    assert RunStep(s0, s1, 0) && RunStep(s1, s2, 0) && FailStep(s2, s3, 0);
    forall k | 0 < k < |states| ensures Next(states[k - 1], states[k]) {
      assert RunStep(states[k - 1], states[k], 0) || FailStep(states[k - 1], states[k], 0);
    }
    hide Recovers, Settles;
    DestOfMigrations([]);
    var _ := CrashRecoveryOneCopy(states, 3, Hot, [], Untouched);
    var _ := CrashRecoveryOneCopy(states, 3, Hot, [], HotBack);
    DestOfMigrations([TO_COLD]);
    RestartAfterDemotions(Hot, [TO_COLD]);
    later := UnkeptSplits(Hot, [TO_COLD], Untouched);
  }

  /** With a re-applied write, a settled warm copy is enough: a log that would leave it alone moves
      the hot copy that comes back to another tier. */
  lemma ReappliedWriteSplits()
    ensures var log := [TO_COLD, TO_WARM];
      && Restart([Idle(Warm, log)], Warm, log) && Recovers(Idle(Warm, log), Untouched) && !Recovers(Idle(Warm, log), HotBack)
  {
    var log := [TO_COLD, TO_WARM];
    forall p ensures Dest(log, p) == StepOf(TO_WARM, StepOf(TO_COLD, p)) {
      assert [] + [TO_COLD] == [TO_COLD] && [TO_COLD] + [TO_WARM] == log;
      DestAppend([], TO_COLD, p);
      DestAppend([TO_COLD], TO_WARM, p);
    }
    hide Dest;
    DestOfMigrations(log);
    RestartAfterDemotions(Warm, log);
    assert Restart([Idle(Warm, log)], Warm, log);
    var _ := CrashRecoveryOneCopy([Idle(Warm, log)], 0, Warm, log, Untouched);
    var h := AfterOpen({Warm}, HotBack);
    assert Warm in h && Hot in h;
    NotAgreeing(Idle(Warm, log), HotBack);
  }

  // ----- any number of lives -----

  /** A life begins with one copy at `start` and ends, by a crash or not, with its last state. */
  datatype Life = Life(start: Partition, states: seq<Sys>)

  ghost function LogBefore(lives: seq<Life>, i: nat, log: seq<Move>): seq<Move>
    requires i < |lives| && (i > 0 ==> lives[i - 1].states != [])
  {
    if i == 0 then log else lives[i - 1].states[|lives[i - 1].states| - 1].log
  }

  /** Each life begins where the restart after the one before settles, and goes on with its log. */
  ghost predicate Lives(lives: seq<Life>, log: seq<Move>, effect: Effect) {
    && (forall i :: 0 <= i < |lives| ==> lives[i].states != [])
    && forall i :: 0 <= i < |lives| ==> Begins(lives, i, log, effect)
  }

  ghost predicate Begins(lives: seq<Life>, i: nat, log: seq<Move>, effect: Effect)
    requires i < |lives| && (forall i :: 0 <= i < |lives| ==> lives[i].states != [])
  {
    && Restart(lives[i].states, lives[i].start, LogBefore(lives, i, log))
    && (i > 0 ==> Settles(lives[i - 1].states[|lives[i - 1].states| - 1], effect, lives[i].start))
  }

  /** Every state and effect has a store, entity records and a log that show them. */
  lemma Shown(s: Sys, effect: Effect) returns (store: Store, ops: seq<EntityOp>, log: seq<Migration>)
    ensures Holding(store, "", "") == s.holding && Moves(log, "", "") == s.log
    ensures EffectOf(ops, "", "") == effect && Possible([], ops, log)
  {
    store := map p | p in s.holding :: Slot("", "", p) := [];
    ops, log := OpsWith(effect), RecordsOf(s.log);
    MovesOfRecords(s.log);
    OpsWithEffect(effect);
  }

  lemma SettlesOnce(s: Sys, effect: Effect, t: Partition, u: Partition)
    requires Settles(s, effect, t) && Settles(s, effect, u)
    ensures t == u
  {
    hide Moves, EffectOf, Restarted, Holding, Possible;
    var store, ops, log := Shown(s, effect);
    assert Holding(Restarted(store, ops, log, []), "", "") == {t};
    assert t in Holding(Restarted(store, ops, log, []), "", "");
  }

  /** Life after life, every moment of each recovers to one copy, as long as no life ended with
      a run that had logged and not seen its source. */
  lemma {:induction false} LivesRecover(lives: seq<Life>, log: seq<Move>, effect: Effect, i: nat, m: nat)
    requires Lives(lives, log, effect) && Migrations(log) && i < |lives| && m < |lives[i].states|
    requires Restartable(lives[0].start, log, effect)
    requires forall j :: 0 <= j < i ==> Confirmed(lives[j].states[|lives[j].states| - 1])
    ensures Recovers(lives[i].states[m], effect)
    ensures Migrations(LogBefore(lives, i, log)) && Restartable(lives[i].start, LogBefore(lives, i, log), effect)
    decreases i
  {
    hide Restart, Migrations, Recovers, Settles, Restartable, Confirmed;
    assert Begins(lives, i, log, effect);
    if i > 0 {
      var before := lives[i - 1];
      var last := |before.states| - 1;
      LivesRecover(lives, log, effect, i - 1, last);
      assert Begins(lives, i - 1, log, effect);
      var t := CrashRecoveryOneCopy(before.states, last, before.start, LogBefore(lives, i - 1, log), effect);
      SettlesOnce(before.states[last], effect, t, lives[i].start);
    }
    var _ := CrashRecoveryOneCopy(lives[i].states, m, lives[i].start, LogBefore(lives, i, log), effect);
  }

  // ----- records that are not replayed any more -----

  /** The state as a restart sees it that replays the records past the first `n` only. */
  function Past(s: Sys, n: nat): Sys
    requires n <= |s.log|
  {
    s.(log := s.log[n..])
  }

  lemma PastStep(s: Sys, t: Sys, n: nat)
    requires Next(s, t) && n <= |s.log|
    ensures |s.log| <= |t.log| && t.log[..|s.log|] == s.log && Next(Past(s, n), Past(t, n))
  {
    var s', t' := Past(s, n), Past(t, n);
    if EnvironmentStep(s, t) {
      assert EnvironmentStep(s', t');
    } else {
      var i :| 0 <= i < |s.runs| && (RunStep(s, t, i) || FailStep(s, t, i));
      if RunStep(s, t, i) && s.runs[i].pc == Marked {
        assert t'.log == s'.log + [s.runs[i].AsMove()];
        assert RunStep(s', t', i);
      } else {
        assert RunStep(s', t', i) || FailStep(s', t', i);
      }
    }
  }

  lemma {:induction false} LogGrows(states: seq<Sys>, m: nat, p: Partition, log: seq<Move>)
    requires Restart(states, p, log) && m < |states|
    ensures |log| <= |states[m].log| && states[m].log[..|log|] == log
  {
    if m > 0 {
      LogGrows(states, m - 1, p, log);
      assert Next(states[m - 1], states[m]);
      PastStep(states[m - 1], states[m], 0);
    }
  }

  /** Once a location snapshot of this life is written, a restart replays the records of this
      life only. Then every moment recovers, whatever the log held before. */
  lemma StampedAtStart(states: seq<Sys>, m: nat, p: Partition, log: seq<Move>)
    requires Restart(states, p, log) && m < |states|
    ensures |log| <= |states[m].log| && states[m].log[..|log|] == log
    ensures Recovers(Past(states[m], |log|), Untouched)
  {
    forall k | 0 <= k < |states| ensures |log| <= |states[k].log| && states[k].log[..|log|] == log {
      LogGrows(states, k, p, log);
    }
    var n := |log|;
    var later := seq(|states|, k requires 0 <= k < |states| => Past(states[k], n));
    forall k | 0 < k < |later| ensures Next(later[k - 1], later[k]) {
      assert Next(states[k - 1], states[k]);
      PastStep(states[k - 1], states[k], n);
    }
    assert Initial(later[0]);
    assert Restart(later, p, []);
    assert Restartable(p, [], Untouched);
    hide Recovers, Settles, Restart;
    var _ := CrashRecoveryOneCopy(later, m, p, [], Untouched);
  }

  /** A checkpoint statement drops all records before it at any moment. One between a run's log
      record and its delete of the source leaves two copies that no restart joins. */
  lemma CheckpointInsideSplits(p: Partition, log: seq<Move>) returns (states: seq<Sys>)
    requires p != Cold && Migrations(log)
    ensures Restart(states, p, log) && |states| == 5 && states[4].log == log + [Move(p, NextColder(p))]
    ensures !Recovers(Past(states[4], |log| + 1), Untouched)
  {
    states := AloneSteps(p, log);
    var s := Past(states[4], |log| + 1);
    assert p in s.holding && NextColder(p) in s.holding;
    assert Dest([], p) == p && Dest([], NextColder(p)) == NextColder(p);
    NotAgreeing(s, Untouched);
  }
}
