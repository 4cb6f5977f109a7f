/**
 The migration planner of src/migration-core.ts: which migration files are
 superseded by squash migrations, the preflight over squash files, the plan that
 simulates its own effect on the history table, and the execution of its steps.
 */
module MigrationPlan {
  import opened Wrappers

  datatype Replacement = Replacement(version: nat, name: string, upHash: string)

  datatype MigrationFile = MigrationFile(
    version: nat, name: string, upHash: string, squash: Option<seq<Replacement>>)

  datatype Row = Row(name: string, hash: string)

  // The history table, keyed by its primary key.
  type History = map<nat, Row>

  datatype Step = Apply(migration: MigrationFile) | Adopt(migration: MigrationFile, replaced: nat)

  datatype Plan = Planned(steps: seq<Step>) | PlanFailed | PlanTampered

  datatype Verdict = Fine | VerdictFailed | VerdictTampered

  datatype Adoption = NoAdoption | Adoptable(replaced: nat) | AdoptionFailed | AdoptionTampered

  function Replaces(f: MigrationFile): seq<Replacement> {
    if f.squash.Some? then f.squash.value else []
  }

  function RowOf(f: MigrationFile): Row {
    Row(f.name, f.upHash)
  }

  predicate Mismatch(c: MigrationFile, q: Replacement) {
    c.name != q.name || c.upHash != q.upHash
  }

  // ---------------------------------------------------------------- execution

  function WithoutVersions(h: History, reps: seq<Replacement>): History {
    map v | v in h && (forall q <- reps :: q.version != v) :: h[v]
  }

  function ExecStep(h: History, step: Step): History {
    match step
    case Apply(m) => h[m.version := RowOf(m)]
    case Adopt(m, _) => WithoutVersions(h, Replaces(m))[m.version := RowOf(m)]
  }

  function Exec(h: History, steps: seq<Step>): History
    decreases |steps|
  {
    if steps == [] then h else Exec(ExecStep(h, steps[0]), steps[1..])
  }

  lemma {:induction false} ExecAppend(h: History, steps: seq<Step>, step: Step)
    ensures Exec(h, steps + [step]) == ExecStep(Exec(h, steps), step)
    decreases |steps|
  {
    if steps == [] {
    } else {
      ExecAppend(ExecStep(h, steps[0]), steps[1..], step);
      assert (steps + [step])[1..] == steps[1..] + [step];
    }
  }

  lemma ExecTail(h: History, steps: seq<Step>, k: nat)
    requires 0 < k <= |steps|
    ensures Exec(h, steps[..k]) == Exec(ExecStep(h, steps[0]), steps[1..][..k - 1])
    ensures steps[k..] == steps[1..][k - 1..]
  {
    assert steps[..k][1..] == steps[1..][..k - 1];
  }

  // ------------------------------------------------------------- supersession

  // Applying f makes version v superseded: f replaces v, directly or through
  // squash files that f replaces.
  ghost predicate Covers(all: seq<MigrationFile>, f: MigrationFile, v: nat)
    decreases f.version
  {
    exists q <- Replaces(f) ::
      || q.version == v
      || (q.version < f.version
          && exists g <- all :: g.version == q.version && Covers(all, g, v))
  }

  ghost predicate IsSuperseded(all: seq<MigrationFile>, h: History, v: nat) {
    exists f <- all :: f.version in h && Covers(all, f, v)
  }

  ghost function CoverSet(all: seq<MigrationFile>, f: MigrationFile): iset<nat> {
    iset v: nat | Covers(all, f, v)
  }

  ghost function Superseded(all: seq<MigrationFile>, h: History): iset<nat> {
    iset v: nat | IsSuperseded(all, h, v)
  }

  // Following the replaced squash files of f meets one whose current file differs
  // from what its replacement recorded.
  ghost predicate BrokenChain(all: seq<MigrationFile>, f: MigrationFile)
    decreases f.version
  {
    exists q <- Replaces(f), c <- all ::
      && c.version == q.version && c.squash.Some? && c.version < f.version
      && (Mismatch(c, q) || BrokenChain(all, c))
  }

  ghost predicate TamperedSquash(all: seq<MigrationFile>, h: History) {
    exists f <- all ::
      && f.squash.Some? && f.version in h
      && (h[f.version].hash != f.upHash || BrokenChain(all, f))
  }

  // The files by version; the last file of a version wins.
  function ByVersion(all: seq<MigrationFile>): map<nat, MigrationFile> {
    if all == [] then map[]
    else ByVersion(all[..|all| - 1])[all[|all| - 1].version := all[|all| - 1]]
  }

  lemma {:induction false} ByVersionKeys(all: seq<MigrationFile>)
    ensures forall v <- ByVersion(all) :: ByVersion(all)[v].version == v && ByVersion(all)[v] in all
    ensures forall f <- all :: f.version in ByVersion(all)
  {
    if all == [] {
    } else {
      ByVersionKeys(all[..|all| - 1]);
      assert all == all[..|all| - 1] + [all[|all| - 1]];
    }
  }

  // ---------------------------------------------------------------- preflight

  // The current file of a replaced version is not superseded and differs from it.
  predicate StaleReplacement(byVersion: map<nat, MigrationFile>, superseded: bool, q: Replacement) {
    !superseded && q.version in byVersion && Mismatch(byVersion[q.version], q)
  }

  ghost function PreflightFile(
    byVersion: map<nat, MigrationFile>, sup: iset<nat>, h: History, f: MigrationFile, i: nat, present: nat): Verdict
    requires i <= |Replaces(f)|
    decreases |Replaces(f)| - i
  {
    if i == |Replaces(f)| then
      if present > 0 && present != |Replaces(f)| then VerdictFailed else Fine
    else
      var q := Replaces(f)[i];
      if q.version >= f.version then VerdictFailed
      else if StaleReplacement(byVersion, q.version in sup, q) then VerdictTampered
      else if q.version !in h then PreflightFile(byVersion, sup, h, f, i + 1, present)
      else if h[q.version] != Row(q.name, q.upHash) then VerdictTampered
      else PreflightFile(byVersion, sup, h, f, i + 1, present + 1)
  }

  ghost function Preflight(
    all: seq<MigrationFile>, byVersion: map<nat, MigrationFile>, sup: iset<nat>, h: History, j: nat): Verdict
    requires j <= |all|
    decreases |all| - j
  {
    if j == |all| then Fine
    else
      var verdict := PreflightFile(byVersion, sup, h, all[j], 0, 0);
      if verdict == Fine then Preflight(all, byVersion, sup, h, j + 1) else verdict
  }

  // ----------------------------------------------------------------- planning

  function AdoptionFrom(f: MigrationFile, h: History, i: nat, present: nat): Adoption
    requires i <= |Replaces(f)|
    decreases |Replaces(f)| - i
  {
    if i == |Replaces(f)| then
      if present == 0 then NoAdoption
      else if present != |Replaces(f)| then AdoptionFailed
      else Adoptable(|Replaces(f)|)
    else
      var q := Replaces(f)[i];
      if q.version >= f.version then AdoptionFailed
      else if q.version !in h then AdoptionFrom(f, h, i + 1, present)
      else if h[q.version] != Row(q.name, q.upHash) then AdoptionTampered
      else AdoptionFrom(f, h, i + 1, present + 1)
  }

  function Prepend(step: Step, plan: Plan): Plan {
    if plan.Planned? then Planned([step] + plan.steps) else plan
  }

  // What the planning loop does with one file.
  datatype Decision = Skip | Do(step: Step) | Stop(plan: Plan)

  function Decide(f: MigrationFile, superseded: bool, p: History): Decision {
    if superseded then Skip
    else if f.version in p then
      if p[f.version].hash != f.upHash then Stop(PlanTampered) else Skip
    else
      match AdoptionFrom(f, p, 0, 0)
      case Adoptable(n) => Do(Adopt(f, n))
      case NoAdoption => Do(Apply(f))
      case AdoptionFailed => Stop(PlanFailed)
      case AdoptionTampered => Stop(PlanTampered)
  }

  // Planning all[j..] with the superseded versions sup and the simulated history p.
  ghost function PlanFrom(all: seq<MigrationFile>, sup: iset<nat>, j: nat, p: History): Plan
    requires j <= |all|
    decreases |all| - j
  {
    if j == |all| then Planned([])
    else
      match Decide(all[j], all[j].version in sup, p)
      case Skip => PlanFrom(all, sup, j + 1, p)
      case Do(step) => Prepend(step, PlanFrom(all, sup, j + 1, ExecStep(p, step)))
      case Stop(plan) => plan
  }

  ghost function PlanOf(all: seq<MigrationFile>, h: History): Plan {
    if TamperedSquash(all, h) then PlanTampered
    else
      var sup := Superseded(all, h);
      match Preflight(all, ByVersion(all), sup, h, 0)
      case VerdictFailed => PlanFailed
      case VerdictTampered => PlanTampered
      case Fine => PlanFrom(all, sup, 0, h)
  }

  // --------------------------------------------------------- preconditions

  ghost predicate DistinctVersions(all: seq<MigrationFile>) {
    forall i, j :: 0 <= i < j < |all| ==> all[i].version != all[j].version
  }

  ghost predicate Increasing(all: seq<MigrationFile>) {
    forall i, j :: 0 <= i < j < |all| ==> all[i].version < all[j].version
  }

  // What checkMigrationFiles establishes about squash metadata.
  ghost predicate Checked(all: seq<MigrationFile>) {
    forall f <- all, q <- Replaces(f) ::
      && q.version < f.version
      && forall c <- all :: c.version == q.version ==> !Mismatch(c, q)
  }

  // No row of the table is replaced by a squash that is applied or superseded.
  ghost predicate Clean(all: seq<MigrationFile>, h: History) {
    forall f <- all, q <- Replaces(f) ::
      f.version in h || IsSuperseded(all, h, f.version) ==> q.version !in h
  }

  function CountPresent(reps: seq<Replacement>, h: History): nat {
    if reps == [] then 0
    else (if reps[0].version in h then 1 else 0) + CountPresent(reps[1..], h)
  }

  // No squash file has some but not all of its replaced rows in the table.
  ghost predicate NoPartialSquash(all: seq<MigrationFile>, h: History) {
    forall f <- all :: CountPresent(Replaces(f), h) in {0, |Replaces(f)|}
  }

  ghost predicate RowsMatchReplacements(all: seq<MigrationFile>, h: History) {
    forall f <- all, q <- Replaces(f) :: q.version in h ==> h[q.version] == Row(q.name, q.upHash)
  }

  // ------------------------------------------------------ counting and preflight

  lemma {:induction false} CountPresentNone(reps: seq<Replacement>, h: History)
    ensures CountPresent(reps, h) == 0 <==> forall q <- reps :: q.version !in h
    ensures CountPresent(reps, h) <= |reps|
  {
    if reps == [] {
    } else {
      CountPresentNone(reps[1..], h);
      assert reps == [reps[0]] + reps[1..];
    }
  }

  lemma {:induction false} PreflightFileExact(
    byVersion: map<nat, MigrationFile>, sup: iset<nat>, h: History, f: MigrationFile, i: nat, present: nat)
    requires i <= |Replaces(f)|
    requires forall q <- Replaces(f) :: q.version < f.version && !StaleReplacement(byVersion, false, q)
    ensures PreflightFile(byVersion, sup, h, f, i, present) == Fine ==>
              forall q <- Replaces(f)[i..] :: q.version in h ==> h[q.version] == Row(q.name, q.upHash)
    ensures (forall q <- Replaces(f)[i..] :: q.version in h ==> h[q.version] == Row(q.name, q.upHash)) ==>
              (PreflightFile(byVersion, sup, h, f, i, present) == Fine
               <==> present + CountPresent(Replaces(f)[i..], h) in {0, |Replaces(f)|})
    decreases |Replaces(f)| - i
  {
    if i < |Replaces(f)| {
      var q := Replaces(f)[i];
      assert q in Replaces(f);
      assert Replaces(f)[i..] == [q] + Replaces(f)[i + 1..];
      PreflightFileExact(byVersion, sup, h, f, i + 1, if q.version in h then present + 1 else present);
    }
  }

  lemma {:induction false} PreflightFine(
    all: seq<MigrationFile>, byVersion: map<nat, MigrationFile>, sup: iset<nat>, h: History, j: nat)
    requires j <= |all|
    ensures Preflight(all, byVersion, sup, h, j) == Fine
            <==> forall k :: j <= k < |all| ==> PreflightFile(byVersion, sup, h, all[k], 0, 0) == Fine
    decreases |all| - j
  {
    if j < |all| {
      PreflightFine(all, byVersion, sup, h, j + 1);
    }
  }

  // For checked files whose replaced rows match, the preflight is exactly NoPartialSquash.
  lemma PreflightIsNoPartialSquash(all: seq<MigrationFile>, sup: iset<nat>, h: History)
    requires Checked(all)
    ensures var verdict := Preflight(all, ByVersion(all), sup, h, 0);
            && (verdict == Fine ==> RowsMatchReplacements(all, h))
            && (RowsMatchReplacements(all, h) ==> (verdict == Fine <==> NoPartialSquash(all, h)))
  {
    var byVersion := ByVersion(all);
    ByVersionKeys(all);
    PreflightFine(all, byVersion, sup, h, 0);
    forall k | 0 <= k < |all|
      ensures PreflightFile(byVersion, sup, h, all[k], 0, 0) == Fine ==>
                forall q <- Replaces(all[k]) :: q.version in h ==> h[q.version] == Row(q.name, q.upHash)
      ensures RowsMatchReplacements(all, h) ==>
                (PreflightFile(byVersion, sup, h, all[k], 0, 0) == Fine
                 <==> CountPresent(Replaces(all[k]), h) in {0, |Replaces(all[k])|})
    {
      PreflightFileExact(byVersion, sup, h, all[k], 0, 0);
      assert Replaces(all[k])[0..] == Replaces(all[k]);
    }
  }

  lemma {:induction false} AdoptionExact(f: MigrationFile, h: History, i: nat, present: nat)
    requires i <= |Replaces(f)|
    ensures var a := AdoptionFrom(f, h, i, present);
            && (a.NoAdoption? ==> present == 0 && forall q <- Replaces(f)[i..] :: q.version !in h)
            && (a.Adoptable? ==> a.replaced == |Replaces(f)|)
    decreases |Replaces(f)| - i
  {
    if i < |Replaces(f)| {
      assert Replaces(f)[i..] == [Replaces(f)[i]] + Replaces(f)[i + 1..];
      AdoptionExact(f, h, i + 1, if Replaces(f)[i].version in h then present + 1 else present);
    }
  }

  // -------------------------------------------------------------- supersession

  lemma {:induction false} CoversIsOlder(all: seq<MigrationFile>, f: MigrationFile, v: nat)
    requires Checked(all) && f in all && Covers(all, f, v)
    ensures v < f.version
    decreases f.version
  {
    var q :| q in Replaces(f) && (q.version == v || (q.version < f.version
        && exists g <- all :: g.version == q.version && Covers(all, g, v)));
    if q.version != v {
      var g :| g in all && g.version == q.version && Covers(all, g, v);
      CoversIsOlder(all, g, v);
    }
  }

  lemma {:induction false} CoversTransitive(
    all: seq<MigrationFile>, f: MigrationFile, g: MigrationFile, v: nat)
    requires Checked(all) && f in all && g in all
    requires Covers(all, f, g.version) && Covers(all, g, v)
    requires Increasing(all)
    ensures Covers(all, f, v)
    decreases f.version
  {
    var q :| q in Replaces(f) && (q.version == g.version || (q.version < f.version
        && exists m <- all :: m.version == q.version && Covers(all, m, g.version)));
    if q.version != g.version {
      var m :| m in all && m.version == q.version && Covers(all, m, g.version);
      CoversTransitive(all, m, g, v);
    } else {
      assert q.version < f.version;
    }
  }

  lemma SupersededClosed(all: seq<MigrationFile>, h: History, g: MigrationFile, q: Replacement)
    requires Checked(all) && Increasing(all) && g in all && q in Replaces(g)
    requires g.version in h || IsSuperseded(all, h, g.version)
    ensures IsSuperseded(all, h, q.version)
  {
    assert Covers(all, g, q.version);
    if g.version !in h {
      var f :| f in all && f.version in h && Covers(all, f, g.version);
      CoversTransitive(all, f, g, q.version);
    }
  }

  // ------------------------------------------------------- planning invariant

  // Every file planned so far is superseded or recorded with its own hash.
  ghost predicate Settled(all: seq<MigrationFile>, sup: iset<nat>, j: nat, p: History)
    requires j <= |all|
  {
    forall i :: 0 <= i < j ==>
      all[i].version in sup || (all[i].version in p && p[all[i].version].hash == all[i].upHash)
  }

  // Every row was there at the start or belongs to a file planned so far.
  ghost predicate RowsKnown(all: seq<MigrationFile>, sup: iset<nat>, h: History, j: nat, p: History)
    requires j <= |all|
  {
    forall v <- p :: v in h || exists i :: 0 <= i < j && all[i].version == v && v !in sup
  }

  ghost predicate SquashHashesMatch(all: seq<MigrationFile>, p: History) {
    forall f <- all :: f.squash.Some? && f.version in p ==> p[f.version].hash == f.upHash
  }

  // What planning all[..j] keeps about the simulated history p of an initial h.
  ghost predicate Simulates(all: seq<MigrationFile>, h: History, j: nat, p: History)
    requires j <= |all|
  {
    && Settled(all, Superseded(all, p), j, p)
    && RowsKnown(all, Superseded(all, h), h, j, p)
    && Superseded(all, h) <= Superseded(all, p)
    && SquashHashesMatch(all, p)
    && RowsMatchReplacements(all, p)
  }

  lemma StepKeepsSuperseded(all: seq<MigrationFile>, p: History, step: Step, v: nat)
    requires Checked(all) && Increasing(all) && step.migration in all
    requires IsSuperseded(all, p, v)
    ensures IsSuperseded(all, ExecStep(p, step), v)
  {
    var m, p' := step.migration, ExecStep(p, step);
    var f :| f in all && f.version in p && Covers(all, f, v);
    if f.version !in p' {
      var q :| q in Replaces(m) && q.version == f.version;
      assert Covers(all, m, f.version);
      CoversTransitive(all, m, f, v);
      assert m.version in p';
    }
  }

  lemma StepGrowsSuperseded(all: seq<MigrationFile>, p: History, step: Step)
    requires Checked(all) && Increasing(all) && step.migration in all
    ensures Superseded(all, p) <= Superseded(all, ExecStep(p, step))
  {
    forall v | v in Superseded(all, p) ensures v in Superseded(all, ExecStep(p, step)) {
      StepKeepsSuperseded(all, p, step, v);
    }
  }

  // A row that a step deletes is superseded after it.
  lemma DeletedIsSuperseded(all: seq<MigrationFile>, p: History, step: Step, v: nat)
    requires step.migration in all && v in p && v !in ExecStep(p, step)
    ensures v in Superseded(all, ExecStep(p, step))
  {
    assert Covers(all, step.migration, v);
  }

  lemma StepKeepsSettled(all: seq<MigrationFile>, j: nat, p: History, step: Step)
    requires Checked(all) && Increasing(all) && j < |all| && step.migration == all[j]
    requires Settled(all, Superseded(all, p), j, p)
    ensures Settled(all, Superseded(all, ExecStep(p, step)), j + 1, ExecStep(p, step))
  {
    var p' := ExecStep(p, step);
    var sup, sup' := Superseded(all, p), Superseded(all, p');
    StepGrowsSuperseded(all, p, step);
    forall i | 0 <= i < j + 1
      ensures all[i].version in sup' || (all[i].version in p' && p'[all[i].version].hash == all[i].upHash)
    {
      if i < j && all[i].version !in sup && all[i].version !in p' {
        DeletedIsSuperseded(all, p, step, all[i].version);
      }
    }
  }

  // A step records its migration and touches no other row that stays.
  lemma StepRows(p: History, step: Step)
    ensures var p', m := ExecStep(p, step), step.migration;
            && m.version in p' && p'[m.version] == RowOf(m)
            && forall v <- p' :: v == m.version || (v in p && p'[v] == p[v])
  {
  }

  lemma StepKeepsKnown(all: seq<MigrationFile>, h: History, sup: iset<nat>, j: nat, p: History, step: Step)
    requires j < |all| && step.migration == all[j] && all[j].version !in sup && RowsKnown(all, sup, h, j, p)
    ensures RowsKnown(all, sup, h, j + 1, ExecStep(p, step))
  {
    StepRows(p, step);
    hide ExecStep;
    forall v | v in ExecStep(p, step)
      ensures v in h || exists i :: 0 <= i < j + 1 && all[i].version == v && v !in sup
    {
      if v == all[j].version {
      } else {
        assert v in p;
      }
    }
  }

  lemma StepKeepsHashes(all: seq<MigrationFile>, j: nat, p: History, step: Step)
    requires Increasing(all) && j < |all| && step.migration == all[j] && SquashHashesMatch(all, p)
    ensures SquashHashesMatch(all, ExecStep(p, step))
  {
    StepRows(p, step);
    hide ExecStep;
  }

  lemma StepKeepsMatches(all: seq<MigrationFile>, j: nat, p: History, step: Step)
    requires Checked(all) && Increasing(all) && j < |all| && step.migration == all[j] && RowsMatchReplacements(all, p)
    ensures RowsMatchReplacements(all, ExecStep(p, step))
  {
    StepRows(p, step);
    hide ExecStep;
    var p' := ExecStep(p, step);
    forall f, q | f in all && q in Replaces(f) && q.version in p'
      ensures p'[q.version] == Row(q.name, q.upHash)
    {
      if q.version == all[j].version {
        assert !Mismatch(all[j], q);
      }
    }
  }

  lemma StepKeepsRows(all: seq<MigrationFile>, h: History, sup: iset<nat>, j: nat, p: History, step: Step)
    requires Checked(all) && Increasing(all) && j < |all| && step.migration == all[j]
    requires all[j].version !in sup
    requires RowsKnown(all, sup, h, j, p) && SquashHashesMatch(all, p) && RowsMatchReplacements(all, p)
    ensures RowsKnown(all, sup, h, j + 1, ExecStep(p, step))
    ensures SquashHashesMatch(all, ExecStep(p, step)) && RowsMatchReplacements(all, ExecStep(p, step))
  {
    hide *;
    StepKeepsKnown(all, h, sup, j, p, step);
    StepKeepsHashes(all, j, p, step);
    StepKeepsMatches(all, j, p, step);
  }

  lemma StepKeepsSimulates(all: seq<MigrationFile>, h: History, j: nat, p: History, step: Step)
    requires Checked(all) && Increasing(all) && j < |all| && Simulates(all, h, j, p)
    requires step.migration == all[j] && all[j].version !in Superseded(all, h)
    ensures Simulates(all, h, j + 1, ExecStep(p, step))
  {
    StepKeepsSettled(all, j, p, step);
    StepKeepsRows(all, h, Superseded(all, h), j, p, step);
    StepGrowsSuperseded(all, p, step);
  }

  lemma SkipKeepsSimulates(all: seq<MigrationFile>, h: History, j: nat, p: History)
    requires j < |all| && Simulates(all, h, j, p)
    requires all[j].version in Superseded(all, h)
             || (all[j].version in p && p[all[j].version].hash == all[j].upHash)
    ensures Simulates(all, h, j + 1, p)
  {
  }

  // Files not yet planned are superseded now exactly when they were at the start.
  lemma SupersededAhead(all: seq<MigrationFile>, h: History, j: nat, p: History, i: nat)
    requires Checked(all) && Increasing(all) && j <= i < |all| && Simulates(all, h, j, p)
    ensures all[i].version in Superseded(all, p) <==> all[i].version in Superseded(all, h)
  {
    if all[i].version in Superseded(all, p) {
      var f :| f in all && f.version in p && Covers(all, f, all[i].version);
      CoversIsOlder(all, f, all[i].version);
      assert f.version in h;
    }
  }

  lemma {:induction false} PlanFromAgrees(
    all: seq<MigrationFile>, sup: iset<nat>, sup': iset<nat>, i: nat, p: History)
    requires i <= |all|
    requires forall k :: i <= k < |all| ==> (all[k].version in sup <==> all[k].version in sup')
    ensures PlanFrom(all, sup, i, p) == PlanFrom(all, sup', i, p)
    decreases |all| - i
  {
    if i < |all| {
      match Decide(all[i], all[i].version in sup, p)
      case Skip => PlanFromAgrees(all, sup, sup', i + 1, p);
      case Do(step) => PlanFromAgrees(all, sup, sup', i + 1, ExecStep(p, step));
      case Stop(_) =>
    }
  }

  // Planning again from a history skips the files that are settled in it.
  lemma {:induction false} PlanSkips(all: seq<MigrationFile>, sup: iset<nat>, j: nat, p: History, i: nat)
    requires i <= j <= |all| && Settled(all, sup, j, p)
    ensures PlanFrom(all, sup, i, p) == PlanFrom(all, sup, j, p)
    decreases j - i
  {
    if i < j {
      PlanSkips(all, sup, j, p, i + 1);
    }
  }

  lemma {:induction false} CheckedHasNoBrokenChain(all: seq<MigrationFile>, f: MigrationFile)
    requires Checked(all) && f in all
    ensures !BrokenChain(all, f)
    decreases f.version
  {
    forall q, c | q in Replaces(f) && c in all && c.version == q.version && c.squash.Some? && c.version < f.version
      ensures !Mismatch(c, q) && !BrokenChain(all, c)
    {
      CheckedHasNoBrokenChain(all, c);
    }
  }

  lemma TamperedIsHashMismatch(all: seq<MigrationFile>, p: History)
    requires Checked(all)
    ensures TamperedSquash(all, p) <==> !SquashHashesMatch(all, p)
  {
    forall f | f in all ensures !BrokenChain(all, f) {
      CheckedHasNoBrokenChain(all, f);
    }
  }

  // Planning from the history that planning all[..j] simulates.
  lemma PlanAtBoundary(all: seq<MigrationFile>, h: History, j: nat, p: History)
    requires Checked(all) && Increasing(all) && j <= |all| && Simulates(all, h, j, p)
    requires PlanFrom(all, Superseded(all, h), j, p).Planned?
    ensures PlanOf(all, p).Planned? <==> NoPartialSquash(all, p)
    ensures NoPartialSquash(all, p) ==> PlanOf(all, p) == PlanFrom(all, Superseded(all, h), j, p)
  {
    hide Settled, RowsKnown, SquashHashesMatch, RowsMatchReplacements, Preflight, PlanFrom, TamperedSquash;
    hide NoPartialSquash, Superseded, Checked, Increasing, ByVersion;
    var sup, sup' := Superseded(all, h), Superseded(all, p);
    forall i | j <= i < |all| ensures all[i].version in sup' <==> all[i].version in sup {
      SupersededAhead(all, h, j, p, i);
    }
    PlanSkips(all, sup', j, p, 0);
    PlanFromAgrees(all, sup', sup, j, p);
    TamperedIsHashMismatch(all, p);
    PreflightIsNoPartialSquash(all, sup', p);
  }

  // The planning state after the first k steps have been taken.
  lemma {:induction false} BoundaryAfter(
    all: seq<MigrationFile>, h: History, sup: iset<nat>, j: nat, p: History, steps: seq<Step>, k: nat)
    returns (j': nat, p': History)
    requires Checked(all) && Increasing(all) && j <= |all|
    requires sup == Superseded(all, h) && Simulates(all, h, j, p)
    requires PlanFrom(all, sup, j, p) == Planned(steps) && k <= |steps|
    ensures j' <= |all| && Simulates(all, h, j', p') && p' == Exec(p, steps[..k])
    ensures PlanFrom(all, sup, j', p') == Planned(steps[k..])
    decreases |all| - j
  {
    hide Superseded, Increasing, Checked, Simulates;
    if k == 0 {
      j', p' := j, p;
      assert steps[..0] == [] && steps[0..] == steps;
    } else {
      match Decide(all[j], all[j].version in sup, p)
      case Skip =>
        SkipKeepsSimulates(all, h, j, p);
        j', p' := BoundaryAfter(all, h, sup, j + 1, p, steps, k);
      case Do(step) =>
        StepKeepsSimulates(all, h, j, p, step);
        PlanTail(all, sup, j, p, step, steps);
        j', p' := BoundaryAfter(all, h, sup, j + 1, ExecStep(p, step), steps[1..], k - 1);
        ExecTail(p, steps, k);
    }
  }

  lemma PlanTail(
    all: seq<MigrationFile>, sup: iset<nat>, j: nat, p: History, step: Step, steps: seq<Step>)
    requires j < |all| && Decide(all[j], all[j].version in sup, p) == Do(step)
    requires PlanFrom(all, sup, j, p) == Planned(steps)
    ensures steps != [] && steps[0] == step
    ensures PlanFrom(all, sup, j + 1, ExecStep(p, step)) == Planned(steps[1..])
  {
  }

  lemma StartSimulates(all: seq<MigrationFile>, h: History)
    requires Checked(all) && PlanOf(all, h).Planned?
    ensures Simulates(all, h, 0, h)
  {
    TamperedIsHashMismatch(all, h);
    PreflightIsNoPartialSquash(all, Superseded(all, h), h);
  }

  // Main result. After any executed prefix of a plan, planning again succeeds exactly
  // when no squash is left with part of its replaced rows, and then it yields exactly
  // the steps that remain.
  lemma ResumeExactly(all: seq<MigrationFile>, h: History, k: nat)
    requires Checked(all) && Increasing(all)
    requires PlanOf(all, h).Planned? && k <= |PlanOf(all, h).steps|
    ensures var steps := PlanOf(all, h).steps;
            var now := Exec(h, steps[..k]);
            && (PlanOf(all, now).Planned? <==> NoPartialSquash(all, now))
            && (PlanOf(all, now).Planned? ==> PlanOf(all, now).steps == steps[k..])
  {
    StartSimulates(all, h);
    var j, p := BoundaryAfter(all, h, Superseded(all, h), 0, h, PlanOf(all, h).steps, k);
    PlanAtBoundary(all, h, j, p);
  }

  // ----------------------------------------------------------------- cleanness

  ghost predicate NoReplacedRows(all: seq<MigrationFile>, j: nat, p: History)
    requires j <= |all|
  {
    forall i, q :: 0 <= i < j && q in Replaces(all[i]) ==> q.version !in p
  }

  lemma StepRemovesReplacedRows(all: seq<MigrationFile>, sup: iset<nat>, j: nat, p: History, step: Step)
    requires Checked(all) && Increasing(all) && j < |all|
    requires NoReplacedRows(all, j, p) && Decide(all[j], all[j].version in sup, p) == Do(step)
    ensures NoReplacedRows(all, j + 1, ExecStep(p, step))
  {
    AdoptionExact(all[j], p, 0, 0);
    assert Replaces(all[j])[0..] == Replaces(all[j]);
    forall i, q | 0 <= i <= j && q in Replaces(all[i]) ensures q.version !in ExecStep(p, step) {
      assert all[i] in all && q.version < all[i].version;
    }
  }

  // The replaced rows of a file that planning skips are absent already.
  lemma SkippedHasNoReplacedRows(all: seq<MigrationFile>, h: History, j: nat, p: History)
    requires Checked(all) && Increasing(all) && Clean(all, h) && j < |all| && Simulates(all, h, j, p)
    requires all[j].version in Superseded(all, h) || all[j].version in p
    requires NoReplacedRows(all, j, p)
    ensures NoReplacedRows(all, j + 1, p)
  {
    var f := all[j];
    forall q | q in Replaces(f) ensures q.version !in p {
      assert f.version in h || IsSuperseded(all, h, f.version);
      SupersededClosed(all, h, f, q);
      assert q.version in Superseded(all, h) && q.version !in h;
    }
  }

  lemma {:induction false} PlanRemovesReplacedRows(
    all: seq<MigrationFile>, h: History, sup: iset<nat>, j: nat, p: History, steps: seq<Step>)
    requires Checked(all) && Increasing(all) && Clean(all, h) && j <= |all|
    requires sup == Superseded(all, h) && Simulates(all, h, j, p) && NoReplacedRows(all, j, p)
    requires PlanFrom(all, sup, j, p) == Planned(steps)
    ensures NoReplacedRows(all, |all|, Exec(p, steps))
    decreases |all| - j
  {
    if j < |all| {
      match Decide(all[j], all[j].version in sup, p)
      case Skip =>
        SkippedHasNoReplacedRows(all, h, j, p);
        SkipKeepsSimulates(all, h, j, p);
        PlanRemovesReplacedRows(all, h, sup, j + 1, p, steps);
      case Do(step) =>
        StepKeepsSimulates(all, h, j, p, step);
        StepRemovesReplacedRows(all, sup, j, p, step);
        PlanTail(all, sup, j, p, step, steps);
        PlanRemovesReplacedRows(all, h, sup, j + 1, ExecStep(p, step), steps[1..]);
    }
  }

  // Main result. From a clean history, a plan ends in a clean history in which planning
  // again finds nothing to do.
  lemma PlanConverges(all: seq<MigrationFile>, h: History)
    requires Checked(all) && Increasing(all) && Clean(all, h)
    requires PlanOf(all, h).Planned?
    ensures var done := Exec(h, PlanOf(all, h).steps);
            Clean(all, done) && PlanOf(all, done) == Planned([])
  {
    var steps := PlanOf(all, h).steps;
    var done := Exec(h, steps);
    StartSimulates(all, h);
    PlanRemovesReplacedRows(all, h, Superseded(all, h), 0, h, steps);
    forall f | f in all ensures CountPresent(Replaces(f), done) == 0 {
      CountPresentNone(Replaces(f), done);
    }
    ResumeExactly(all, h, |steps|);
    assert steps[..|steps|] == steps;
  }
}
