/**
 The planner and the executor of src/migration-core.ts as they run: the walk over
 squash files, the preflight and planning loops, and applyPending against a database
 whose every command may fail.
 */
module MigrationRun {
  import opened Wrappers
  import opened MigrationPlan
  import opened MigrationChains

  // ------------------------------------------------------------ file checks

  datatype Issue =
    | DuplicateVersion(file: MigrationFile)
    | InvalidReplacement(file: MigrationFile, replacement: Replacement)
    | TamperedReplacement(file: MigrationFile, replacement: Replacement)

  ghost predicate ReplacementChecked(files: seq<MigrationFile>, f: MigrationFile, q: Replacement) {
    q.version < f.version && forall c <- files :: c.version == q.version ==> !Mismatch(c, q)
  }

  ghost predicate CheckedUpTo(files: seq<MigrationFile>, n: nat)
    requires n <= |files|
  {
    forall i, q :: 0 <= i < n && q in Replaces(files[i]) ==> ReplacementChecked(files, files[i], q)
  }

  ghost predicate IndexOf(files: seq<MigrationFile>, m: map<nat, MigrationFile>) {
    && (forall v <- m :: m[v].version == v && m[v] in files)
    && (forall f <- files :: f.version in m)
  }

  // The first pass of checkMigrationFiles: the first file of every version.
  method IndexMigrationFiles(files: seq<MigrationFile>)
    returns (upByVersion: map<nat, MigrationFile>, order: seq<MigrationFile>, issues: seq<Issue>)
    ensures IndexOf(files, upByVersion)
    ensures issues == [] <==> DistinctVersions(files)
    ensures issues == [] ==> order == files
  {
    upByVersion, order, issues := map[], [], [];
    assert DistinctVersions(files[..0]);
    hide DistinctVersions;
    for i := 0 to |files|
      invariant IndexOf(files[..i], upByVersion)
      invariant issues == [] <==> DistinctVersions(files[..i])
      invariant issues == [] ==> order == files[..i]
    {
      var f := files[i];
      assert files[..i + 1] == files[..i] + [f];
      DistinctAppend(files[..i], f);
      if f.version in upByVersion {
        issues := issues + [DuplicateVersion(f)];
      } else {
        upByVersion := upByVersion[f.version := f];
        order := order + [f];
      }
    }
    assert files[..|files|] == files;
  }

  lemma DistinctAppend(files: seq<MigrationFile>, f: MigrationFile)
    ensures DistinctVersions(files + [f])
            <==> DistinctVersions(files) && forall g <- files :: g.version != f.version
  {
    var more := files + [f];
    if DistinctVersions(more) {
      forall i, j | 0 <= i < j < |files| ensures files[i].version != files[j].version {
        assert more[i] == files[i] && more[j] == files[j];
      }
      forall i | 0 <= i < |files| ensures files[i].version != f.version {
        assert more[i] == files[i] && more[|files|] == f;
      }
    }
  }

  // The version and squash checks of checkMigrationFiles. No issue is reported exactly
  // when versions are distinct and every replacement is older and matches its file.
  method CheckMigrationFiles(files: seq<MigrationFile>) returns (issues: seq<Issue>)
    ensures issues == [] <==> DistinctVersions(files) && Checked(files)
  {
    var upByVersion, order;
    upByVersion, order, issues := IndexMigrationFiles(files);
    ghost var distinct := issues == [];
    for i := 0 to |order|
      invariant issues == [] ==> distinct
      invariant distinct ==> (issues == [] <==> CheckedUpTo(files, i))
    {
      var more := CheckReplacements(files, upByVersion, order[i]);
      issues := issues + more;
    }
    assert distinct ==> (CheckedUpTo(files, |files|) <==> Checked(files));
  }

  method CheckReplacements(ghost files: seq<MigrationFile>, upByVersion: map<nat, MigrationFile>, f: MigrationFile)
    returns (issues: seq<Issue>)
    requires IndexOf(files, upByVersion)
    ensures DistinctVersions(files) ==>
              (issues == [] <==> forall q <- Replaces(f) :: ReplacementChecked(files, f, q))
  {
    issues := [];
    var reps := Replaces(f);
    for k := 0 to |reps|
      invariant DistinctVersions(files) ==>
                  (issues == [] <==> forall m :: 0 <= m < k ==> ReplacementChecked(files, f, reps[m]))
    {
      var q := reps[k];
      if q.version >= f.version {
        issues := issues + [InvalidReplacement(f, q)];
        continue;
      }
      if q.version in upByVersion && Mismatch(upByVersion[q.version], q) {
        issues := issues + [TamperedReplacement(f, q)];
      }
    }
  }

  ghost predicate ReplacesOlder(all: seq<MigrationFile>) {
    forall f <- all, q <- Replaces(f) :: q.version < f.version
  }

  lemma ReplacesOlderAppend(all: seq<MigrationFile>, f: MigrationFile)
    ensures ReplacesOlder(all + [f]) <==> ReplacesOlder(all) && forall q <- Replaces(f) :: q.version < f.version
  {
    assert forall g <- all :: g in all + [f];
  }

  lemma NoneCovered()
    ensures Covered([]) == {}
  {
  }

  method SquashCoveredVersions(all: seq<MigrationFile>) returns (r: Option<set<nat>>)
    ensures r.Some? <==> ReplacesOlder(all)
    ensures r.Some? ==> r.value == Covered(all)
  {
    hide Covered;
    var covered: set<nat> := {};
    assert all[..0] == [];
    NoneCovered();
    for i := 0 to |all|
      invariant covered == Covered(all[..i]) && ReplacesOlder(all[..i])
    {
      var reps := Replaces(all[i]);
      for k := 0 to |reps|
        invariant covered == Covered(all[..i]) + set q <- reps[..k] :: q.version
        invariant forall m :: 0 <= m < k ==> reps[m].version < all[i].version
      {
        if reps[k].version >= all[i].version {
          assert all[i] in all && reps[k] in reps;
          return None;
        }
        covered := covered + {reps[k].version};
        assert reps[..k + 1] == reps[..k] + [reps[k]];
      }
      assert reps[..|reps|] == reps;
      assert all[..i + 1] == all[..i] + [all[i]];
      CoveredAppend(all[..i], all[i]);
      ReplacesOlderAppend(all[..i], all[i]);
    }
    assert all[..|all|] == all;
    r := Some(covered);
  }

  // effectiveSquashReplacements: it refuses a replacement that is not older than its
  // squash, and otherwise lists the files that no squash covers.
  method EffectiveSquashReplacements(all: seq<MigrationFile>) returns (r: Option<seq<Replacement>>)
    ensures r.Some? <==> ReplacesOlder(all)
    ensures r.Some? ==> r.value == Effective(all)
  {
    var covered := SquashCoveredVersions(all);
    if covered.None? {
      return None;
    }
    var out: seq<Replacement> := [];
    for i := 0 to |all|
      invariant out == Uncovered(all, Covered(all), i)
    {
      if all[i].version !in covered.value {
        out := out + [ReplacementOf(all[i])];
      }
    }
    r := Some(out);
  }

  // ------------------------------------------------------------ supersession

  // The variables captured by the recursive closure of appliedSquashSupersededVersions.
  class SupersessionWalk {
    const all: seq<MigrationFile>
    const byVersion: map<nat, MigrationFile>
    var superseded: set<nat>
    var visited: set<nat>

    constructor (all: seq<MigrationFile>)
      ensures this.all == all && byVersion == ByVersion(all)
      ensures superseded == {} && visited == {}
    {
      this.all := all;
      byVersion := ByVersion(all);
      superseded, visited := {}, {};
    }

    // Depth-first walk over the squash files that f replaces. Versions above f's may
    // still be open on the stack; all other visited versions are collected.
    method VisitReplacements(f: MigrationFile) returns (ok: bool)
      requires byVersion == ByVersion(all) && f in all
      requires CollectedBelow(all, superseded, visited, f.version + 1)
      modifies `superseded, `visited
      ensures OnlyCovered(all, f, old(superseded), superseded)
      ensures ok ==> CollectedSince(all, superseded, old(visited), visited)
      ensures ok ==> Collected(all, superseded, f.version)
      ensures !ok ==> BrokenChain(all, f)
      decreases f.version
    {
      if f.squash.None? || f.version in visited {
        PlainIsCollected(all, superseded, f);
        return true;
      }
      visited := visited + {f.version};
      ghost var started := old(visited) + {f.version};
      var reps := f.squash.value;
      for i := 0 to |reps|
        invariant OnlyCovered(all, f, old(superseded), superseded)
        invariant CollectedSince(all, superseded, started, visited)
        invariant CollectedBelow(all, superseded, visited, f.version)
        invariant forall k :: 0 <= k < i ==> Walked(all, superseded, f, reps[k])
      {
        var q := reps[i];
        ghost var before := superseded;
        superseded := superseded + {q.version};
        ByVersionKeys(all);
        CollectedGrows(all, before, superseded, started, visited, f, reps[..i]);
        if q.version !in byVersion || byVersion[q.version].squash.None? || byVersion[q.version].version >= f.version {
          PlainIsWalked(all, byVersion, superseded, f, q);
          continue;
        }
        var current := byVersion[q.version];
        CoveredThrough(all, f, q, current);
        if Mismatch(current, q) {
          return false;
        }
        before := superseded;
        ghost var seen := visited;
        ok := VisitReplacements(current);
        if !ok {
          return false;
        }
        CollectedGrows(all, before, superseded, started, seen, f, reps[..i]);
        SquashIsWalked(all, superseded, f, q, current);
      }
      WalkedIsCollected(all, superseded, f);
      return true;
    }
  }

  ghost predicate OnlyCovered(all: seq<MigrationFile>, f: MigrationFile, before: set<nat>, after: set<nat>) {
    before <= after && forall u <- after :: u in before || u in CoverSet(all, f)
  }

  // Versions visited since `before` are collected.
  ghost predicate CollectedSince(
    all: seq<MigrationFile>, superseded: set<nat>, before: set<nat>, visited: set<nat>)
  {
    forall v <- visited :: v in before || Collected(all, superseded, v)
  }

  ghost predicate CollectedBelow(all: seq<MigrationFile>, superseded: set<nat>, visited: set<nat>, top: nat) {
    forall v <- visited :: v < top ==> Collected(all, superseded, v)
  }

  // Everything that f covers has been collected, over an unbroken chain.
  ghost predicate Complete(all: seq<MigrationFile>, superseded: set<nat>, f: MigrationFile) {
    !BrokenChain(all, f) && forall u :: u in CoverSet(all, f) ==> u in superseded
  }

  ghost predicate Collected(all: seq<MigrationFile>, superseded: set<nat>, v: nat) {
    UniqueVersions(all) ==> forall g <- all :: g.version == v ==> Complete(all, superseded, g)
  }

  ghost predicate UniqueVersions(all: seq<MigrationFile>) {
    forall f <- all, g <- all :: f.version == g.version ==> f == g
  }

  // Replacement q of f is collected with everything below it.
  ghost predicate Walked(all: seq<MigrationFile>, superseded: set<nat>, f: MigrationFile, q: Replacement) {
    && q.version in superseded
    && (UniqueVersions(all) ==>
          forall c <- all :: c.version == q.version && c.version < f.version ==>
            Complete(all, superseded, c) && (c.squash.Some? ==> !Mismatch(c, q)))
  }

  lemma CollectedGrows(
    all: seq<MigrationFile>, before: set<nat>, after: set<nat>, started: set<nat>, visited: set<nat>,
    f: MigrationFile, reps: seq<Replacement>)
    requires before <= after
    ensures CollectedSince(all, before, started, visited) ==> CollectedSince(all, after, started, visited)
    ensures CollectedBelow(all, before, visited, f.version) ==> CollectedBelow(all, after, visited, f.version)
    ensures forall q <- reps :: Walked(all, before, f, q) ==> Walked(all, after, f, q)
  {
    assert forall g :: Complete(all, before, g) ==> Complete(all, after, g);
  }

  lemma PlainIsCollected(all: seq<MigrationFile>, superseded: set<nat>, f: MigrationFile)
    requires f in all
    ensures f.squash.None? ==> Collected(all, superseded, f.version)
  {
    if f.squash.None? && UniqueVersions(all) {
      assert forall g <- all :: g.version == f.version ==> g == f;
    }
  }

  lemma PlainIsWalked(
    all: seq<MigrationFile>, byVersion: map<nat, MigrationFile>, superseded: set<nat>,
    f: MigrationFile, q: Replacement)
    requires IndexOf(all, byVersion) && q.version in superseded
    requires q.version in byVersion && q.version < f.version ==> byVersion[q.version].squash.None?
    ensures Walked(all, superseded, f, q)
  {
    if UniqueVersions(all) {
      assert forall c <- all :: c.version == q.version ==> c == byVersion[q.version];
    }
  }

  lemma SquashIsWalked(
    all: seq<MigrationFile>, superseded: set<nat>, f: MigrationFile, q: Replacement, c: MigrationFile)
    requires q.version in superseded && c in all && c.version == q.version && !Mismatch(c, q)
    requires Collected(all, superseded, c.version)
    ensures Walked(all, superseded, f, q)
  {
    if UniqueVersions(all) {
      assert forall g <- all :: g.version == c.version ==> g == c;
    }
  }

  lemma WalkedIsCollected(all: seq<MigrationFile>, superseded: set<nat>, f: MigrationFile)
    requires f in all && forall q <- Replaces(f) :: Walked(all, superseded, f, q)
    ensures Collected(all, superseded, f.version)
  {
    if UniqueVersions(all) {
      forall u | Covers(all, f, u) ensures u in superseded {
        var q :| q in Replaces(f) && (q.version == u || (q.version < f.version
            && exists g <- all :: g.version == q.version && Covers(all, g, u)));
        assert Walked(all, superseded, f, q);
      }
      assert Complete(all, superseded, f);
      assert forall g <- all :: g.version == f.version ==> g == f;
    }
  }

  lemma CoveredThrough(all: seq<MigrationFile>, f: MigrationFile, q: Replacement, c: MigrationFile)
    requires q in Replaces(f) && c in all && c.version == q.version && c.version < f.version
    ensures CoverSet(all, c) <= CoverSet(all, f)
    ensures c.squash.Some? && (Mismatch(c, q) || BrokenChain(all, c)) ==> BrokenChain(all, f)
  {
  }

  // The applied squash files among all[..n] are intact and collected.
  ghost predicate RootsCollected(all: seq<MigrationFile>, applied: History, superseded: set<nat>, n: nat)
    requires n <= |all|
  {
    forall k :: 0 <= k < n && all[k].squash.Some? && all[k].version in applied ==>
      applied[all[k].version].hash == all[k].upHash && Collected(all, superseded, all[k].version)
  }

  lemma RootsCollectedExact(all: seq<MigrationFile>, applied: History, superseded: set<nat>)
    requires UniqueVersions(all) && RootsCollected(all, applied, superseded, |all|)
    ensures !TamperedSquash(all, applied)
    ensures Superseded(all, applied) <= AsISet(superseded)
  {
    forall f | f in all && f.squash.Some? && f.version in applied
      ensures applied[f.version].hash == f.upHash && Complete(all, superseded, f)
    {
      assert Collected(all, superseded, f.version);
    }
    forall v | IsSuperseded(all, applied, v) ensures v in superseded {
      var f :| f in all && f.version in applied && Covers(all, f, v);
      assert Complete(all, superseded, f) && v in CoverSet(all, f);
    }
  }

  // What the walk has collected after the roots among all[..n].
  ghost predicate RootsWalked(
    all: seq<MigrationFile>, applied: History, superseded: set<nat>, visited: set<nat>, n: nat)
    requires n <= |all|
  {
    && AsISet(superseded) <= Superseded(all, applied)
    && CollectedSince(all, superseded, {}, visited)
    && RootsCollected(all, applied, superseded, n)
  }

  lemma RootWalked(
    all: seq<MigrationFile>, applied: History, n: nat,
    before: set<nat>, after: set<nat>, seen: set<nat>, visited: set<nat>)
    requires n < |all| && all[n].version in applied && applied[all[n].version].hash == all[n].upHash
    requires RootsWalked(all, applied, before, seen, n)
    requires OnlyCovered(all, all[n], before, after)
    requires CollectedSince(all, after, seen, visited) && Collected(all, after, all[n].version)
    ensures RootsWalked(all, applied, after, visited, n + 1)
  {
    hide Covers, BrokenChain;
    assert forall g :: Complete(all, before, g) ==> Complete(all, after, g);
    assert forall v :: Collected(all, before, v) ==> Collected(all, after, v);
  }

  // One applied squash file as a root of the walk.
  method VisitRoot(walk: SupersessionWalk, applied: History, ghost n: nat, migration: MigrationFile)
    returns (ok: bool)
    requires walk.byVersion == ByVersion(walk.all) && n < |walk.all| && migration == walk.all[n]
    requires migration.squash.Some? && migration.version in applied
    requires RootsWalked(walk.all, applied, walk.superseded, walk.visited, n)
    modifies walk
    ensures ok ==> RootsWalked(walk.all, applied, walk.superseded, walk.visited, n + 1)
    ensures !ok ==> TamperedSquash(walk.all, applied)
  {
    if applied[migration.version].hash != migration.upHash {
      return false;
    }
    ok := walk.VisitReplacements(migration);
    if ok {
      RootWalked(walk.all, applied, n, old(walk.superseded), walk.superseded, old(walk.visited), walk.visited);
    }
  }

  // appliedSquashSupersededVersions: none exactly when an applied squash or a squash
  // below it was tampered with, otherwise the superseded versions.
  method AppliedSquashSupersededVersions(all: seq<MigrationFile>, applied: History)
    returns (r: Option<set<nat>>)
    ensures r.None? ==> TamperedSquash(all, applied)
    ensures UniqueVersions(all) && r.Some? ==>
              !TamperedSquash(all, applied) && AsISet(r.value) == Superseded(all, applied)
  {
    var walk := new SupersessionWalk(all);
    for i := 0 to |all|
      invariant fresh(walk) && walk.all == all && walk.byVersion == ByVersion(all)
      invariant RootsWalked(all, applied, walk.superseded, walk.visited, i)
    {
      var migration := all[i];
      if migration.squash.None? || migration.version !in applied {
        continue;
      }
      var ok := VisitRoot(walk, applied, i, migration);
      if !ok {
        return None;
      }
    }
    r := Some(walk.superseded);
    if UniqueVersions(all) {
      RootsCollectedExact(all, applied, walk.superseded);
    }
  }

  ghost function AsISet(s: set<nat>): iset<nat> {
    iset v | v in s
  }

  // ---------------------------------------------------------------- preflight

  method PreflightSquashMigrations(all: seq<MigrationFile>, applied: History, superseded: set<nat>)
    returns (verdict: Verdict)
    ensures verdict == Preflight(all, ByVersion(all), AsISet(superseded), applied, 0)
  {
    var byVersion := ByVersion(all);
    ghost var sup := AsISet(superseded);
    for j := 0 to |all|
      invariant Preflight(all, byVersion, sup, applied, 0) == Preflight(all, byVersion, sup, applied, j)
    {
      var migration := all[j];
      if migration.squash.None? {
        continue;
      }
      var reps := migration.squash.value;
      var present := 0;
      for i := 0 to |reps|
        invariant PreflightFile(byVersion, sup, applied, migration, 0, 0)
               == PreflightFile(byVersion, sup, applied, migration, i, present)
      {
        var q := reps[i];
        if q.version >= migration.version {
          return VerdictFailed;
        }
        if StaleReplacement(byVersion, q.version in superseded, q) {
          return VerdictTampered;
        }
        if q.version !in applied {
          continue;
        }
        present := present + 1;
        if applied[q.version].hash != q.upHash || applied[q.version].name != q.name {
          return VerdictTampered;
        }
      }
      if present > 0 && present != |reps| {
        return VerdictFailed;
      }
    }
    verdict := Fine;
  }

  // ----------------------------------------------------------------- planning

  method PlanSquashAdoption(migration: MigrationFile, applied: History) returns (adoption: Adoption)
    ensures adoption == AdoptionFrom(migration, applied, 0, 0)
  {
    if migration.squash.None? {
      return NoAdoption;
    }
    var reps := migration.squash.value;
    var present := 0;
    for i := 0 to |reps|
      invariant AdoptionFrom(migration, applied, 0, 0) == AdoptionFrom(migration, applied, i, present)
    {
      var q := reps[i];
      if q.version >= migration.version {
        return AdoptionFailed;
      }
      if q.version !in applied {
        continue;
      }
      present := present + 1;
      if applied[q.version].hash != q.upHash || applied[q.version].name != q.name {
        return AdoptionTampered;
      }
    }
    if present == 0 {
      return NoAdoption;
    }
    if present != |reps| {
      return AdoptionFailed;
    }
    adoption := Adoptable(|reps|);
  }

  function After(steps: seq<Step>, plan: Plan): Plan {
    if plan.Planned? then Planned(steps + plan.steps) else plan
  }

  // One turn of the planning loop.
  lemma PlanTurn(all: seq<MigrationFile>, sup: iset<nat>, j: nat, applied: History, p: History, steps: seq<Step>)
    requires j < |all| && p == Exec(applied, steps)
    ensures var d, plan := Decide(all[j], all[j].version in sup, p), After(steps, PlanFrom(all, sup, j, p));
            && (d.Skip? ==> plan == After(steps, PlanFrom(all, sup, j + 1, p)))
            && (d.Do? ==> plan == After(steps + [d.step], PlanFrom(all, sup, j + 1, ExecStep(p, d.step))))
            && (d.Do? ==> ExecStep(p, d.step) == Exec(applied, steps + [d.step]))
            && (d.Stop? ==> plan == d.plan && !d.plan.Planned?)
  {
    var decision := Decide(all[j], all[j].version in sup, p);
    if decision.Do? {
      ExecAppend(applied, steps, decision.step);
      TakeStep(steps, decision.step, PlanFrom(all, sup, j + 1, ExecStep(p, decision.step)));
    }
    hide Exec, ExecStep, AdoptionFrom;
  }

  lemma TakeStep(steps: seq<Step>, step: Step, rest: Plan)
    ensures After(steps, Prepend(step, rest)) == After(steps + [step], rest)
  {
    if rest.Planned? {
      assert steps + ([step] + rest.steps) == steps + [step] + rest.steps;
    }
  }

  lemma NoMoreSteps(all: seq<MigrationFile>, sup: iset<nat>, p: History, steps: seq<Step>)
    ensures After(steps, PlanFrom(all, sup, |all|, p)) == Planned(steps)
  {
    assert steps + [] == steps;
  }

  lemma NoStepsYet(all: seq<MigrationFile>, sup: iset<nat>, p: History)
    ensures After([], PlanFrom(all, sup, 0, p)) == PlanFrom(all, sup, 0, p) && Exec(p, []) == p
  {
    hide PlanFrom;
    var plan := PlanFrom(all, sup, 0, p);
    if plan.Planned? {
      assert [] + plan.steps == plan.steps;
    }
  }

  // The planning loop, with the history it simulates as a ghost.
  method PlanSteps(all: seq<MigrationFile>, applied: History, superseded: set<nat>)
    returns (plan: Plan, ghost simulated: History)
    ensures plan == PlanFrom(all, AsISet(superseded), 0, applied)
    ensures plan.Planned? ==> simulated == Exec(applied, plan.steps)
  {
    hide PlanFrom, Exec, After, AdoptionFrom, WithoutVersions;
    var plannedApplied: History := applied;
    var steps: seq<Step> := [];
    ghost var sup := AsISet(superseded);
    ghost var goal := PlanFrom(all, sup, 0, applied);
    NoStepsYet(all, sup, applied);
    for j := 0 to |all|
      invariant goal == After(steps, PlanFrom(all, sup, j, plannedApplied))
      invariant plannedApplied == Exec(applied, steps)
    {
      PlanTurn(all, sup, j, applied, plannedApplied, steps);
      var migration := all[j];
      if migration.version in superseded {
        continue;
      }
      if migration.version in plannedApplied {
        if plannedApplied[migration.version].hash != migration.upHash {
          return PlanTampered, plannedApplied;
        }
        continue;
      }
      var adoption := PlanSquashAdoption(migration, plannedApplied);
      if adoption.Adoptable? {
        steps := steps + [Adopt(migration, adoption.replaced)];
        plannedApplied := WithoutVersions(plannedApplied, Replaces(migration))[migration.version := RowOf(migration)];
        continue;
      }
      if adoption == AdoptionTampered {
        return PlanTampered, plannedApplied;
      }
      if adoption == AdoptionFailed {
        return PlanFailed, plannedApplied;
      }
      steps := steps + [Apply(migration)];
      plannedApplied := plannedApplied[migration.version := RowOf(migration)];
    }
    NoMoreSteps(all, sup, plannedApplied, steps);
    plan, simulated := Planned(steps), plannedApplied;
  }

  // buildMigrationPlan: the plan, and as a ghost the history that planning simulated.
  method BuildMigrationPlan(all: seq<MigrationFile>, applied: History)
    returns (plan: Plan, ghost simulated: History)
    ensures UniqueVersions(all) ==> plan == PlanOf(all, applied)
    ensures plan.Planned? ==> simulated == Exec(applied, plan.steps)
  {
    simulated := applied;
    var superseded := AppliedSquashSupersededVersions(all, applied);
    if superseded.None? {
      return PlanTampered, simulated;
    }
    var preflight := PreflightSquashMigrations(all, applied, superseded.value);
    if preflight == VerdictFailed {
      return PlanFailed, simulated;
    }
    if preflight == VerdictTampered {
      return PlanTampered, simulated;
    }
    plan, simulated := PlanSteps(all, applied, superseded.value);
  }

  // ---------------------------------------------------------------- execution

  // A migration body that was run, and whether the session was clean when it was sent: no body
  // since the last RESET ALL.
  datatype Body = Body(file: MigrationFile, clean: bool)

  // The bodies that executing the steps runs: those of the ordinary migrations, in order. Only
  // the first can meet a session that is not clean.
  function BodiesOf(steps: seq<Step>, clean: bool): seq<Body> {
    if steps == [] then []
    else
      var last := steps[|steps| - 1];
      BodiesOf(steps[..|steps| - 1], clean)
      + if last.Apply? then [Body(last.migration, clean || |steps| > 1)] else []
  }

  lemma BodiesAppend(steps: seq<Step>, step: Step, clean: bool)
    ensures BodiesOf(steps + [step], clean)
         == BodiesOf(steps, clean) + if step.Apply? then [Body(step.migration, clean || |steps| > 0)] else []
  {
    assert (steps + [step])[..|steps|] == steps;
  }

  // What an open transaction has done: the rows as it sees them, and the bodies it ran.
  datatype Work = Work(rows: History, ran: seq<Body>)

  /**
   The migration connection. `table` is the committed history and `bodies` are the migration
   bodies whose transactions were committed; `open` is the work of an open transaction. Every
   command may fail; a failed COMMIT may or may not have taken effect (the answer was lost).
   `faults` counts the failures, apart from the refusal of a second row for a version.
   */
  class Database {
    var table: History
    var bodies: seq<Body>
    var open: Option<Work>
    var clean: bool
    ghost var faults: nat

    constructor (table: History, bodies: seq<Body>, clean: bool)
      ensures this.table == table && this.bodies == bodies && this.clean == clean && open == None && faults == 0
    {
      this.table, this.bodies, this.clean, open := table, bodies, clean, None;
      faults := 0;
    }

    // Whether the command that is sent now fails.
    method Attempt() returns (ok: bool)
      modifies `faults
      ensures faults == old(faults) + if ok then 0 else 1
    {
      ok := *;
      faults := faults + if ok then 0 else 1;
    }

    method Begin() returns (ok: bool)
      modifies `open, `faults
      ensures ok ==> open == Some(Work(table, bodies))
      ensures faults == old(faults) + if ok then 0 else 1
    {
      ok := Attempt();
      open := if ok then Some(Work(table, bodies)) else None;
    }

    method DeleteRow(version: nat) returns (ok: bool)
      requires open.Some?
      modifies `open, `faults
      ensures open.Some?
      ensures ok ==> open.value == old(open.value).(rows := old(open.value).rows - {version})
      ensures faults == old(faults) + if ok then 0 else 1
    {
      ok := Attempt();
      if ok {
        open := Some(open.value.(rows := open.value.rows - {version}));
      }
    }

    // The version is the primary key: a second row for it is refused.
    method InsertRow(version: nat, row: Row) returns (ok: bool)
      requires open.Some?
      modifies `open, `faults
      ensures open.Some?
      ensures ok ==> open.value == old(open.value).(rows := old(open.value).rows[version := row])
      ensures faults >= old(faults) && (faults == old(faults) ==> (ok <==> version !in old(open.value).rows))
    {
      ok := Attempt();
      ok := ok && version !in open.value.rows;
      if ok {
        open := Some(open.value.(rows := open.value.rows[version := row]));
      }
    }

    // The SQL of a migration, which leaves the history table alone.
    method RunBody(migration: MigrationFile) returns (ok: bool)
      requires open.Some?
      modifies `open, `clean, `faults
      ensures open.Some?
      ensures ok ==> open.value == old(open.value).(ran := old(open.value).ran + [Body(migration, old(clean))])
      ensures faults == old(faults) + if ok then 0 else 1
    {
      ok := Attempt();
      if ok {
        open := Some(open.value.(ran := open.value.ran + [Body(migration, clean)]));
      }
      clean := false;
    }

    method Commit() returns (ok: bool)
      requires open.Some?
      modifies `table, `bodies, `open, `faults
      ensures open == None && faults == old(faults) + if ok then 0 else 1
      ensures || (table == old(open.value).rows && bodies == old(open.value).ran)
              || (!ok && table == old(table) && bodies == old(bodies))
    {
      ok := Attempt();
      var tookEffect: bool := *;
      if ok || tookEffect {
        table, bodies := open.value.rows, open.value.ran;
      }
      open := None;
    }

    method Rollback() returns (ok: bool)
      modifies `open, `faults
      ensures open == None && faults == old(faults) + if ok then 0 else 1
    {
      ok := Attempt();
      open := None;
    }

    // RESET ALL.
    method ResetSession() returns (ok: bool)
      modifies `clean, `faults
      ensures ok ==> clean
      ensures faults == old(faults) + if ok then 0 else 1
    {
      ok := Attempt();
      clean := clean || ok;
    }
  }

  datatype Outcome = Done | StepFailed | Threw

  // What planning promises of a step: its migration has no row yet, and only squash files adopt.
  predicate StepFits(h: History, step: Step) {
    step.migration.version !in h && (step.Adopt? ==> step.migration.squash.Some?)
  }

  predicate StepsFit(h: History, steps: seq<Step>)
    decreases |steps|
  {
    steps != [] ==> StepFits(h, steps[0]) && StepsFit(ExecStep(h, steps[0]), steps[1..])
  }

  lemma {:induction false} PlannedStepsFit(all: seq<MigrationFile>, sup: iset<nat>, j: nat, p: History)
    requires j <= |all| && PlanFrom(all, sup, j, p).Planned?
    ensures StepsFit(p, PlanFrom(all, sup, j, p).steps)
    decreases |all| - j
  {
    hide ExecStep;
    if j < |all| {
      match Decide(all[j], all[j].version in sup, p)
      case Skip => PlannedStepsFit(all, sup, j + 1, p);
      case Do(step) =>
        PlannedStepsFit(all, sup, j + 1, ExecStep(p, step));
        PlanTail(all, sup, j, p, step, PlanFrom(all, sup, j, p).steps);
    }
  }

  lemma {:induction false} StepFitsAt(h: History, steps: seq<Step>, k: nat)
    requires StepsFit(h, steps) && k < |steps|
    ensures StepFits(Exec(h, steps[..k]), steps[k])
    decreases k
  {
    hide ExecStep, StepFits;
    if k == 0 {
      assert steps[..0] == [];
    } else {
      StepFitsAt(ExecStep(h, steps[0]), steps[1..], k - 1);
      ExecTail(h, steps, k);
    }
  }

  // executeSquashAdoption: the database is as before or has the whole adoption, and no migration
  // body is run.
  method ExecuteSquashAdoption(db: Database, migration: MigrationFile) returns (outcome: Outcome)
    modifies db
    ensures db.bodies == old(db.bodies)
    ensures db.table == old(db.table)
            || db.table == ExecStep(old(db.table), Adopt(migration, |Replaces(migration)|))
    ensures outcome.Done? ==>
              db.clean && db.table == ExecStep(old(db.table), Adopt(migration, |Replaces(migration)|))
    ensures outcome.Threw? ==> db.table == old(db.table)
    ensures db.faults >= old(db.faults)
    ensures db.faults == old(db.faults) && StepFits(old(db.table), Adopt(migration, |Replaces(migration)|)) ==> outcome.Done?
  {
    if migration.squash.None? {
      return StepFailed;
    }
    var reps := migration.squash.value;
    var ok := db.Begin();
    if !ok {
      return Threw;
    }
    var i := 0;
    while i < |reps| && ok
      invariant 0 <= i <= |reps|
      invariant db.open.Some? && db.table == old(db.table) && db.bodies == old(db.bodies)
      invariant db.faults >= old(db.faults) && (!ok ==> db.faults > old(db.faults))
      invariant ok ==> db.open.value == Work(WithoutVersions(db.table, reps[..i]), db.bodies)
    {
      ok := db.DeleteRow(reps[i].version);
      assert reps[..i + 1] == reps[..i] + [reps[i]];
      i := i + 1;
    }
    assert reps[..|reps|] == reps;
    if ok {
      ok := db.InsertRow(migration.version, RowOf(migration));
    }
    if ok {
      ok := db.Commit();
    }
    if !ok {
      var _ := db.Rollback();
      return StepFailed;
    }
    ok := db.ResetSession();
    outcome := if ok then Done else StepFailed;
  }

  // One ordinary migration: the database is as before, or its body was run and its row is there.
  method ExecuteApply(db: Database, migration: MigrationFile) returns (outcome: Outcome)
    modifies db
    ensures || (db.table == old(db.table) && db.bodies == old(db.bodies))
            || (db.table == ExecStep(old(db.table), Apply(migration))
                && db.bodies == old(db.bodies) + [Body(migration, old(db.clean))])
    ensures outcome.Done? ==>
              && db.clean && db.table == ExecStep(old(db.table), Apply(migration))
              && db.bodies == old(db.bodies) + [Body(migration, old(db.clean))]
    ensures outcome.Threw? ==> db.table == old(db.table) && db.bodies == old(db.bodies)
    ensures db.faults >= old(db.faults)
    ensures db.faults == old(db.faults) && StepFits(old(db.table), Apply(migration)) ==> outcome.Done?
  {
    var ok := db.Begin();
    if !ok {
      return Threw;
    }
    ok := db.RunBody(migration);
    if ok {
      ok := db.InsertRow(migration.version, RowOf(migration));
    }
    if ok {
      ok := db.Commit();
    }
    if !ok {
      var _ := db.Rollback();
      return StepFailed;
    }
    ok := db.ResetSession();
    outcome := if ok then Done else StepFailed;
  }

  // One turn of the loop of applyPending.
  method ExecuteStep(db: Database, step: Step) returns (outcome: Outcome)
    modifies db
    ensures || (db.table == old(db.table) && db.bodies == old(db.bodies) + [])
            || (!outcome.Threw? && db.table == ExecStep(old(db.table), step)
                && db.bodies == old(db.bodies) + if step.Apply? then [Body(step.migration, old(db.clean))] else [])
    ensures outcome.Done? ==>
              && db.clean && db.table == ExecStep(old(db.table), step)
              && db.bodies == old(db.bodies) + if step.Apply? then [Body(step.migration, old(db.clean))] else []
    ensures db.faults >= old(db.faults)
    ensures db.faults == old(db.faults) && StepFits(old(db.table), step) ==> outcome.Done?
  {
    if step.Apply? {
      outcome := ExecuteApply(db, step.migration);
    } else {
      outcome := ExecuteSquashAdoption(db, step.migration);
    }
  }

  datatype RunResult = RunResult(applied: nat, outcome: Outcome, plan: Plan)

  // The table and the bodies that executing the first k steps of a plan leaves.
  ghost predicate HoldsPrefix(
    table: History, bodies: seq<Body>, table0: History, bodies0: seq<Body>, clean: bool, steps: seq<Step>, k: nat)
    requires k <= |steps|
  {
    table == Exec(table0, steps[..k]) && bodies == bodies0 + BodiesOf(steps[..k], clean)
  }

  lemma PrefixStart(table: History, bodies: seq<Body>, clean: bool, steps: seq<Step>)
    ensures HoldsPrefix(table, bodies, table, bodies, clean, steps, 0)
  {
    assert steps[..0] == [];
  }

  lemma PrefixStep(
    table: History, bodies: seq<Body>, table0: History, bodies0: seq<Body>, clean: bool, steps: seq<Step>, k: nat)
    requires k < |steps| && HoldsPrefix(table, bodies, table0, bodies0, clean, steps, k)
    ensures HoldsPrefix(
              ExecStep(table, steps[k]),
              bodies + if steps[k].Apply? then [Body(steps[k].migration, clean || k > 0)] else [],
              table0, bodies0, clean, steps, k + 1)
  {
    hide ExecStep;
    assert steps[..k + 1] == steps[..k] + [steps[k]];
    ExecAppend(table0, steps[..k], steps[k]);
    BodiesAppend(steps[..k], steps[k], clean);
    hide Exec, BodiesOf;
  }

  lemma PrefixEnd(
    table: History, bodies: seq<Body>, table0: History, bodies0: seq<Body>, clean: bool, steps: seq<Step>)
    requires HoldsPrefix(table, bodies, table0, bodies0, clean, steps, |steps|)
    ensures table == Exec(table0, steps) && bodies == bodies0 + BodiesOf(steps, clean)
  {
    hide Exec, BodiesOf;
    assert steps[..|steps|] == steps;
  }

  lemma PrefixTable(
    table: History, bodies: seq<Body>, table0: History, bodies0: seq<Body>, clean: bool, steps: seq<Step>, k: nat)
    requires k <= |steps| && HoldsPrefix(table, bodies, table0, bodies0, clean, steps, k)
    ensures table == Exec(table0, steps[..k])
  {
  }

  lemma PlanFits(all: seq<MigrationFile>, h: History)
    requires PlanOf(all, h).Planned?
    ensures StepsFit(h, PlanOf(all, h).steps)
  {
    hide StepsFit;
    PlannedStepsFit(all, Superseded(all, h), 0, h);
  }

  // applyPending. Wherever it stops, the committed table and the committed migration bodies are
  // those of one prefix of the plan: the counted steps, or one more whose answer was lost. Without a
  // failure it is the whole plan.
  method ApplyPending(db: Database, all: seq<MigrationFile>) returns (r: RunResult)
    modifies db
    ensures UniqueVersions(all) ==> r.plan == PlanOf(all, old(db.table))
    ensures !r.plan.Planned? ==> db.table == old(db.table) && db.bodies == old(db.bodies) && r.applied == 0
    ensures r.plan.Planned? ==>
              && var steps := r.plan.steps;
              && r.applied <= |steps|
              && (|| HoldsPrefix(db.table, db.bodies, old(db.table), old(db.bodies), old(db.clean), steps, r.applied)
                  || (r.applied < |steps| && r.outcome.StepFailed?
                      && HoldsPrefix(db.table, db.bodies, old(db.table), old(db.bodies), old(db.clean), steps, r.applied + 1)))
    ensures r.plan.Planned? && r.outcome.Done? ==>
              && r.applied == |r.plan.steps|
              && db.table == Exec(old(db.table), r.plan.steps)
              && db.bodies == old(db.bodies) + BodiesOf(r.plan.steps, old(db.clean))
    ensures UniqueVersions(all) && r.plan.Planned? && db.faults == old(db.faults) ==> r.outcome.Done?
  {
    var plan, _ := BuildMigrationPlan(all, db.table);
    if !plan.Planned? {
      return RunResult(0, StepFailed, plan);
    }
    hide HoldsPrefix, ExecStep, Exec, BodiesOf, StepsFit, StepFits;
    var steps := plan.steps;
    if UniqueVersions(all) {
      PlanFits(all, db.table);
    }
    PrefixStart(db.table, db.bodies, db.clean, steps);
    for i := 0 to |steps|
      invariant HoldsPrefix(db.table, db.bodies, old(db.table), old(db.bodies), old(db.clean), steps, i)
      invariant db.clean == (old(db.clean) || i > 0) && db.faults >= old(db.faults)
    {
      if UniqueVersions(all) {
        StepFitsAt(old(db.table), steps, i);
        PrefixTable(db.table, db.bodies, old(db.table), old(db.bodies), old(db.clean), steps, i);
      }
      var step := steps[i];
      PrefixStep(db.table, db.bodies, old(db.table), old(db.bodies), old(db.clean), steps, i);
      var outcome := ExecuteStep(db, step);
      if !outcome.Done? {
        return RunResult(i, outcome, plan);
      }
    }
    PrefixEnd(db.table, db.bodies, old(db.table), old(db.bodies), old(db.clean), steps);
    r := RunResult(|steps|, Done, plan);
  }
}
