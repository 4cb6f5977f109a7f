/**
 Squash chains: directories whose squash files were all made by
 createSquashMigration of src/commands/migration-files.ts.
 */
module MigrationChains {
  import opened Wrappers
  import opened MigrationPlan

  function ReplacementOf(f: MigrationFile): Replacement {
    Replacement(f.version, f.name, f.upHash)
  }

  // The versions that some squash file replaces.
  function Covered(all: seq<MigrationFile>): set<nat> {
    set f <- all, q <- Replaces(f) :: q.version
  }

  // The files of all[..j] that are not covered, in file order.
  function Uncovered(all: seq<MigrationFile>, covered: set<nat>, j: nat): seq<Replacement>
    requires j <= |all|
  {
    if j == 0 then []
    else Uncovered(all, covered, j - 1)
         + if all[j - 1].version in covered then [] else [ReplacementOf(all[j - 1])]
  }

  function Effective(all: seq<MigrationFile>): seq<Replacement> {
    Uncovered(all, Covered(all), |all|)
  }

  // The history holding exactly the given replacements.
  function HistoryOf(reps: seq<Replacement>): History {
    if reps == [] then map[]
    else HistoryOf(reps[..|reps| - 1])[reps[|reps| - 1].version :=
           Row(reps[|reps| - 1].name, reps[|reps| - 1].upHash)]
  }

  // Every squash file replaces the effective files before it; the first file may also be
  // a squash whose predecessors are archived.
  ghost predicate SquashChain(all: seq<MigrationFile>) {
    && Increasing(all)
    && forall k :: 0 <= k < |all| && all[k].squash.Some? ==>
         || Replaces(all[k]) == Effective(all[..k])
         || (k == 0 && forall q <- Replaces(all[0]) :: q.version < all[0].version)
  }

  // The file that createSquashMigration writes for an existing directory.
  function CreateSquash(existing: seq<MigrationFile>, name: string, upHash: string): MigrationFile
    requires existing != []
  {
    MigrationFile(existing[|existing| - 1].version + 1, name, upHash, Some(Effective(existing)))
  }

  // ----------------------------------------------------------- effective files

  lemma {:induction false} UncoveredFrom(
    all: seq<MigrationFile>, covered: set<nat>, j: nat, q: Replacement)
    requires j <= |all|
    ensures q in Uncovered(all, covered, j)
            <==> exists i :: 0 <= i < j && q == ReplacementOf(all[i]) && all[i].version !in covered
  {
    if j > 0 {
      UncoveredFrom(all, covered, j - 1, q);
    }
  }

  lemma {:induction false} UncoveredAgrees(
    all: seq<MigrationFile>, more: seq<MigrationFile>, covered: set<nat>, covered': set<nat>, j: nat)
    requires j <= |all|
    requires forall i :: 0 <= i < j ==> (all[i].version in covered <==> all[i].version in covered')
    ensures Uncovered(all + more, covered', j) == Uncovered(all, covered, j)
  {
    if j > 0 {
      UncoveredAgrees(all, more, covered, covered', j - 1);
    }
  }

  lemma {:induction false} UncoveredNone(all: seq<MigrationFile>, covered: set<nat>, j: nat)
    requires j <= |all| && forall i :: 0 <= i < j ==> all[i].version in covered
    ensures Uncovered(all, covered, j) == []
  {
    if j > 0 {
      UncoveredNone(all, covered, j - 1);
    }
  }

  lemma FrontIncreasing(all: seq<MigrationFile>, f: MigrationFile)
    requires Increasing(all + [f])
    ensures Increasing(all) && forall g <- all :: g.version < f.version
  {
    forall i, j | 0 <= i < j < |all| ensures all[i].version < all[j].version {
      assert (all + [f])[i] == all[i] && (all + [f])[j] == all[j];
    }
    forall i | 0 <= i < |all| ensures all[i].version < f.version {
      assert (all + [f])[i] == all[i] && (all + [f])[|all|] == f;
    }
  }

  lemma CoveredAppend(all: seq<MigrationFile>, f: MigrationFile)
    ensures Covered(all + [f]) == Covered(all) + set q <- Replaces(f) :: q.version
  {
  }

  lemma NewestIsUncovered(all: seq<MigrationFile>, f: MigrationFile)
    requires Increasing(all + [f]) && Checked(all + [f])
    ensures f.version !in Covered(all + [f])
  {
    FrontIncreasing(all, f);
  }

  // Appending a file that replaces no existing file keeps the effective files.
  lemma EffectiveAppend(all: seq<MigrationFile>, f: MigrationFile)
    requires Increasing(all + [f]) && Checked(all + [f])
    requires forall i, q :: 0 <= i < |all| && q in Replaces(f) ==> q.version != all[i].version
    ensures Effective(all + [f]) == Effective(all) + [ReplacementOf(f)]
  {
    CoveredAppend(all, f);
    UncoveredAgrees(all, [f], Covered(all), Covered(all + [f]), |all|);
    NewestIsUncovered(all, f);
  }

  lemma SquashCovers(all: seq<MigrationFile>, f: MigrationFile, g: MigrationFile)
    requires g in all && forall q <- Effective(all) :: q in Replaces(f)
    ensures g.version in Covered(all + [f])
  {
    CoveredAppend(all, f);
    if g.version !in Covered(all) {
      UncoveredFrom(all, Covered(all), |all|, ReplacementOf(g));
      assert ReplacementOf(g) in Replaces(f);
    }
  }

  // A squash of the effective files leaves itself as the only effective file.
  lemma EffectiveSquash(all: seq<MigrationFile>, f: MigrationFile)
    requires Increasing(all + [f]) && Checked(all + [f]) && Replaces(f) == Effective(all)
    ensures Effective(all + [f]) == [ReplacementOf(f)]
  {
    var covered := Covered(all + [f]);
    forall i | 0 <= i < |all| ensures (all + [f])[i].version in covered {
      SquashCovers(all, f, all[i]);
    }
    NewestIsUncovered(all, f);
    UncoveredNone(all + [f], covered, |all|);
  }

  // ------------------------------------------------------------------- checked

  lemma ChainIsOlder(all: seq<MigrationFile>, k: nat, q: Replacement)
    requires SquashChain(all) && k < |all| && q in Replaces(all[k])
    ensures q.version < all[k].version
    ensures (exists i :: 0 <= i < k && q == ReplacementOf(all[i])) || (k == 0 && q.version < all[0].version)
  {
    if Replaces(all[k]) == Effective(all[..k]) {
      UncoveredFrom(all[..k], Covered(all[..k]), k, q);
    }
  }

  lemma ChainIsChecked(all: seq<MigrationFile>)
    requires SquashChain(all)
    ensures Checked(all)
  {
    forall k, q | 0 <= k < |all| && q in Replaces(all[k])
      ensures q.version < all[k].version && forall c <- all :: c.version == q.version ==> !Mismatch(c, q)
    {
      ChainIsOlder(all, k, q);
    }
  }

  lemma ChainPrefix(all: seq<MigrationFile>, k: nat)
    requires SquashChain(all) && k <= |all|
    ensures SquashChain(all[..k])
  {
    forall i | 0 <= i < k && all[..k][i].squash.Some?
      ensures Replaces(all[i]) == Effective(all[..k][..i])
              || (i == 0 && forall q <- Replaces(all[0]) :: q.version < all[0].version)
    {
      assert all[..k][..i] == all[..i];
    }
  }

  // ------------------------------------------------------------------ planning

  ghost predicate DistinctReplacements(reps: seq<Replacement>) {
    forall i, j :: 0 <= i < j < |reps| ==> reps[i].version != reps[j].version
  }

  lemma {:induction false} HistoryOfHolds(reps: seq<Replacement>, q: Replacement)
    requires DistinctReplacements(reps)
    ensures forall v <- HistoryOf(reps) :: exists r <- reps :: r.version == v
    ensures q in reps ==> q.version in HistoryOf(reps) && HistoryOf(reps)[q.version] == Row(q.name, q.upHash)
  {
    if reps == [] {
    } else {
      var front, last := reps[..|reps| - 1], reps[|reps| - 1];
      HistoryOfHolds(front, q);
      assert HistoryOf(reps) == HistoryOf(front)[last.version := Row(last.name, last.upHash)];
      hide HistoryOf;
      forall v | v in HistoryOf(reps) ensures exists r <- reps :: r.version == v {
        if v == last.version {
          assert last in reps;
        } else {
          var r :| r in front && r.version == v;
          assert r in reps;
        }
      }
      if q in reps && q != last {
        FrontDiffers(reps, q);
      }
    }
  }

  lemma FrontDiffers(reps: seq<Replacement>, q: Replacement)
    requires DistinctReplacements(reps) && q in reps && q != reps[|reps| - 1]
    ensures q in reps[..|reps| - 1] && q.version != reps[|reps| - 1].version
  {
  }

  lemma {:induction false} UncoveredDistinct(all: seq<MigrationFile>, covered: set<nat>, j: nat)
    requires j <= |all| && forall i, k :: 0 <= i < k < j ==> all[i].version < all[k].version
    ensures DistinctReplacements(Uncovered(all, covered, j))
    ensures forall q <- Uncovered(all, covered, j) :: exists i :: 0 <= i < j && q.version == all[i].version
  {
    if j > 0 {
      UncoveredDistinct(all, covered, j - 1);
    }
  }

  lemma {:induction false} AdoptionOfPresentRows(f: MigrationFile, h: History, i: nat)
    requires i <= |Replaces(f)|
    requires forall q <- Replaces(f) :: q.version < f.version && q.version in h && h[q.version] == Row(q.name, q.upHash)
    ensures AdoptionFrom(f, h, i, i) == if Replaces(f) == [] then NoAdoption else Adoptable(|Replaces(f)|)
    decreases |Replaces(f)| - i
  {
    if i < |Replaces(f)| {
      assert Replaces(f)[i] in Replaces(f);
      AdoptionOfPresentRows(f, h, i + 1);
    }
  }

  lemma {:induction false} AdoptionOfAbsentRows(f: MigrationFile, h: History, i: nat)
    requires i <= |Replaces(f)|
    requires forall q <- Replaces(f) :: q.version < f.version && q.version !in h
    ensures AdoptionFrom(f, h, i, 0) == NoAdoption
    decreases |Replaces(f)| - i
  {
    if i < |Replaces(f)| {
      assert Replaces(f)[i] in Replaces(f);
      AdoptionOfAbsentRows(f, h, i + 1);
    }
  }

  lemma HistoryOfAppend(reps: seq<Replacement>, q: Replacement)
    ensures HistoryOf(reps + [q]) == HistoryOf(reps)[q.version := Row(q.name, q.upHash)]
  {
    assert (reps + [q])[..|reps|] == reps;
  }

  // What planning the file after all does when `all` left exactly its effective rows.
  ghost predicate PlansAs(f: MigrationFile, p: History, step: Step, p': History) {
    && f.version !in p
    && step.migration == f
    && Decide(f, false, p) == Do(step)
    && ExecStep(p, step) == p'
  }

  lemma SquashStep(before: seq<MigrationFile>, f: MigrationFile) returns (step: Step)
    requires Increasing(before + [f]) && Checked(before + [f])
    requires Replaces(f) == Effective(before) && Replaces(f) != []
    ensures PlansAs(f, HistoryOf(Effective(before)), step, HistoryOf(Effective(before + [f])))
  {
    var p := HistoryOf(Effective(before));
    FrontIncreasing(before, f);
    UncoveredDistinct(before, Covered(before), |before|);
    forall q | q in Replaces(f)
      ensures q.version < f.version && q.version in p && p[q.version] == Row(q.name, q.upHash)
    {
      HistoryOfHolds(Effective(before), q);
      assert f in before + [f];
    }
    HistoryOfHolds(Effective(before), ReplacementOf(f));
    AdoptionOfPresentRows(f, p, 0);
    step := Adopt(f, |Replaces(f)|);
    EffectiveSquash(before, f);
    HistoryOfAppend([], ReplacementOf(f));
    assert WithoutVersions(p, Replaces(f)) == map[];
  }

  lemma PlainStep(before: seq<MigrationFile>, f: MigrationFile) returns (step: Step)
    requires Increasing(before + [f]) && Checked(before + [f])
    requires Replaces(f) == [] || before == []
    ensures PlansAs(f, HistoryOf(Effective(before)), step, HistoryOf(Effective(before + [f])))
  {
    var p := HistoryOf(Effective(before));
    FrontIncreasing(before, f);
    UncoveredDistinct(before, Covered(before), |before|);
    HistoryOfHolds(Effective(before), ReplacementOf(f));
    forall q | q in Replaces(f) ensures q.version < f.version && q.version !in p {
      assert f in before + [f];
    }
    AdoptionOfAbsentRows(f, p, 0);
    step := Apply(f);
    EffectiveAppend(before, f);
    HistoryOfAppend(Effective(before), ReplacementOf(f));
  }

  lemma ChainStep(all: seq<MigrationFile>, k: nat) returns (step: Step)
    requires SquashChain(all) && k < |all|
    ensures PlansAs(all[k], HistoryOf(Effective(all[..k])), step, HistoryOf(Effective(all[..k + 1])))
  {
    var f, before := all[k], all[..k];
    assert all[..k + 1] == before + [f];
    ChainPrefix(all, k + 1);
    ChainIsChecked(all[..k + 1]);
    if Replaces(f) == Effective(before) && Replaces(f) != [] {
      step := SquashStep(before, f);
    } else {
      step := PlainStep(before, f);
    }
  }

  lemma PlanFromStep(all: seq<MigrationFile>, sup: iset<nat>, k: nat, p: History, step: Step, goal: History)
    requires k < |all| && Decide(all[k], all[k].version in sup, p) == Do(step)
    requires Reaches(PlanFrom(all, sup, k + 1, ExecStep(p, step)), ExecStep(p, step), goal)
    ensures Reaches(PlanFrom(all, sup, k, p), p, goal)
  {
    var rest := PlanFrom(all, sup, k + 1, ExecStep(p, step));
    assert ([step] + rest.steps)[1..] == rest.steps;
  }

  ghost predicate Reaches(plan: Plan, p: History, goal: History) {
    plan.Planned? && Exec(p, plan.steps) == goal
  }

  lemma {:induction false} ChainPlansFrom(
    all: seq<MigrationFile>, sup: iset<nat>, k: nat, p: History, goal: History)
    requires SquashChain(all) && k <= |all| && sup == iset{}
    requires p == HistoryOf(Effective(all[..k])) && goal == HistoryOf(Effective(all))
    ensures Reaches(PlanFrom(all, sup, k, p), p, goal)
    decreases |all| - k
  {
    if k == |all| {
      assert all[..k] == all;
    } else {
      var step := ChainStep(all, k);
      var p' := ExecStep(p, step);
      ChainPlansFrom(all, sup, k + 1, p', goal);
      PlanFromStep(all, sup, k, p, step, goal);
    }
  }

  // Main result. A directory kept by createSquashMigration always plans from an empty
  // history, and the plan ends with exactly the rows of its effective files.
  lemma ChainReachesEffective(all: seq<MigrationFile>)
    requires SquashChain(all)
    ensures PlanOf(all, map[]).Planned?
    ensures Exec(map[], PlanOf(all, map[]).steps) == HistoryOf(Effective(all))
  {
    ChainIsChecked(all);
    ChainPlansFrom(all, iset{}, 0, map[], HistoryOf(Effective(all)));
    assert all[..0] == [];
    assert Superseded(all, map[]) == iset{};
    forall f | f in all ensures CountPresent(Replaces(f), map[]) == 0 {
      CountPresentNone(Replaces(f), map[]);
    }
    PreflightIsNoPartialSquash(all, iset{}, map[]);
  }

  // A file behind a chain keeps it a chain, when a squash replaces the effective files.
  lemma ChainAppend(existing: seq<MigrationFile>, f: MigrationFile)
    requires SquashChain(existing) && Increasing(existing + [f])
    requires f.squash.Some? ==> Replaces(f) == Effective(existing)
    ensures SquashChain(existing + [f])
  {
    hide Effective;
    var all := existing + [f];
    forall k | 0 <= k < |all| && all[k].squash.Some?
      ensures Replaces(all[k]) == Effective(all[..k])
              || (k == 0 && forall q <- Replaces(all[0]) :: q.version < all[0].version)
    {
      if k == |existing| {
        assert all[..k] == existing;
      } else {
        assert all[..k] == existing[..k] && all[k] == existing[k];
      }
    }
  }

  lemma ArchivedChain(f: MigrationFile)
    requires forall q <- Replaces(f) :: q.version < f.version
    ensures SquashChain([f])
  {
    hide Effective;
  }

  // Appending a fresh squash keeps the chain, and so does archiving everything before it.
  lemma CreateSquashKeepsChain(existing: seq<MigrationFile>, name: string, upHash: string)
    requires SquashChain(existing) && existing != []
    ensures SquashChain(existing + [CreateSquash(existing, name, upHash)])
    ensures SquashChain([CreateSquash(existing, name, upHash)])
  {
    hide Effective, SquashChain;
    ChainIncreasing(existing);
    SquashIsNewer(existing, name, upHash);
    ChainAppend(existing, CreateSquash(existing, name, upHash));
    ArchivedChain(CreateSquash(existing, name, upHash));
  }

  lemma SquashIsNewer(existing: seq<MigrationFile>, name: string, upHash: string)
    requires Increasing(existing) && existing != []
    ensures var f := CreateSquash(existing, name, upHash);
            Increasing(existing + [f]) && forall q <- Replaces(f) :: q.version < f.version
  {
    hide Effective;
    var f := CreateSquash(existing, name, upHash);
    forall q | q in Effective(existing) ensures q.version < f.version {
      EffectiveIsOld(existing, q);
    }
  }

  lemma EffectiveIsOld(all: seq<MigrationFile>, q: Replacement)
    requires Increasing(all) && q in Effective(all)
    ensures all != [] && q.version <= all[|all| - 1].version
  {
    UncoveredFrom(all, Covered(all), |all|, q);
    hide Effective, Covered, Uncovered;
  }

  lemma ChainIncreasing(all: seq<MigrationFile>)
    requires SquashChain(all)
    ensures Increasing(all)
  {
    hide Effective;
  }
}
