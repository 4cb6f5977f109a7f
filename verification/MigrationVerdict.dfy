/**
 What a plan is, said without planning: which migrations it holds and which of them adopt,
 what the history table holds when it is done, and for which histories there is none.
 */
module MigrationVerdict {
  import opened Wrappers
  import opened MigrationPlan

  // Nothing has been done about the file yet.
  ghost predicate Todo(all: seq<MigrationFile>, h: History, f: MigrationFile) {
    f.version !in h && !IsSuperseded(all, h, f.version)
  }

  ghost predicate ReplacedBy(f: MigrationFile, v: nat) {
    exists q <- Replaces(f) :: q.version == v
  }

  // Once all[..j] has been dealt with, version v is recorded: it was, or its file has been
  // run, and no squash file run since replaces it.
  ghost predicate Recorded(all: seq<MigrationFile>, h: History, j: nat, v: nat)
    requires j <= |all|
  {
    && (v in h || exists i :: 0 <= i < j && Todo(all, h, all[i]) && all[i].version == v)
    && forall i :: 0 <= i < j && Todo(all, h, all[i]) ==> !ReplacedBy(all[i], v)
  }

  ghost predicate FindsAll(all: seq<MigrationFile>, h: History, j: nat)
    requires j < |all|
  {
    forall q <- Replaces(all[j]) :: Recorded(all, h, j, q.version)
  }

  ghost predicate FindsNone(all: seq<MigrationFile>, h: History, j: nat)
    requires j < |all|
  {
    forall q <- Replaces(all[j]) :: !Recorded(all, h, j, q.version)
  }

  // A file adopts what it replaces where all of it is recorded, and is run otherwise.
  ghost function StepFor(all: seq<MigrationFile>, h: History, j: nat): Step
    requires j < |all|
  {
    if Replaces(all[j]) != [] && FindsAll(all, h, j) then Adopt(all[j], |Replaces(all[j])|) else Apply(all[j])
  }

  // One step for each file that is still to be done, in the order of the files.
  ghost predicate StepsFor(all: seq<MigrationFile>, h: History, j: nat, steps: seq<Step>)
    requires j <= |all|
    decreases |all| - j
  {
    if j == |all| then steps == []
    else if Todo(all, h, all[j]) then
      steps != [] && steps[0] == StepFor(all, h, j) && StepsFor(all, h, j + 1, steps[1..])
    else StepsFor(all, h, j + 1, steps)
  }

  // The files that are recorded and not superseded are the ones that were run.
  ghost predicate AppliedMatch(all: seq<MigrationFile>, h: History, j: nat) {
    forall i :: j <= i < |all| && all[i].version in h && !IsSuperseded(all, h, all[i].version)
      ==> h[all[i].version].hash == all[i].upHash
  }

  // No file that is to be run finds a part of what it replaces.
  ghost predicate AdoptionsFit(all: seq<MigrationFile>, h: History, j: nat) {
    forall i :: j <= i < |all| && Todo(all, h, all[i]) ==> FindsAll(all, h, i) || FindsNone(all, h, i)
  }

  // p is the table once all[..j] has been dealt with.
  ghost predicate Tracks(all: seq<MigrationFile>, h: History, j: nat, p: History)
    requires j <= |all|
  {
    && (forall v :: v in p <==> Recorded(all, h, j, v))
    && (forall v <- p :: v in h ==> p[v] == h[v])
    && (forall i :: 0 <= i < j && Todo(all, h, all[i]) && all[i].version in p ==> p[all[i].version] == RowOf(all[i]))
  }

  // ------------------------------------------------------------------ one file

  lemma {:induction false} CountPresentAll(reps: seq<Replacement>, h: History)
    ensures CountPresent(reps, h) == |reps| <==> forall q <- reps :: q.version in h
  {
    if reps == [] {
    } else {
      CountPresentNone(reps[1..], h);
      CountPresentAll(reps[1..], h);
      assert reps == [reps[0]] + reps[1..];
    }
  }

  lemma {:induction false} AdoptionCounts(f: MigrationFile, p: History, i: nat, present: nat)
    requires i <= |Replaces(f)|
    requires forall q <- Replaces(f) :: q.version < f.version && (q.version in p ==> p[q.version] == Row(q.name, q.upHash))
    ensures var n := present + CountPresent(Replaces(f)[i..], p);
            AdoptionFrom(f, p, i, present) ==
              if n == 0 then NoAdoption else if n != |Replaces(f)| then AdoptionFailed else Adoptable(n)
    decreases |Replaces(f)| - i
  {
    if i < |Replaces(f)| {
      var q := Replaces(f)[i];
      assert q in Replaces(f);
      assert Replaces(f)[i..] == [q] + Replaces(f)[i + 1..];
      AdoptionCounts(f, p, i + 1, if q.version in p then present + 1 else present);
    }
  }

  lemma AdoptionIs(f: MigrationFile, p: History)
    requires forall q <- Replaces(f) :: q.version < f.version && (q.version in p ==> p[q.version] == Row(q.name, q.upHash))
    ensures AdoptionFrom(f, p, 0, 0) ==
              if forall q <- Replaces(f) :: q.version !in p then NoAdoption
              else if forall q <- Replaces(f) :: q.version in p then Adoptable(|Replaces(f)|)
              else AdoptionFailed
  {
    AdoptionCounts(f, p, 0, 0);
    assert Replaces(f)[0..] == Replaces(f);
    CountPresentNone(Replaces(f), p);
    CountPresentAll(Replaces(f), p);
  }

  lemma AdoptionFits(all: seq<MigrationFile>, p: History, f: MigrationFile)
    requires Checked(all) && RowsMatchReplacements(all, p) && f in all
    ensures AdoptionFrom(f, p, 0, 0) ==
              if forall q <- Replaces(f) :: q.version !in p then NoAdoption
              else if forall q <- Replaces(f) :: q.version in p then Adoptable(|Replaces(f)|)
              else AdoptionFailed
  {
    AdoptionIs(f, p);
  }

  // A file of its own version is not touched by the files before it.
  lemma OwnVersion(all: seq<MigrationFile>, h: History, j: nat)
    requires Checked(all) && Increasing(all) && j < |all|
    ensures Recorded(all, h, j, all[j].version) <==> all[j].version in h
    ensures forall i :: 0 <= i <= j ==> !ReplacedBy(all[i], all[j].version)
  {
    forall i | 0 <= i <= j ensures !ReplacedBy(all[i], all[j].version) {
      assert all[i] in all && all[i].version <= all[j].version;
    }
  }

  lemma FindsInTable(all: seq<MigrationFile>, h: History, j: nat, p: History)
    requires j < |all| && Tracks(all, h, j, p)
    ensures FindsAll(all, h, j) <==> forall q <- Replaces(all[j]) :: q.version in p
    ensures FindsNone(all, h, j) <==> forall q <- Replaces(all[j]) :: q.version !in p
  {
    hide Recorded;
  }

  lemma DoneDecision(all: seq<MigrationFile>, h: History, j: nat, p: History)
    requires Checked(all) && Increasing(all) && j < |all| && Tracks(all, h, j, p) && !Todo(all, h, all[j])
    ensures Decide(all[j], all[j].version in Superseded(all, h), p) ==
              if all[j].version in h && !IsSuperseded(all, h, all[j].version) && h[all[j].version].hash != all[j].upHash
              then Stop(PlanTampered) else Skip
  {
    OwnVersion(all, h, j);
    hide Recorded, ReplacedBy, Checked, Increasing, IsSuperseded;
  }

  lemma TodoDecision(all: seq<MigrationFile>, h: History, j: nat, p: History)
    requires Checked(all) && Increasing(all) && j < |all| && Todo(all, h, all[j])
    requires Tracks(all, h, j, p) && RowsMatchReplacements(all, p)
    ensures Decide(all[j], all[j].version in Superseded(all, h), p) ==
              if FindsAll(all, h, j) || FindsNone(all, h, j) then Do(StepFor(all, h, j)) else Stop(PlanFailed)
  {
    OwnVersion(all, h, j);
    assert all[j].version !in p by {
      hide Recorded;
    }
    FindsInTable(all, h, j, p);
    AdoptionFits(all, p, all[j]);
    hide Tracks, Recorded, ReplacedBy, Checked, Increasing, IsSuperseded, FindsAll, FindsNone, RowsMatchReplacements, AdoptionFrom;
  }

  lemma SkipTracks(all: seq<MigrationFile>, h: History, j: nat, p: History)
    requires j < |all| && Tracks(all, h, j, p) && !Todo(all, h, all[j])
    ensures Tracks(all, h, j + 1, p)
  {
    hide Todo, ReplacedBy;
  }

  lemma StepEffect(p: History, step: Step, v: nat)
    ensures v in ExecStep(p, step) <==>
              v == step.migration.version || (v in p && (step.Adopt? ==> !ReplacedBy(step.migration, v)))
  {
  }

  lemma RecordedNext(all: seq<MigrationFile>, h: History, j: nat, v: nat)
    requires Checked(all) && Increasing(all) && j < |all| && Todo(all, h, all[j])
    ensures Recorded(all, h, j + 1, v) <==>
              !ReplacedBy(all[j], v) && (v == all[j].version || Recorded(all, h, j, v))
  {
    OwnVersion(all, h, j);
    hide Checked, Increasing, Todo, ReplacedBy;
  }

  lemma FoundRows(all: seq<MigrationFile>, h: History, j: nat, v: nat)
    requires j < |all| && ReplacedBy(all[j], v)
    ensures FindsAll(all, h, j) ==> StepFor(all, h, j).Adopt?
    ensures FindsNone(all, h, j) ==> !Recorded(all, h, j, v)
  {
    hide Recorded;
  }

  lemma StepRecords(all: seq<MigrationFile>, h: History, j: nat, p: History, v: nat)
    requires Checked(all) && Increasing(all) && j < |all| && Todo(all, h, all[j])
    requires Tracks(all, h, j, p) && (FindsAll(all, h, j) || FindsNone(all, h, j))
    ensures v in ExecStep(p, StepFor(all, h, j)) <==> Recorded(all, h, j + 1, v)
  {
    RecordedNext(all, h, j, v);
    StepEffect(p, StepFor(all, h, j), v);
    StepIsFor(all, h, j);
    OwnVersion(all, h, j);
    hide Checked, Increasing, Todo, Recorded, ExecStep, StepFor, FindsAll, FindsNone, ReplacedBy;
    if ReplacedBy(all[j], v) {
      FoundRows(all, h, j, v);
    }
  }

  lemma StepTracks(all: seq<MigrationFile>, h: History, j: nat, p: History)
    requires Checked(all) && Increasing(all) && j < |all| && Todo(all, h, all[j])
    requires Tracks(all, h, j, p) && (FindsAll(all, h, j) || FindsNone(all, h, j))
    ensures Tracks(all, h, j + 1, ExecStep(p, StepFor(all, h, j)))
  {
    var step := StepFor(all, h, j);
    forall v ensures v in ExecStep(p, step) <==> Recorded(all, h, j + 1, v) {
      StepRecords(all, h, j, p, v);
    }
    StepRows(p, step);
    hide ExecStep, Recorded, IsSuperseded, Checked, FindsAll, FindsNone;
  }

  // ----------------------------------------------------------------- all files

  lemma {:induction false} PlanFromExactly(all: seq<MigrationFile>, h: History, j: nat, p: History)
    requires Checked(all) && Increasing(all) && j <= |all|
    requires Tracks(all, h, j, p) && RowsMatchReplacements(all, p)
    ensures var plan := PlanFrom(all, Superseded(all, h), j, p);
            && (plan.Planned? <==> AppliedMatch(all, h, j) && AdoptionsFit(all, h, j))
            && (plan.Planned? ==> StepsFor(all, h, j, plan.steps) && Tracks(all, h, |all|, Exec(p, plan.steps)))
            && (plan.PlanTampered? ==> !AppliedMatch(all, h, j))
            && (plan.PlanFailed? ==> !AdoptionsFit(all, h, j))
    decreases |all| - j
  {
    hide Checked, Increasing, Tracks, RowsMatchReplacements, Superseded, IsSuperseded, FindsAll, FindsNone, StepFor, Decide, ExecStep;
    if j < |all| {
      AppliedSplits(all, h, j);
      AdoptionsSplit(all, h, j);
      hide AppliedMatch, AdoptionsFit;
      if !Todo(all, h, all[j]) {
        DoneDecision(all, h, j, p);
        SkipTracks(all, h, j, p);
        PlanFromExactly(all, h, j + 1, p);
      } else if !FindsAll(all, h, j) && !FindsNone(all, h, j) {
        TodoDecision(all, h, j, p);
      } else {
        TodoDecision(all, h, j, p);
        StepTracks(all, h, j, p);
        StepIsFor(all, h, j);
        StepKeepsMatches(all, j, p, StepFor(all, h, j));
        PlanFromExactly(all, h, j + 1, ExecStep(p, StepFor(all, h, j)));
        var plan := PlanFrom(all, Superseded(all, h), j, p);
        if plan.Planned? {
          PlanTail(all, Superseded(all, h), j, p, StepFor(all, h, j), plan.steps);
        }
      }
    }
  }

  lemma StepIsFor(all: seq<MigrationFile>, h: History, j: nat)
    requires j < |all|
    ensures StepFor(all, h, j).migration == all[j]
  {
  }

  lemma AppliedSplits(all: seq<MigrationFile>, h: History, j: nat)
    requires j < |all|
    ensures AppliedMatch(all, h, j) <==>
              && (all[j].version in h && !IsSuperseded(all, h, all[j].version) ==> h[all[j].version].hash == all[j].upHash)
              && AppliedMatch(all, h, j + 1)
  {
    hide IsSuperseded;
  }

  lemma AdoptionsSplit(all: seq<MigrationFile>, h: History, j: nat)
    requires j < |all|
    ensures AdoptionsFit(all, h, j) <==>
              && (Todo(all, h, all[j]) ==> FindsAll(all, h, j) || FindsNone(all, h, j))
              && AdoptionsFit(all, h, j + 1)
  {
    hide FindsAll, FindsNone, Todo;
  }

  lemma StartTracks(all: seq<MigrationFile>, h: History)
    ensures Tracks(all, h, 0, h)
  {
  }

  // ---------------------------------------------------------------- preflight

  lemma {:induction false} PreflightFileReason(
    byVersion: map<nat, MigrationFile>, sup: iset<nat>, h: History, f: MigrationFile, i: nat, present: nat)
    requires i <= |Replaces(f)|
    requires forall q <- Replaces(f) :: q.version < f.version && !StaleReplacement(byVersion, false, q)
    ensures var verdict := PreflightFile(byVersion, sup, h, f, i, present);
            && (verdict.VerdictFailed? ==> present + CountPresent(Replaces(f)[i..], h) !in {0, |Replaces(f)|})
            && (verdict.VerdictTampered? ==>
                  exists q <- Replaces(f) :: q.version in h && h[q.version] != Row(q.name, q.upHash))
    decreases |Replaces(f)| - i
  {
    if i < |Replaces(f)| {
      var q := Replaces(f)[i];
      assert q in Replaces(f);
      assert Replaces(f)[i..] == [q] + Replaces(f)[i + 1..];
      PreflightFileReason(byVersion, sup, h, f, i + 1, if q.version in h then present + 1 else present);
    }
  }

  lemma {:induction false} PreflightReason(
    all: seq<MigrationFile>, byVersion: map<nat, MigrationFile>, sup: iset<nat>, h: History, j: nat)
    requires j <= |all|
    requires forall f <- all, q <- Replaces(f) :: q.version < f.version && !StaleReplacement(byVersion, false, q)
    ensures var verdict := Preflight(all, byVersion, sup, h, j);
            && (verdict.VerdictFailed? ==> !NoPartialSquash(all, h))
            && (verdict.VerdictTampered? ==> !RowsMatchReplacements(all, h))
    decreases |all| - j
  {
    if j < |all| {
      assert all[j] in all;
      PreflightFileReason(byVersion, sup, h, all[j], 0, 0);
      assert Replaces(all[j])[0..] == Replaces(all[j]);
      hide PreflightFile;
      PreflightReason(all, byVersion, sup, h, j + 1);
    }
  }

  lemma PreflightVerdict(all: seq<MigrationFile>, sup: iset<nat>, h: History)
    requires Checked(all)
    ensures var verdict := Preflight(all, ByVersion(all), sup, h, 0);
            && (verdict.Fine? <==> RowsMatchReplacements(all, h) && NoPartialSquash(all, h))
            && (verdict.VerdictFailed? ==> !NoPartialSquash(all, h))
            && (verdict.VerdictTampered? ==> !RowsMatchReplacements(all, h))
  {
    PreflightIsNoPartialSquash(all, sup, h);
    ByVersionKeys(all);
    forall f, q | f in all && q in Replaces(f) ensures q.version < f.version && !StaleReplacement(ByVersion(all), false, q) {
    }
    hide Preflight, RowsMatchReplacements, NoPartialSquash;
    PreflightReason(all, ByVersion(all), sup, h, 0);
  }

  // -------------------------------------------------------------- main result

  // There is a plan exactly when every recorded file that counts is the file that was run,
  // every recorded row that a squash file replaces is the one it names, and every squash file
  // finds all of what it replaces or none of it, both now and when its turn comes. The plan
  // then has one step for each file still to be done, and leaves exactly the rows recorded.
  // A plan fails for a partial squash and is refused as tampered for another hash or name.
  lemma PlanExactly(all: seq<MigrationFile>, h: History)
    requires Checked(all) && Increasing(all)
    ensures var plan := PlanOf(all, h);
            && (plan.Planned? <==>
                  && SquashHashesMatch(all, h) && RowsMatchReplacements(all, h) && AppliedMatch(all, h, 0)
                  && NoPartialSquash(all, h) && AdoptionsFit(all, h, 0))
            && (plan.PlanTampered? ==>
                  !(SquashHashesMatch(all, h) && RowsMatchReplacements(all, h) && AppliedMatch(all, h, 0)))
            && (plan.PlanFailed? ==> !(NoPartialSquash(all, h) && AdoptionsFit(all, h, 0)))
            && (plan.Planned? ==> StepsFor(all, h, 0, plan.steps) && Tracks(all, h, |all|, Exec(h, plan.steps)))
  {
    TamperedIsHashMismatch(all, h);
    PreflightVerdict(all, Superseded(all, h), h);
    StartTracks(all, h);
    hide TamperedSquash, Preflight, Superseded, RowsMatchReplacements, NoPartialSquash, SquashHashesMatch;
    hide AppliedMatch, AdoptionsFit, Tracks, StepsFor, Checked, Increasing, PlanFrom, ByVersion, Exec;
    if RowsMatchReplacements(all, h) {
      PlanFromExactly(all, h, 0, h);
    }
  }

  // ------------------------------------------------- files that were not checked

  // The squash file c is the current, older file of a version that f replaces.
  predicate Follows(all: seq<MigrationFile>, f: MigrationFile, q: Replacement, c: MigrationFile) {
    q in Replaces(f) && c in all && c.version == q.version && c.squash.Some? && c.version < f.version
  }

  // A way from f through squash files that it replaces, each found by a recorded replacement,
  // to one that differs from what was recorded.
  ghost predicate BrokenWay(all: seq<MigrationFile>, f: MigrationFile, way: seq<(Replacement, MigrationFile)>)
    decreases |way|
  {
    && way != [] && Follows(all, f, way[0].0, way[0].1)
    && if |way| == 1 then Mismatch(way[0].1, way[0].0) else BrokenWay(all, way[0].1, way[1..])
  }

  ghost predicate HasBrokenWay(all: seq<MigrationFile>, f: MigrationFile) {
    exists way :: BrokenWay(all, f, way)
  }

  lemma {:induction false} WayIsBroken(all: seq<MigrationFile>, f: MigrationFile, way: seq<(Replacement, MigrationFile)>)
    requires BrokenWay(all, f, way)
    ensures BrokenChain(all, f)
    decreases |way|
  {
    if |way| > 1 {
      WayIsBroken(all, way[0].1, way[1..]);
    }
  }

  lemma {:induction false} BrokenHasWay(all: seq<MigrationFile>, f: MigrationFile)
    returns (way: seq<(Replacement, MigrationFile)>)
    requires BrokenChain(all, f)
    ensures BrokenWay(all, f, way)
    decreases f.version
  {
    var q, c :| q in Replaces(f) && c in all
      && c.version == q.version && c.squash.Some? && c.version < f.version
      && (Mismatch(c, q) || BrokenChain(all, c));
    if Mismatch(c, q) {
      way := [(q, c)];
    } else {
      var more := BrokenHasWay(all, c);
      way := [(q, c)] + more;
      assert way[1..] == more;
    }
  }

  // A chain is broken exactly when there is such a way.
  lemma BrokenExactly(all: seq<MigrationFile>, f: MigrationFile)
    ensures BrokenChain(all, f) <==> HasBrokenWay(all, f)
  {
    hide BrokenChain;
    if BrokenChain(all, f) {
      var way := BrokenHasWay(all, f);
    }
    if HasBrokenWay(all, f) {
      var way :| BrokenWay(all, f, way);
      WayIsBroken(all, f, way);
    }
  }

  // What a replacement must be for a file to pass the preflight.
  ghost predicate ReplacementOk(all: seq<MigrationFile>, h: History, f: MigrationFile, q: Replacement) {
    && q.version < f.version
    && (q.version in h ==> h[q.version] == Row(q.name, q.upHash))
    && (!IsSuperseded(all, h, q.version) ==> forall c <- all :: c.version == q.version ==> !Mismatch(c, q))
  }

  lemma {:induction false} FinePasses(
    byVersion: map<nat, MigrationFile>, sup: iset<nat>, h: History, f: MigrationFile, i: nat, present: nat)
    requires i <= |Replaces(f)| && PreflightFile(byVersion, sup, h, f, i, present) == Fine
    ensures forall q <- Replaces(f)[i..] ::
              && q.version < f.version && !StaleReplacement(byVersion, q.version in sup, q)
              && (q.version in h ==> h[q.version] == Row(q.name, q.upHash))
    decreases |Replaces(f)| - i
  {
    if i < |Replaces(f)| {
      assert Replaces(f)[i..] == [Replaces(f)[i]] + Replaces(f)[i + 1..];
      FinePasses(byVersion, sup, h, f, i + 1, if Replaces(f)[i].version in h then present + 1 else present);
    }
  }

  lemma CurrentFile(all: seq<MigrationFile>, c: MigrationFile)
    requires DistinctVersions(all) && c in all
    ensures c.version in ByVersion(all) && ByVersion(all)[c.version] == c
  {
    ByVersionKeys(all);
    var d := ByVersion(all)[c.version];
    var i :| 0 <= i < |all| && all[i] == c;
    var j :| 0 <= j < |all| && all[j] == d;
    assert i == j;
  }

  // A plan over any files, checked or not: every replacement is older than its squash file, is
  // the row that is recorded, and unless it is superseded is the current file of its version; and
  // no applied squash file has changed or leads to one that has.
  lemma PlannedIsIntact(all: seq<MigrationFile>, h: History)
    requires DistinctVersions(all) && PlanOf(all, h).Planned?
    ensures forall f <- all, q <- Replaces(f) :: ReplacementOk(all, h, f, q)
    ensures forall f <- all :: f.squash.Some? && f.version in h ==>
              h[f.version].hash == f.upHash && !HasBrokenWay(all, f)
  {
    hide Preflight, IsSuperseded, BrokenChain, HasBrokenWay, PlanFrom, ByVersion, DistinctVersions;
    var sup := Superseded(all, h);
    PreflightFine(all, ByVersion(all), sup, h, 0);
    forall f, q | f in all && q in Replaces(f) ensures ReplacementOk(all, h, f, q) {
      var k :| 0 <= k < |all| && all[k] == f;
      assert PreflightFile(ByVersion(all), sup, h, all[k], 0, 0) == Fine;
      FinePasses(ByVersion(all), sup, h, f, 0, 0);
      assert Replaces(f)[0..] == Replaces(f);
      forall c | c in all && c.version == q.version && !IsSuperseded(all, h, q.version) ensures !Mismatch(c, q) {
        CurrentFile(all, c);
      }
    }
    forall f | f in all && f.squash.Some? && f.version in h
      ensures h[f.version].hash == f.upHash && !HasBrokenWay(all, f)
    {
      BrokenExactly(all, f);
    }
  }
}
