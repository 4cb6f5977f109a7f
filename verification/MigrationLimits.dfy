/**
 Inputs on which the planner's promises stop: resuming inside a group of replaced
 migrations, a history that is not clean, and files out of version order.
 */
module MigrationLimits {
  import opened Wrappers
  import opened MigrationPlan
  import opened MigrationChains

  ghost predicate PlainPair(a: MigrationFile, b: MigrationFile) {
    a.squash.None? && b.squash.None? && a.version < b.version
  }

  lemma PartialMeansNotPlanned(all: seq<MigrationFile>, h: History, f: MigrationFile)
    requires Checked(all) && f in all && CountPresent(Replaces(f), h) !in {0, |Replaces(f)|}
    ensures !PlanOf(all, h).Planned?
  {
    PreflightIsNoPartialSquash(all, Superseded(all, h), h);
  }

  lemma CountOfPair(reps: seq<Replacement>, h: History)
    requires |reps| == 2
    ensures CountPresent(reps, h)
         == (if reps[0].version in h then 1 else 0) + (if reps[1].version in h then 1 else 0)
  {
    var tail := reps[1..];
    assert tail[0] == reps[1] && tail[1..] == [];
    assert CountPresent(tail, h) == if reps[1].version in h then 1 else 0;
  }

  lemma NewestNotSuperseded(all: seq<MigrationFile>, h: History, f: MigrationFile)
    requires Checked(all) && forall g <- all :: g.version <= f.version
    ensures f.version !in Superseded(all, h)
  {
    if f.version in Superseded(all, h) {
      var g :| g in all && g.version in h && Covers(all, g, f.version);
      CoversIsOlder(all, g, f.version);
    }
  }

  lemma PairIsEffective(a: MigrationFile, b: MigrationFile)
    requires PlainPair(a, b)
    ensures Effective([a, b]) == [ReplacementOf(a), ReplacementOf(b)]
  {
    var all := [a, b];
    var covered := Covered(all);
    assert covered == {};
    assert Uncovered(all, covered, 1) == [ReplacementOf(a)];
  }

  lemma PairChain(a: MigrationFile, b: MigrationFile, c: MigrationFile)
    requires PlainPair(a, b) && b.version < c.version
    requires Replaces(c) == [ReplacementOf(a), ReplacementOf(b)]
    ensures SquashChain([a, b, c])
  {
    PairIsEffective(a, b);
    assert [a, b, c][..2] == [a, b];
  }

  // A squash of the two files before it: the plan from an empty history succeeds, but
  // after its first step alone planning is refused.
  lemma ResumeCanFail(a: MigrationFile, b: MigrationFile, c: MigrationFile)
    requires PlainPair(a, b) && b.version < c.version
    requires Replaces(c) == [ReplacementOf(a), ReplacementOf(b)]
    ensures SquashChain([a, b, c]) && PlanOf([a, b, c], map[]).Planned?
    ensures !PlanOf([a, b, c], ExecStep(map[], Apply(a))).Planned?
  {
    PairChain(a, b, c);
    ChainReachesEffective([a, b, c]);
    ChainIsChecked([a, b, c]);
    CountOfPair(Replaces(c), ExecStep(map[], Apply(a)));
    PartialMeansNotPlanned([a, b, c], ExecStep(map[], Apply(a)), c);
  }

  // A history that keeps the rows its squash s replaced is not clean. Adopting a second
  // squash t of one of them leaves s partial, and the next plan is refused.
  lemma DirtyHistoryDiverges(all: seq<MigrationFile>, h: History, s: MigrationFile, t: MigrationFile)
    requires all == [s, t] && Checked(all) && Increasing(all)
    requires |Replaces(s)| == 2 && Replaces(t) == [Replaces(s)[1]]
    requires Replaces(s)[0].version != Replaces(s)[1].version
    requires s.version in h && t.version !in h
    requires Replaces(s)[0].version in h && Replaces(s)[1].version in h
    ensures !Clean(all, h)
    ensures !PlanOf(all, ExecStep(h, Adopt(t, 1))).Planned?
  {
    var now := ExecStep(h, Adopt(t, 1));
    assert Replaces(s)[0] in Replaces(s) && Replaces(s)[1] in Replaces(t) && t in all && s in all;
    assert Replaces(s)[0].version in now && Replaces(s)[1].version !in now;
    CountOfPair(Replaces(s), now);
    PartialMeansNotPlanned(all, now, s);
  }

  lemma IntactHistoryPlans(all: seq<MigrationFile>, h: History)
    requires Checked(all) && RowsMatchReplacements(all, h) && SquashHashesMatch(all, h)
    requires NoPartialSquash(all, h)
    ensures PlanOf(all, h) == PlanFrom(all, Superseded(all, h), 0, h)
  {
    PreflightIsNoPartialSquash(all, Superseded(all, h), h);
    TamperedIsHashMismatch(all, h);
  }

  // ... and that adoption is what the planner plans from such a history.
  lemma DirtyHistoryPlans(all: seq<MigrationFile>, h: History, s: MigrationFile, t: MigrationFile)
    requires all == [s, t] && Checked(all) && s.version < t.version
    requires |Replaces(s)| == 2 && Replaces(t) == [Replaces(s)[1]]
    requires Replaces(s)[0].version in h && Replaces(s)[1].version in h
    requires s.version in h && t.version !in h && h[s.version].hash == s.upHash
    requires RowsMatchReplacements(all, h)
    ensures PlanOf(all, h) == Planned([Adopt(t, 1)])
  {
    var sup := Superseded(all, h);
    CountOfPair(Replaces(s), h);
    assert Replaces(t)[1..] == [] && CountPresent(Replaces(t), h) == 1;
    IntactHistoryPlans(all, h);
    NewestNotSuperseded(all, h, t);
    assert Replaces(t)[0] in Replaces(t) && t in all;
    AdoptionOfPresentRows(t, h, 0);
    PlanOfLast(all, sup, 1, h, Adopt(t, 1));
  }

  lemma PlanOfLast(all: seq<MigrationFile>, sup: iset<nat>, j: nat, p: History, step: Step)
    requires j + 1 == |all| && Decide(all[j], all[j].version in sup, p) == Do(step)
    ensures PlanFrom(all, sup, j, p) == Planned([step])
  {
  }

  // A squash sorted before a plain file that it may replace: both are applied.
  lemma PlanOfPair(s: MigrationFile, a: MigrationFile)
    requires a.squash.None? && s.squash.Some? && a.version < s.version
    requires forall q <- Replaces(s) :: q.version < s.version && (q.version == a.version ==> !Mismatch(a, q))
    ensures Checked([s, a]) && Clean([s, a], map[])
    ensures PlanOf([s, a], map[]) == Planned([Apply(s), Apply(a)])
  {
    var all: seq<MigrationFile>, h0: History := [s, a], map[];
    var sup := Superseded(all, h0);
    forall f | f in all ensures CountPresent(Replaces(f), h0) == 0 {
      CountPresentNone(Replaces(f), h0);
    }
    PreflightIsNoPartialSquash(all, sup, h0);
    TamperedIsHashMismatch(all, h0);
    AdoptionOfAbsentRows(s, h0, 0);
    PlanOfLast(all, sup, 1, ExecStep(h0, Apply(s)), Apply(a));
    assert [Apply(s), Apply(a)] == [Apply(s)] + [Apply(a)];
  }

  // A squash sorted before the file it replaces: planning applies both, and the rows it
  // ends with are not clean.
  lemma OutOfOrderIsNotClean(s: MigrationFile, a: MigrationFile)
    requires a.squash.None? && s.squash.Some? && Replaces(s) == [ReplacementOf(a)] && a.version < s.version
    ensures Checked([s, a]) && Clean([s, a], map[])
    ensures PlanOf([s, a], map[]) == Planned([Apply(s), Apply(a)])
    ensures !Clean([s, a], ExecStep(ExecStep(map[], Apply(s)), Apply(a)))
  {
    PlanOfPair(s, a);
    assert Replaces(s)[0] in Replaces(s) && s in [s, a];
  }

  lemma ExecPair(h: History, first: Step, second: Step)
    ensures Exec(h, [first, second]) == ExecStep(ExecStep(h, first), second)
  {
    hide ExecStep;
    var steps := [first, second];
    assert steps[1..] == [second] && steps[1..][1..] == [];
    assert Exec(ExecStep(h, first), steps[1..]) == Exec(ExecStep(ExecStep(h, first), second), steps[1..][1..]);
  }

  // When that squash also replaces a file that is archived, the next plan is refused: planning
  // does not converge without version order. File names sort as texts, so 10 comes before 9.
  lemma OutOfOrderDiverges(s: MigrationFile, a: MigrationFile, archived: Replacement)
    requires a.squash.None? && s.squash.Some? && Replaces(s) == [archived, ReplacementOf(a)]
    requires archived.version < a.version < s.version
    ensures Checked([s, a]) && Clean([s, a], map[])
    ensures PlanOf([s, a], map[]) == Planned([Apply(s), Apply(a)])
    ensures !PlanOf([s, a], Exec(map[], [Apply(s), Apply(a)])).Planned?
  {
    PlanOfPair(s, a);
    var now := ExecStep(ExecStep(map[], Apply(s)), Apply(a));
    ExecPair(map[], Apply(s), Apply(a));
    CountOfPair(Replaces(s), now);
    PartialMeansNotPlanned([s, a], now, s);
  }
}
