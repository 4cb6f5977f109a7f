/**
 Publishing prepared artifacts: publishTargets and rollbackPublications of
 src/prepare-artifacts.ts on a file system whose operations may fail. The caller holds the
 publication lock, so nobody else changes the paths involved.
 */
module Publication {
  import opened Wrappers

  type Path = string

  // A file or directory, by identity: renaming moves it.
  type Node = nat

  type Files = map<Path, Node>

  datatype Target = Target(target: Path, staged: Path)

  datatype PublicationState = PublicationState(target: Path, staged: Path, backup: Option<Path>, published: bool)

  // What a failed rollback step was, and whether the backup to restore was there.
  datatype RollbackError = RemoveFailed(target: Path) | RestoreFailed(target: Path, existed: bool)

  datatype Outcome = Published | MissingStaged | RolledBack(errors: seq<RollbackError>)

  // The file system. Operations fail at any time; a failed rename changes nothing, a failed
  // removal may have removed part of what it was given. `trace` records every state, and
  // `faults` counts the operations that failed without a reason of their own.
  class FileSystem {
    var files: Files
    ghost var trace: seq<Files>
    ghost var faults: nat

    constructor (files: Files)
      ensures this.files == files && trace == [] && faults == 0
    {
      this.files := files;
      trace, faults := [], 0;
    }

    method Rename(from: Path, to: Path) returns (ok: bool)
      modifies this
      ensures ok ==> from in old(files) && files == (old(files) - {from})[to := old(files)[from]]
      ensures !ok ==> files == old(files)
      ensures trace == old(trace) + [files]
      ensures if ok then faults == old(faults) else faults > old(faults) || (faults == old(faults) && from !in files)
    {
      var fault: bool := *;
      ok := from in files && !fault;
      faults := faults + if fault then 1 else 0;
      if ok {
        files := (files - {from})[to := files[from]];
      }
      trace := trace + [files];
    }

    method Remove(path: Path) returns (ok: bool)
      modifies this
      ensures ok ==> files == old(files) - {path}
      ensures !ok ==> forall p :: p != path ==> SameAt(files, old(files), p)
      ensures trace == old(trace) + [files]
      ensures faults == old(faults) + if ok then 0 else 1
    {
      ok := *;
      faults := faults + if ok then 0 else 1;
      var damaged: bool := *;
      if ok {
        files := files - {path};
      } else if damaged {
        var node: nat := *;
        files := files[path := node];
      }
      trace := trace + [files];
    }

    // lstat: None when it fails for another reason than a missing path.
    method PathExists(path: Path) returns (r: Option<bool>)
      modifies `faults
      ensures r.Some? ==> r.value == (path in files)
      ensures faults == old(faults) + if r.Some? then 0 else 1
    {
      var fault: bool := *;
      faults := faults + if fault then 1 else 0;
      return if fault then None else Some(path in files);
    }
  }

  // The targets, the staged artifacts and the backup names are pairwise distinct paths.
  ghost predicate Separate(targets: seq<Target>, names: seq<Path>) {
    && |names| == |targets|
    && (forall i, j :: 0 <= i < j < |targets| ==>
          targets[i].target != targets[j].target && targets[i].staged != targets[j].staged && names[i] != names[j])
    && (forall i, j :: 0 <= i < |targets| && 0 <= j < |targets| ==>
          targets[i].target != targets[j].staged && targets[i].target != names[j] && targets[i].staged != names[j])
  }

  ghost predicate SameAt(f: Files, g: Files, p: Path) {
    (p in f <==> p in g) && (p in f ==> f[p] == g[p])
  }

  // Target i has not been touched.
  ghost predicate Untouched(f: Files, start: Files, t: Target, name: Path) {
    SameAt(f, start, t.target) && SameAt(f, start, t.staged) && name !in f
  }

  // Target i holds its staged artifact.
  ghost predicate InPlace(f: Files, start: Files, t: Target) {
    t.staged in start && t.target in f && f[t.target] == start[t.staged]
  }

  // What rolling back target i can rely on.
  ghost predicate Recoverable(f: Files, start: Files, t: Target, name: Path, s: PublicationState) {
    && s.target == t.target && s.staged == t.staged
    && (if s.backup.Some? then s.backup.value == name else name !in f) && (s.published ==> t.staged !in f)
    && if s.published then
         if s.backup.Some? then t.target in start && name in f && f[name] == start[t.target] else t.target !in start
       else if s.backup.Some? && name in f then
         t.target in start && f[name] == start[t.target] && t.target !in f
       else SameAt(f, start, t.target)
  }

  // The new last target is in place only when all are.
  ghost predicate LastInPlaceLast(f: Files, start: Files, targets: seq<Target>) {
    targets != [] && InPlace(f, start, targets[|targets| - 1])
    ==> forall i :: 0 <= i < |targets| ==> InPlace(f, start, targets[i])
  }

  // Only the paths of one target changed.
  ghost predicate OnlyAt(f: Files, g: Files, t: Target, name: Path) {
    forall p :: p != t.target && p != t.staged && p != name ==> SameAt(g, f, p)
  }

  // The file system went through these states, each of which satisfies `p`.
  ghost predicate Through(before: seq<Files>, after: seq<Files>, p: Files -> bool) {
    before <= after && forall k :: |before| <= k < |after| ==> p(after[k])
  }

  // One turn of the forward loop.
  method PublishOne(fs: FileSystem, t: Target, name: Path, ghost start: Files)
    returns (s: PublicationState, ok: bool)
    requires Untouched(fs.files, start, t, name) && t.staged in start
    requires t.target != t.staged && t.target != name && t.staged != name
    modifies fs
    ensures OnlyAt(old(fs.files), fs.files, t, name)
    ensures Recoverable(fs.files, start, t, name, s) && (ok <==> s.published)
    ensures fs.faults >= old(fs.faults) && (fs.faults == old(fs.faults) ==> ok)
    ensures ok ==> InPlace(fs.files, start, t) && t.staged !in fs.files && s.backup == if t.target in start then Some(name) else None
    ensures var before := old(fs.files);
            Through(old(fs.trace), fs.trace, f => OnlyAt(before, f, t, name))
    ensures !InPlace(start, start, t) ==>
              var last, done := fs.files, ok;
              Through(old(fs.trace), fs.trace, f => InPlace(f, start, t) ==> done && f == last)
    ensures !InPlace(start, start, t) && !ok ==> !InPlace(fs.files, start, t)
  {
    s := PublicationState(t.target, t.staged, None, false);
    ok := false;
    var present := fs.PathExists(t.target);
    if present.None? {
      return;
    }
    if present.value {
      s := s.(backup := Some(name));
      var moved := fs.Rename(t.target, name);
      if !moved {
        return;
      }
    }
    ok := fs.Rename(t.staged, t.target);
    s := s.(published := ok);
  }

  // No step failed that mattered: what was published was removed, what was backed up was
  // restored. A backup that was never made cannot be restored, and its error is harmless.
  predicate Complete(errors: seq<RollbackError>) {
    forall e <- errors :: e.RestoreFailed? && !e.existed
  }

  lemma CompleteAppend(a: seq<RollbackError>, b: seq<RollbackError>)
    ensures Complete(a + b) <==> Complete(a) && Complete(b)
  {
    assert forall e :: e in a + b <==> e in a || e in b;
  }

  // One turn of the rollback loop.
  method RollbackOne(fs: FileSystem, ghost t: Target, ghost name: Path, s: PublicationState, ghost start: Files)
    returns (errors: seq<RollbackError>)
    requires Recoverable(fs.files, start, t, name, s)
    requires t.target != t.staged && t.target != name && t.staged != name
    modifies fs
    ensures OnlyAt(old(fs.files), fs.files, t, name) && |errors| <= 1 && fs.faults >= old(fs.faults)
    ensures Complete(errors) ==> SameAt(fs.files, start, t.target)
    ensures fs.faults == old(fs.faults) ==> Complete(errors)
    ensures var before := old(fs.files);
            Through(old(fs.trace), fs.trace, f => OnlyAt(before, f, t, name))
    ensures !s.published ==>
              var before := old(fs.files);
              && Through(old(fs.trace), fs.trace, f => SameAt(f, before, t.target) || SameAt(f, start, t.target))
              && (SameAt(fs.files, before, t.target) || SameAt(fs.files, start, t.target))
    ensures !s.published && s.backup.Some? && name !in old(fs.files) ==> errors == [RestoreFailed(t.target, false)]
  {
    if s.published {
      var removed := fs.Remove(s.target);
      if !removed {
        errors := [RemoveFailed(s.target)];
        assert errors[0] in errors;
        return;
      }
    }
    if s.backup.Some? {
      var existed := s.backup.value in fs.files;
      var restored := fs.Rename(s.backup.value, s.target);
      if !restored {
        errors := [RestoreFailed(s.target, existed)];
        assert errors[0] in errors;
        return;
      }
    }
    return [];
  }

  // ------------------------------------------------------------------ both loops

  // Every target up to k is published, every later one untouched.
  ghost predicate PublishedUpTo(
    f: Files, start: Files, targets: seq<Target>, names: seq<Path>, states: seq<PublicationState>, k: nat)
    requires k <= |targets| == |names| && k <= |states|
  {
    && (forall i :: 0 <= i < k ==>
          Recoverable(f, start, targets[i], names[i], states[i]) && states[i].published && InPlace(f, start, targets[i]))
    && (forall i :: k <= i < |targets| ==> Untouched(f, start, targets[i], names[i]))
  }

  // Nothing but targets, staged artifacts and backups changed.
  ghost predicate OnlyPaths(f: Files, start: Files, targets: seq<Target>, names: seq<Path>)
    requires |targets| == |names|
  {
    forall p :: (forall i :: 0 <= i < |targets| ==> p != targets[i].target && p != targets[i].staged && p != names[i])
                ==> SameAt(f, start, p)
  }

  lemma OtherTarget(
    f: Files, g: Files, start: Files, targets: seq<Target>, names: seq<Path>, i: nat, j: nat)
    requires Separate(targets, names) && i < |targets| && j < |targets| && i != j
    requires OnlyAt(f, g, targets[i], names[i])
    ensures SameAt(g, f, targets[j].target) && SameAt(g, f, targets[j].staged) && SameAt(g, f, names[j])
    ensures Untouched(f, start, targets[j], names[j]) ==> Untouched(g, start, targets[j], names[j])
    ensures InPlace(f, start, targets[j]) <==> InPlace(g, start, targets[j])
    ensures forall s :: Recoverable(f, start, targets[j], names[j], s) ==> Recoverable(g, start, targets[j], names[j], s)
  {
  }

  lemma PathsKept(f: Files, g: Files, start: Files, targets: seq<Target>, names: seq<Path>, i: nat)
    requires |targets| == |names| && i < |targets| && OnlyPaths(f, start, targets, names)
    requires OnlyAt(f, g, targets[i], names[i])
    ensures OnlyPaths(g, start, targets, names)
  {
    forall p | forall j :: 0 <= j < |targets| ==> p != targets[j].target && p != targets[j].staged && p != names[j]
      ensures SameAt(g, start, p)
    {
      assert p != targets[i].target && p != targets[i].staged && p != names[i];
      assert SameAt(g, f, p) && SameAt(f, start, p);
    }
  }

  lemma NextPublished(
    f: Files, g: Files, start: Files, targets: seq<Target>, names: seq<Path>, states: seq<PublicationState>,
    s: PublicationState)
    requires Separate(targets, names) && |states| < |targets|
    requires PublishedUpTo(f, start, targets, names, states, |states|)
    requires OnlyAt(f, g, targets[|states|], names[|states|])
    requires Recoverable(g, start, targets[|states|], names[|states|], s)
    ensures forall i :: 0 <= i <= |states| ==> Recoverable(g, start, targets[i], names[i], (states + [s])[i])
    ensures forall i :: |states| < i < |targets| ==> Untouched(g, start, targets[i], names[i])
    ensures s.published && InPlace(g, start, targets[|states|]) ==>
              PublishedUpTo(g, start, targets, names, states + [s], |states| + 1)
  {
    var k := |states|;
    forall i | 0 <= i < |targets| && i != k
      ensures Untouched(f, start, targets[i], names[i]) ==> Untouched(g, start, targets[i], names[i])
      ensures InPlace(f, start, targets[i]) <==> InPlace(g, start, targets[i])
      ensures forall s :: Recoverable(f, start, targets[i], names[i], s) ==> Recoverable(g, start, targets[i], names[i], s)
    {
      OtherTarget(f, g, start, targets, names, k, i);
    }
  }

  // A state in which the last target is not in place, or all are.
  lemma LastUnchanged(f: Files, g: Files, start: Files, targets: seq<Target>, names: seq<Path>, i: nat)
    requires Separate(targets, names) && i + 1 < |targets| && OnlyAt(f, g, targets[i], names[i])
    requires !InPlace(f, start, targets[|targets| - 1])
    ensures !InPlace(g, start, targets[|targets| - 1])
  {
    OtherTarget(f, g, start, targets, names, i, |targets| - 1);
  }

  // rollbackPublications: the states in reverse.
  method RollbackPublications(
    fs: FileSystem, states: seq<PublicationState>, ghost targets: seq<Target>, ghost names: seq<Path>, ghost start: Files)
    returns (errors: seq<RollbackError>)
    requires Separate(targets, names) && 0 < |states| <= |targets|
    requires forall i :: 0 <= i < |states| ==> Recoverable(fs.files, start, targets[i], names[i], states[i])
    requires forall i :: |states| <= i < |targets| ==> Untouched(fs.files, start, targets[i], names[i])
    requires forall i :: 0 <= i < |states| ==> (states[i].published <==> i < |states| - 1)
    requires !InPlace(fs.files, start, targets[|targets| - 1]) && !InPlace(start, start, targets[|targets| - 1])
    requires OnlyPaths(fs.files, start, targets, names)
    modifies fs
    ensures fs.faults >= old(fs.faults) && (fs.faults == old(fs.faults) ==> Complete(errors))
    ensures Complete(errors) ==> forall i :: 0 <= i < |targets| ==> SameAt(fs.files, start, targets[i].target)
    ensures Through(old(fs.trace), fs.trace, f => !InPlace(f, start, targets[|targets| - 1]))
    ensures OnlyPaths(fs.files, start, targets, names)
  {
    errors := [];
    var i := |states|;
    ghost var last := targets[|targets| - 1];
    while i > 0
      invariant 0 <= i <= |states| && fs.faults >= old(fs.faults)
      invariant fs.faults == old(fs.faults) ==> Complete(errors)
      invariant forall j :: 0 <= j < i ==> Recoverable(fs.files, start, targets[j], names[j], states[j])
      invariant Complete(errors) ==> forall j :: i <= j < |targets| ==> SameAt(fs.files, start, targets[j].target)
      invariant !InPlace(fs.files, start, last) && OnlyPaths(fs.files, start, targets, names)
      invariant Through(old(fs.trace), fs.trace, f => !InPlace(f, start, last))
    {
      i := i - 1;
      ghost var before, trace := fs.files, fs.trace;
      var more := RollbackOne(fs, targets[i], names[i], states[i], start);
      RollbackStep(before, fs.files, trace, fs.trace, start, targets, names, states, i);
      ThroughTwice(old(fs.trace), trace, fs.trace, f => !InPlace(f, start, last));
      RollbackRest(before, fs.files, start, targets, names, states, i, errors, more);
      CompleteAppend(errors, more);
      errors := errors + more;
    }
  }

  // What one more turn leaves to undo, and what it has undone.
  lemma RollbackRest(
    f: Files, g: Files, start: Files, targets: seq<Target>, names: seq<Path>, states: seq<PublicationState>, i: nat,
    errors: seq<RollbackError>, more: seq<RollbackError>)
    requires |names| == |targets| && i < |states| <= |targets|
    requires forall j :: 0 <= j <= i ==> Recoverable(f, start, targets[j], names[j], states[j])
    requires Complete(errors) ==> forall j :: i < j < |targets| ==> SameAt(f, start, targets[j].target)
    requires Complete(more) ==> SameAt(g, start, targets[i].target)
    requires forall j :: 0 <= j < i ==>
               forall s :: Recoverable(f, start, targets[j], names[j], s) ==> Recoverable(g, start, targets[j], names[j], s)
    requires forall j :: i < j < |targets| ==> SameAt(g, f, targets[j].target)
    ensures forall j :: 0 <= j < i ==> Recoverable(g, start, targets[j], names[j], states[j])
    ensures Complete(errors + more) ==> forall j :: i <= j < |targets| ==> SameAt(g, start, targets[j].target)
  {
    CompleteAppend(errors, more);
  }

  lemma RollbackStep(
    f: Files, g: Files, before: seq<Files>, after: seq<Files>, start: Files, targets: seq<Target>, names: seq<Path>,
    states: seq<PublicationState>, i: nat)
    requires Separate(targets, names) && i < |states| <= |targets|
    requires states[i].published <==> i < |states| - 1
    requires OnlyAt(f, g, targets[i], names[i]) && Through(before, after, m => OnlyAt(f, m, targets[i], names[i]))
    requires !states[i].published ==>
               && Through(before, after, m => SameAt(m, f, targets[i].target) || SameAt(m, start, targets[i].target))
               && (SameAt(g, f, targets[i].target) || SameAt(g, start, targets[i].target))
    requires !InPlace(f, start, targets[|targets| - 1]) && !InPlace(start, start, targets[|targets| - 1])
    requires OnlyPaths(f, start, targets, names)
    ensures Through(before, after, m => !InPlace(m, start, targets[|targets| - 1]))
    ensures !InPlace(g, start, targets[|targets| - 1]) && OnlyPaths(g, start, targets, names)
    ensures forall j :: 0 <= j < i ==>
              forall s :: Recoverable(f, start, targets[j], names[j], s) ==> Recoverable(g, start, targets[j], names[j], s)
    ensures forall j :: i < j < |targets| ==> SameAt(g, f, targets[j].target)
  {
    PathsKept(f, g, start, targets, names, i);
    forall j | 0 <= j < |targets| && j != i
      ensures SameAt(g, f, targets[j].target)
      ensures forall s :: Recoverable(f, start, targets[j], names[j], s) ==> Recoverable(g, start, targets[j], names[j], s)
    {
      OtherTarget(f, g, start, targets, names, i, j);
    }
    if i + 1 < |targets| {
      LastUnchanged(f, g, start, targets, names, i);
      forall k | |before| <= k < |after| ensures !InPlace(after[k], start, targets[|targets| - 1]) {
        LastUnchanged(f, after[k], start, targets, names, i);
      }
    }
  }

  lemma ForwardTrace(
    f: Files, g: Files, before: seq<Files>, after: seq<Files>, start: Files, targets: seq<Target>, names: seq<Path>,
    k: nat, ok: bool)
    requires Separate(targets, names) && k < |targets|
    requires OnlyAt(f, g, targets[k], names[k]) && Through(before, after, m => OnlyAt(f, m, targets[k], names[k]))
    requires !InPlace(start, start, targets[k]) ==>
               Through(before, after, m => InPlace(m, start, targets[k]) ==> ok && m == g)
    requires !InPlace(f, start, targets[|targets| - 1]) && !InPlace(start, start, targets[|targets| - 1])
    requires ok ==> forall i :: 0 <= i <= k ==> InPlace(g, start, targets[i])
    ensures Through(before, after, m => LastInPlaceLast(m, start, targets))
    ensures k + 1 < |targets| ==> !InPlace(g, start, targets[|targets| - 1])
  {
    if k + 1 < |targets| {
      LastUnchanged(f, g, start, targets, names, k);
      forall j | |before| <= j < |after| ensures !InPlace(after[j], start, targets[|targets| - 1]) {
        LastUnchanged(f, after[j], start, targets, names, k);
      }
    }
  }

  lemma ThroughTwice(a: seq<Files>, b: seq<Files>, c: seq<Files>, p: Files -> bool)
    requires Through(a, b, p) && Through(b, c, p)
    ensures Through(a, c, p)
  {
    forall k | |a| <= k < |c| ensures p(c[k]) {
      if k < |b| {
        assert c[k] == b[k];
      }
    }
  }

  // publishTargets: the external outputs first, the cache last. `names` are the backup names
  // that uniqueSibling chooses. The last target is not already what was staged for it. When no
  // operation fails everything is published and cleaned up; a single failure is undone.
  method PublishTargets(fs: FileSystem, targets: seq<Target>, names: seq<Path>) returns (r: Outcome)
    requires Separate(targets, names) && targets != []
    requires forall n <- names :: n !in fs.files
    requires !InPlace(fs.files, fs.files, targets[|targets| - 1])
    modifies fs
    ensures r.MissingStaged? ==> fs.files == old(fs.files)
    ensures r.Published? ==> forall i :: 0 <= i < |targets| ==> InPlace(fs.files, old(fs.files), targets[i])
    ensures r.RolledBack? && Complete(r.errors) ==>
              forall i :: 0 <= i < |targets| ==> SameAt(fs.files, old(fs.files), targets[i].target)
    ensures OnlyPaths(fs.files, old(fs.files), targets, names)
    ensures var start := old(fs.files);
            Through(old(fs.trace), fs.trace, f => LastInPlaceLast(f, start, targets))
    ensures fs.faults == old(fs.faults) ==>
              if forall t <- targets :: t.staged in old(fs.files) then
                && r.Published?
                && forall i :: 0 <= i < |targets| ==> targets[i].staged !in fs.files && names[i] !in fs.files
              else r.MissingStaged?
    ensures r.RolledBack? && fs.faults == old(fs.faults) + 1 ==> Complete(r.errors)
  {
    ghost var start := fs.files;
    var i := 0;
    while i < |targets|
      invariant 0 <= i <= |targets| && fs.files == start && fs.trace == old(fs.trace) && fs.faults == old(fs.faults)
      invariant forall j :: 0 <= j < i ==> targets[j].staged in start
    {
      if targets[i].staged !in fs.files {
        return MissingStaged;
      }
      i := i + 1;
    }
    assert forall t <- targets :: t.staged in start;
    ghost var last := targets[|targets| - 1];
    var states: seq<PublicationState> := [];
    while |states| < |targets|
      invariant fs.faults >= old(fs.faults)
      invariant |states| <= |targets| && PublishedUpTo(fs.files, start, targets, names, states, |states|)
      invariant |states| < |targets| ==> !InPlace(fs.files, start, last)
      invariant OnlyPaths(fs.files, start, targets, names)
      invariant Through(old(fs.trace), fs.trace, f => LastInPlaceLast(f, start, targets))
    {
      ghost var k, before, trace := |states|, fs.files, fs.trace;
      var state, ok := PublishOne(fs, targets[|states|], names[|states|], start);
      NextPublished(before, fs.files, start, targets, names, states, state);
      PathsKept(before, fs.files, start, targets, names, k);
      ForwardTrace(before, fs.files, trace, fs.trace, start, targets, names, k, ok);
      ThroughTwice(old(fs.trace), trace, fs.trace, f => LastInPlaceLast(f, start, targets));
      states := states + [state];
      if !ok {
        ghost var failed := fs.trace;
        var errors := RollbackPublications(fs, states, targets, names, start);
        NeverLast(failed, fs.trace, start, targets);
        ThroughTwice(old(fs.trace), failed, fs.trace, f => LastInPlaceLast(f, start, targets));
        return RolledBack(errors);
      }
    }
    RemoveBackups(fs, states, targets, names, start);
    return Published;
  }

  lemma NeverLast(before: seq<Files>, after: seq<Files>, start: Files, targets: seq<Target>)
    requires targets != [] && Through(before, after, f => !InPlace(f, start, targets[|targets| - 1]))
    ensures Through(before, after, f => LastInPlaceLast(f, start, targets))
  {
  }

  // The backups are removed in the end; a backup that cannot be removed is left behind.
  method RemoveBackups(
    fs: FileSystem, states: seq<PublicationState>, ghost targets: seq<Target>, ghost names: seq<Path>, ghost start: Files)
    requires Separate(targets, names) && |states| == |targets|
    requires PublishedUpTo(fs.files, start, targets, names, states, |states|)
    requires OnlyPaths(fs.files, start, targets, names)
    modifies fs
    ensures forall i :: 0 <= i < |targets| ==> InPlace(fs.files, start, targets[i])
    ensures OnlyPaths(fs.files, start, targets, names)
    ensures Through(old(fs.trace), fs.trace, f => LastInPlaceLast(f, start, targets))
    ensures fs.faults >= old(fs.faults)
    ensures fs.faults == old(fs.faults) ==>
              forall i :: 0 <= i < |targets| ==> targets[i].staged !in fs.files && names[i] !in fs.files
  {
    var i := 0;
    while i < |states|
      invariant 0 <= i <= |states| && OnlyPaths(fs.files, start, targets, names)
      invariant fs.faults >= old(fs.faults)
      invariant forall j :: 0 <= j < |targets| ==> targets[j].staged !in fs.files
      invariant forall j :: i <= j < |targets| && states[j].backup.None? ==> names[j] !in fs.files
      invariant fs.faults == old(fs.faults) ==> forall j :: 0 <= j < i ==> names[j] !in fs.files
      invariant forall j :: 0 <= j < |targets| ==> InPlace(fs.files, start, targets[j])
      invariant Through(old(fs.trace), fs.trace, f => LastInPlaceLast(f, start, targets))
    {
      if states[i].backup.Some? {
        ghost var before := fs.files;
        var removed := fs.Remove(states[i].backup.value);
        assert OnlyAt(before, fs.files, targets[i], names[i]);
        PathsKept(before, fs.files, start, targets, names, i);
        forall j | 0 <= j < |targets| ensures InPlace(fs.files, start, targets[j]) {
          assert SameAt(fs.files, before, targets[j].target);
        }
        forall j | 0 <= j < |targets| ensures SameAt(fs.files, before, targets[j].staged) {
        }
        forall j | 0 <= j < |targets| && j != i ensures SameAt(fs.files, before, names[j]) {
        }
      }
      i := i + 1;
    }
  }
}
