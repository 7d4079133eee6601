/**
 * Change detection of scripts/fumie-debug-package-state.py: snapshots of the dirty part of a
 * working tree, and `classify`, which compares an older snapshot with the present.
 *
 * Commits and the working tree are maps; what the git commands print is given as sets of paths.
 */
module ChangeDetection {
  import opened Prelude

  type Path = string
  type Bytes = seq<byte>
  type Digest = seq<byte>

  // What `lstat` and reading find at a path.
  datatype FileState = Missing | File(mode: nat, content: Bytes) | Symlink(mode: nat, target: Bytes) | Other(mode: nat)

  // What a commit records for a path.
  datatype Blob = Regular(executable: bool, content: Bytes) | LinkTo(target: Bytes)
  type Commit = map<Path, Blob>

  datatype Context = Context(arch: string, node: string)

  datatype World = World(head: string, index: set<Path>, tree: map<Path, FileState>, context: Context)

  // The repository's commits by name, the ignored paths, and the digest function.
  datatype Repo = Repo(commits: map<string, Commit>, ignored: set<Path>, sha: Bytes -> Digest)

  ghost predicate Injective(sha: Bytes -> Digest) {
    forall a, b :: sha(a) == sha(b) ==> a == b
  }

  function TreeAt(w: World, p: Path): FileState {
    if p in w.tree then w.tree[p] else Missing
  }

  function BlobAt(c: Commit, p: Path): Option<Blob> {
    if p in c then Some(c[p]) else None
  }

  // What git sees of a path: contents, link target and the owner's executable bit.
  function View(f: FileState): Option<Blob> {
    match f
    case File(mode, content) => Some(Regular(mode / 64 % 2 == 1, content))
    case Symlink(_, target) => Some(LinkTo(target))
    case _ => None
  }

  // `git diff HEAD` over the paths of HEAD and of the index, and the untracked files.
  function DirtyPaths(repo: Repo, w: World): set<Path>
    requires w.head in repo.commits
  {
    var head := repo.commits[w.head];
    (set p | p in head.Keys + w.index && BlobAt(head, p) != (if p in w.index then View(TreeAt(w, p)) else None))
    + (set p | p in w.tree && View(w.tree[p]).Some? && p !in w.index && p !in repo.ignored)
  }

  datatype Record =
    | MissingRec
    | FileRec(mode: nat, sha256: Digest)
    | SymlinkRec(mode: nat, sha256: Digest)
    | OtherRec(mode: nat)

  function PathState(repo: Repo, f: FileState): Record {
    match f
    case Missing => MissingRec
    case File(mode, content) => FileRec(mode, repo.sha(content))
    case Symlink(mode, target) => SymlinkRec(mode, repo.sha(target))
    case Other(mode) => OtherRec(mode)
  }

  const VERSION := 1

  datatype Snapshot = Snapshot(version: int, head: string, dirty: map<Path, Record>, context: Context)

  function TakeSnapshot(repo: Repo, w: World): Snapshot
    requires w.head in repo.commits
  {
    Snapshot(VERSION, w.head, map p | p in DirtyPaths(repo, w) :: PathState(repo, TreeAt(w, p)), w.context)
  }

  // The state file: unreadable or not JSON, JSON but not an object, or an object with some fields.
  datatype StateFile =
    | Unreadable
    | NotAnObject
    | Saved(version: Option<int>, context: Option<Context>, head: Option<string>, dirty: Option<map<Path, Record>>)

  function Write(s: Snapshot): StateFile {
    Saved(Some(s.version), Some(s.context), Some(s.head), Some(s.dirty))
  }

  datatype Mode = Unchanged | Core | Full
  // `Crash` is the uncaught exception on a state file that holds, say, a JSON list.
  datatype Verdict = Crash | Verdict(mode: Mode, changed: set<Path>)

  function DirtyChanges(a: map<Path, Record>, b: map<Path, Record>): set<Path> {
    set p | p in a.Keys + b.Keys && (if p in a then Some(a[p]) else None) != (if p in b then Some(b[p]) else None)
  }

  function Committed(a: Commit, b: Commit): set<Path> {
    set p | p in a.Keys + b.Keys && BlobAt(a, p) != BlobAt(b, p)
  }

  predicate InScripts(p: Path) { "scripts/" <= p }
  predicate InCore(p: Path) { "src/" <= p && !("src/vscode-dts/" <= p) }

  function Classify(repo: Repo, w: World, previous: StateFile): Verdict
    requires w.head in repo.commits
  {
    match previous
    case Unreadable => Verdict(Full, {})
    case NotAnObject => Crash
    case Saved(version, context, head, dirty) =>
      var current := TakeSnapshot(repo, w);
      if version != Some(VERSION) || context != Some(current.context) then Verdict(Full, {})
      else if head.None? || head.value !in repo.commits || dirty.None? then Verdict(Full, {})
      else
        var changed :=
          Committed(repo.commits[head.value], repo.commits[w.head]) + DirtyChanges(dirty.value, current.dirty);
        var package := set p | p in changed && !InScripts(p);
        if package == {} then Verdict(Unchanged, changed)
        else if forall p :: p in package ==> InCore(p) then Verdict(Core, changed)
        else Verdict(Full, changed)
  }

  // ---------------------------------------------------------------------------------------------
  // Soundness

  // Git looks at the path: it is tracked, or not ignored.
  predicate Seen(repo: Repo, w: World, p: Path) {
    p in w.index || p !in repo.ignored
  }

  // A path git sees and does not call dirty is as HEAD has it.
  lemma CleanIsHead(repo: Repo, w: World, p: Path)
    requires w.head in repo.commits && Seen(repo, w, p) && p !in DirtyPaths(repo, w)
    ensures View(TreeAt(w, p)) == BlobAt(repo.commits[w.head], p)
  {
  }

  lemma SameRecordSameState(repo: Repo, f: FileState, g: FileState)
    requires Injective(repo.sha) && PathState(repo, f) == PathState(repo, g)
    ensures f == g
  {
  }

  // The two snapshots can be compared at all.
  predicate Comparable(repo: Repo, before: World, after: World) {
    before.head in repo.commits && after.head in repo.commits && before.context == after.context
  }

  function ChangedPaths(repo: Repo, before: World, after: World): set<Path>
    requires Comparable(repo, before, after)
  {
    Committed(repo.commits[before.head], repo.commits[after.head])
    + DirtyChanges(TakeSnapshot(repo, before).dirty, TakeSnapshot(repo, after).dirty)
  }

  // Whatever git can see change is in `changed`, committed or not, however the two mix.
  lemma VisibleChangeIsReported(repo: Repo, before: World, after: World, p: Path)
    requires Comparable(repo, before, after) && Injective(repo.sha)
    requires Seen(repo, before, p) && Seen(repo, after, p)
    requires View(TreeAt(before, p)) != View(TreeAt(after, p))
    ensures p in ChangedPaths(repo, before, after)
  {
    if p in DirtyPaths(repo, before) && p in DirtyPaths(repo, after) {
      if PathState(repo, TreeAt(before, p)) == PathState(repo, TreeAt(after, p)) {
        SameRecordSameState(repo, TreeAt(before, p), TreeAt(after, p));
      }
    } else if p !in DirtyPaths(repo, before) && p !in DirtyPaths(repo, after) {
      CleanIsHead(repo, before, p);
      CleanIsHead(repo, after, p);
    }
  }

  // Exactly when a changed path state goes unreported: the path is clean in both snapshots and its
  // commits agree, so that only what git does not look at can differ.
  lemma UnreportedExactly(repo: Repo, before: World, after: World, p: Path)
    requires Comparable(repo, before, after) && Injective(repo.sha)
    requires Seen(repo, before, p) && Seen(repo, after, p)
    requires TreeAt(before, p) != TreeAt(after, p)
    ensures p !in ChangedPaths(repo, before, after) <==>
      && p !in DirtyPaths(repo, before) && p !in DirtyPaths(repo, after)
      && BlobAt(repo.commits[before.head], p) == BlobAt(repo.commits[after.head], p)
    ensures p !in ChangedPaths(repo, before, after) ==> View(TreeAt(before, p)) == View(TreeAt(after, p))
  {
    if View(TreeAt(before, p)) != View(TreeAt(after, p)) { VisibleChangeIsReported(repo, before, after, p); }
    if PathState(repo, TreeAt(before, p)) == PathState(repo, TreeAt(after, p)) {
      SameRecordSameState(repo, TreeAt(before, p), TreeAt(after, p));
    }
  }

  // Git's own modes: 0644 or 0755 for files, 0777 for links, and nothing else in the tree.
  predicate Canonical(f: FileState) {
    match f
    case Missing => true
    case File(mode, _) => mode == 0x1a4 || mode == 0x1ed
    case Symlink(mode, _) => mode == 0x1ff
    case Other(_) => false
  }

  // With such modes every difference in path state is reported.
  lemma CanonicalChangeIsReported(repo: Repo, before: World, after: World, p: Path)
    requires Comparable(repo, before, after) && Injective(repo.sha)
    requires Seen(repo, before, p) && Seen(repo, after, p)
    requires Canonical(TreeAt(before, p)) && Canonical(TreeAt(after, p)) && TreeAt(before, p) != TreeAt(after, p)
    ensures p in ChangedPaths(repo, before, after)
  {
    UnreportedExactly(repo, before, after, p);
  }

  // Without them it is not: a clean file taken from mode 0644 to 0600 has another path state, and
  // the verdict is still "unchanged".
  lemma ChmodIsUnreported(repo: Repo)
    requires repo == Repo(map["c" := map["src/a" := Regular(false, [])]], {}, repo.sha)
    ensures var before := World("c", {"src/a"}, map["src/a" := File(0x1a4, [])], Context("", ""));
      var after := before.(tree := map["src/a" := File(0x180, [])]);
      PathState(repo, TreeAt(before, "src/a")) != PathState(repo, TreeAt(after, "src/a"))
      && Classify(repo, after, Write(TakeSnapshot(repo, before))) == Verdict(Unchanged, {})
  {
    var before := World("c", {"src/a"}, map["src/a" := File(0x1a4, [])], Context("", ""));
    var after := before.(tree := map["src/a" := File(0x180, [])]);
    assert DirtyPaths(repo, before) == {} && DirtyPaths(repo, after) == {};
    assert TakeSnapshot(repo, before).dirty == map[] && TakeSnapshot(repo, after).dirty == map[];
    assert ChangedPaths(repo, before, after) == {};
  }

  // The other way: a path is reported only if its blob differs between the two commits, it is dirty in
  // one snapshot only, or it is dirty in both with a different file state.
  lemma ReportedIff(repo: Repo, before: World, after: World, p: Path)
    requires Comparable(repo, before, after) && Injective(repo.sha)
    ensures var v := Classify(repo, after, Write(TakeSnapshot(repo, before)));
      var (c, d) := (repo.commits[before.head], repo.commits[after.head]);
      var (wasDirty, isDirty) := (p in DirtyPaths(repo, before), p in DirtyPaths(repo, after));
      v.Verdict? && (p in v.changed <==>
        || (p in c) != (p in d)
        || (p in c && p in d && c[p] != d[p])
        || wasDirty != isDirty
        || (wasDirty && isDirty && TreeAt(before, p) != TreeAt(after, p)))
  {
    VerdictIsExact(repo, before, after);
    hide Classify, DirtyPaths, PathState, TreeAt;
    if PathState(repo, TreeAt(before, p)) == PathState(repo, TreeAt(after, p)) {
      SameRecordSameState(repo, TreeAt(before, p), TreeAt(after, p));
    }
  }

  // Which paths are dirty: tracked ones that are not as HEAD has them, those HEAD has and the index
  // has not, and untracked files and links that are not ignored.
  lemma DirtyIff(repo: Repo, w: World, p: Path)
    requires w.head in repo.commits
    ensures p in DirtyPaths(repo, w) <==>
      if p in w.index then !AsCommitted(repo.commits[w.head], p, TreeAt(w, p))
      else p in repo.commits[w.head] ||
           (p !in repo.ignored && p in w.tree && (w.tree[p].File? || w.tree[p].Symlink?))
  {
  }

  // The commit has the file with its contents and the owner's executable bit, or the link, or nothing
  // where there is neither.
  predicate AsCommitted(c: Commit, p: Path, f: FileState) {
    match f
    case File(mode, content) => p in c && c[p] == Regular(mode / 64 % 2 == 1, content)
    case Symlink(_, target) => p in c && c[p] == LinkTo(target)
    case _ => p !in c
  }

  // A world that did not change is "unchanged", whatever is dirty in it.
  lemma NothingChanged(repo: Repo, w: World)
    requires w.head in repo.commits && Injective(repo.sha)
    ensures Classify(repo, w, Write(TakeSnapshot(repo, w))) == Verdict(Unchanged, {})
  {
    VerdictIsExact(repo, w, w);
    var v := Classify(repo, w, Write(TakeSnapshot(repo, w)));
    forall p ensures p !in v.changed { ReportedIff(repo, w, w, p); }
    hide Classify;
  }

  // The visible changes one by one: contents, the owner's executable bit, a link's target, and what
  // kind of thing there is.
  lemma EditIsReported(repo: Repo, before: World, after: World, p: Path)
    requires Comparable(repo, before, after) && Injective(repo.sha)
    requires Seen(repo, before, p) && Seen(repo, after, p)
    requires match (TreeAt(before, p), TreeAt(after, p))
      case (File(m, c), File(n, d)) => c != d || m / 64 % 2 != n / 64 % 2
      case (Symlink(_, t), Symlink(_, u)) => t != u
      case (File(_, _), _) => true
      case (Symlink(_, _), _) => true
      case (_, File(_, _)) => true
      case (_, Symlink(_, _)) => true
      case _ => false
    ensures p in Classify(repo, after, Write(TakeSnapshot(repo, before))).changed
  {
    VisibleChangeIsReported(repo, before, after, p);
    VerdictIsExact(repo, before, after);
    hide Classify, ChangedPaths;
  }

  // The verdict is no more alarming than the reported paths make it.
  lemma VerdictIsExact(repo: Repo, before: World, after: World)
    requires Comparable(repo, before, after)
    ensures var v := Classify(repo, after, Write(TakeSnapshot(repo, before)));
      && v.Verdict? && v.changed == ChangedPaths(repo, before, after)
      && (v.mode == Unchanged <==> forall p :: p in v.changed ==> "scripts/" <= p)
      && (v.mode == Full <==>
            exists p :: p in v.changed && !("scripts/" <= p) && (!("src/" <= p) || "src/vscode-dts/" <= p))
  {
    hide Committed, DirtyChanges, DirtyPaths, PathState;
    var changed := ChangedPaths(repo, before, after);
    var package := set p | p in changed && !InScripts(p);
    if forall p :: p in changed ==> InScripts(p) { assert package == {}; }
    if exists p :: p in changed && !InScripts(p) {
      var p :| p in changed && !InScripts(p);
      assert p in package;
    }
    var v := Classify(repo, after, Write(TakeSnapshot(repo, before)));
    if v.mode == Full {
      var p :| p in package && !InCore(p);
      assert p in v.changed && !("scripts/" <= p) && (!("src/" <= p) || "src/vscode-dts/" <= p);
    }
    if p :| p in v.changed && !("scripts/" <= p) && (!("src/" <= p) || "src/vscode-dts/" <= p) {
      assert p in package && !InCore(p);
    }
  }

  // A state file that is no complete record of this version and context, taken at a commit that still
  // exists, leads to a full rebuild; one that is not even an object makes the script fail.
  lemma AnythingElseIsFull(repo: Repo, w: World, previous: StateFile)
    requires w.head in repo.commits
    ensures Classify(repo, w, previous).Crash? <==> previous.NotAnObject?
    ensures Complete(repo, w, previous) || previous.NotAnObject? || Classify(repo, w, previous) == Verdict(Full, {})
  {
    hide Committed, DirtyChanges, DirtyPaths, PathState;
  }

  predicate Complete(repo: Repo, w: World, previous: StateFile) {
    && previous.Saved? && previous.version == Some(1) && previous.context == Some(w.context)
    && previous.head.Some? && previous.head.value in repo.commits && previous.dirty.Some?
  }

  // The verdict against a snapshot written earlier. "Unchanged" means that every visible change is
  // under scripts/, "core" that every other one is under src/ but not src/vscode-dts/, and any
  // snapshot that cannot be compared is "full".
  lemma VerdictIsSound(repo: Repo, before: World, after: World, p: Path)
    requires before.head in repo.commits && after.head in repo.commits && Injective(repo.sha)
    requires Seen(repo, before, p) && Seen(repo, after, p)
    requires View(TreeAt(before, p)) != View(TreeAt(after, p))
    ensures var v := Classify(repo, after, Write(TakeSnapshot(repo, before)));
      && v.Verdict?
      && (before.context != after.context ==> v.mode == Full)
      && (before.context == after.context ==> p in v.changed)
      && (v.mode == Unchanged ==> "scripts/" <= p)
      && (v.mode == Core ==> "scripts/" <= p || ("src/" <= p && !("src/vscode-dts/" <= p)))
  {
    if before.context == after.context {
      VisibleChangeIsReported(repo, before, after, p);
      VerdictIsExact(repo, before, after);
    }
  }
}
