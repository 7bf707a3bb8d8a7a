/**
 * Phase 1 of an organization run: the top-down walk of `get_files_in_folder`, which prunes
 * hidden sub-directories before descending, filters hidden files out, and counts every entry
 * it skips. The directory tree is an abstract snapshot of what `os.walk` lists.
 */
module Scanner {
  import opened PathText

  /** A directory as `os.walk` lists it: its name, its sub-directories and its file names. */
  datatype Dir = Dir(name: string, subdirs: seq<Dir>, files: seq<string>)

  /** A directory still to be visited, with the path the walk reached it by. */
  type Pending = (string, Dir)

  // ---------------------------------------------------------------------------
  // What the walk produces
  // ---------------------------------------------------------------------------

  /** The non-hidden files of a directory at `path`, joined onto it (FileSorter.py:185-190). */
  function VisibleFiles(isHidden: string -> bool, path: string, files: seq<string>): seq<string> {
    if files == [] then []
    else (if isHidden(Join(path, files[0])) then [] else [Join(path, files[0])]) + VisibleFiles(isHidden, path, files[1..])
  }

  /** How many files of a directory at `path` are hidden. */
  function HiddenFiles(isHidden: string -> bool, path: string, files: seq<string>): nat {
    if files == [] then 0
    else (if isHidden(Join(path, files[0])) then 1 else 0) + HiddenFiles(isHidden, path, files[1..])
  }

  /** The sub-directories left in `dirnames` after the hidden ones are pruned (FileSorter.py:177-184). */
  function Kept(isHidden: string -> bool, path: string, ds: seq<Dir>): seq<Pending> {
    if ds == [] then []
    else
      var p := Join(path, ds[0].name);
      (if isHidden(p) then [] else [(p, ds[0])]) + Kept(isHidden, path, ds[1..])
  }

  /** How many sub-directories of a directory at `path` are hidden. */
  function HiddenDirs(isHidden: string -> bool, path: string, ds: seq<Dir>): nat {
    if ds == [] then 0
    else (if isHidden(Join(path, ds[0].name)) then 1 else 0) + HiddenDirs(isHidden, path, ds[1..])
  }

  /** The files the walk reports below the directory `d` reached at `path`, in walk order. */
  function Walk(isHidden: string -> bool, path: string, d: Dir): seq<string>
    decreases d, 1
  {
    VisibleFiles(isHidden, path, d.files) + WalkSubdirs(isHidden, path, d.subdirs)
  }

  function WalkSubdirs(isHidden: string -> bool, path: string, ds: seq<Dir>): seq<string>
    decreases ds, 0
  {
    if ds == [] then [] else WalkEntry(isHidden, path, ds[0]) + WalkSubdirs(isHidden, path, ds[1..])
  }

  /** What the sub-directory `d` of the directory at `path` contributes: nothing when it is hidden. */
  function WalkEntry(isHidden: string -> bool, path: string, d: Dir): seq<string>
    decreases d, 2
  {
    var p := Join(path, d.name);
    if isHidden(p) then [] else Walk(isHidden, p, d)
  }

  /** `skipped_for_safety_count` for the directory `d` reached at `path`. */
  function Skipped(isHidden: string -> bool, path: string, d: Dir): nat
    decreases d, 1
  {
    HiddenDirs(isHidden, path, d.subdirs) + HiddenFiles(isHidden, path, d.files) + SkippedSubdirs(isHidden, path, d.subdirs)
  }

  function SkippedSubdirs(isHidden: string -> bool, path: string, ds: seq<Dir>): nat
    decreases ds, 0
  {
    if ds == [] then 0
    else
      var p := Join(path, ds[0].name);
      (if isHidden(p) then 0 else Skipped(isHidden, p, ds[0])) + SkippedSubdirs(isHidden, path, ds[1..])
  }

  /** What the directories on the stack will still contribute, in the order they are popped. */
  function WalkStack(isHidden: string -> bool, stack: seq<Pending>): seq<string> {
    if stack == [] then [] else Walk(isHidden, stack[0].0, stack[0].1) + WalkStack(isHidden, stack[1..])
  }

  function SkippedStack(isHidden: string -> bool, stack: seq<Pending>): nat {
    if stack == [] then 0 else Skipped(isHidden, stack[0].0, stack[0].1) + SkippedStack(isHidden, stack[1..])
  }

  function Size(d: Dir): nat
    decreases d, 1
  {
    1 + SizeAll(d.subdirs)
  }

  function SizeAll(ds: seq<Dir>): nat
    decreases ds, 0
  {
    if ds == [] then 0 else Size(ds[0]) + SizeAll(ds[1..])
  }

  function StackSize(stack: seq<Pending>): nat {
    if stack == [] then 0 else Size(stack[0].1) + StackSize(stack[1..])
  }

  // ---------------------------------------------------------------------------
  // The walk itself
  // ---------------------------------------------------------------------------

  lemma {:induction false} WalkStackAppend(isHidden: string -> bool, a: seq<Pending>, b: seq<Pending>)
    ensures WalkStack(isHidden, a + b) == WalkStack(isHidden, a) + WalkStack(isHidden, b)
  {
    if a == [] {
      assert a + b == b;
    } else {
      assert (a + b)[0] == a[0];
      assert (a + b)[1..] == a[1..] + b;
      WalkStackAppend(isHidden, a[1..], b);
    }
  }

  lemma {:induction false} SkippedStackAppend(isHidden: string -> bool, a: seq<Pending>, b: seq<Pending>)
    ensures SkippedStack(isHidden, a + b) == SkippedStack(isHidden, a) + SkippedStack(isHidden, b)
  {
    if a == [] {
      assert a + b == b;
    } else {
      assert (a + b)[0] == a[0];
      assert (a + b)[1..] == a[1..] + b;
      SkippedStackAppend(isHidden, a[1..], b);
    }
  }

  lemma {:induction false} StackSizeAppend(a: seq<Pending>, b: seq<Pending>)
    ensures StackSize(a + b) == StackSize(a) + StackSize(b)
  {
    if a == [] {
      assert a + b == b;
    } else {
      assert (a + b)[0] == a[0];
      assert (a + b)[1..] == a[1..] + b;
      StackSizeAppend(a[1..], b);
    }
  }

  /** The kept sub-directory at the head of `Kept`, if the head is not hidden. */
  function KeptHead(isHidden: string -> bool, path: string, ds: seq<Dir>): seq<Pending>
    requires ds != []
  {
    var p := Join(path, ds[0].name);
    if isHidden(p) then [] else [(p, ds[0])]
  }

  /** Pushing the kept sub-directories yields exactly the files the parent still owes. */
  lemma {:induction false} KeptWalks(isHidden: string -> bool, path: string, ds: seq<Dir>)
    ensures WalkStack(isHidden, Kept(isHidden, path, ds)) == WalkSubdirs(isHidden, path, ds)
  {
    if ds != [] {
      var head := KeptHead(isHidden, path, ds);
      assert Kept(isHidden, path, ds) == head + Kept(isHidden, path, ds[1..]);
      KeptWalks(isHidden, path, ds[1..]);
      WalkStackAppend(isHidden, head, Kept(isHidden, path, ds[1..]));
      if head != [] {
        assert head[1..] == [];
      }
    }
  }

  /** Pushing the kept sub-directories yields exactly the skips the parent still owes. */
  lemma {:induction false} KeptSkips(isHidden: string -> bool, path: string, ds: seq<Dir>)
    ensures SkippedStack(isHidden, Kept(isHidden, path, ds)) == SkippedSubdirs(isHidden, path, ds)
  {
    if ds != [] {
      var head := KeptHead(isHidden, path, ds);
      assert Kept(isHidden, path, ds) == head + Kept(isHidden, path, ds[1..]);
      KeptSkips(isHidden, path, ds[1..]);
      SkippedStackAppend(isHidden, head, Kept(isHidden, path, ds[1..]));
      if head != [] {
        assert head[1..] == [];
      }
    }
  }

  /** The kept sub-directories are no larger than all of them. */
  lemma {:induction false} KeptSize(isHidden: string -> bool, path: string, ds: seq<Dir>)
    ensures StackSize(Kept(isHidden, path, ds)) <= SizeAll(ds)
  {
    if ds != [] {
      var head := KeptHead(isHidden, path, ds);
      assert Kept(isHidden, path, ds) == head + Kept(isHidden, path, ds[1..]);
      KeptSize(isHidden, path, ds[1..]);
      StackSizeAppend(head, Kept(isHidden, path, ds[1..]));
      if head != [] {
        assert head[1..] == [];
      }
    }
  }

  /** One more sub-directory examined keeps the pruning loop's accounting exact. */
  lemma SubdirsStep(isHidden: string -> bool, path: string, ds: seq<Dir>, i: nat, kept: seq<Pending>, count: nat)
    requires i < |ds|
    requires kept + Kept(isHidden, path, ds[i..]) == Kept(isHidden, path, ds)
    requires count + HiddenDirs(isHidden, path, ds[i..]) == HiddenDirs(isHidden, path, ds)
    ensures var p := Join(path, ds[i].name);
            (if isHidden(p) then kept else kept + [(p, ds[i])]) + Kept(isHidden, path, ds[i + 1..]) == Kept(isHidden, path, ds) &&
            (if isHidden(p) then count + 1 else count) + HiddenDirs(isHidden, path, ds[i + 1..]) == HiddenDirs(isHidden, path, ds)
  {
    var t := ds[i..];
    assert t[0] == ds[i] && t[1..] == ds[i + 1..];
    var head := KeptHead(isHidden, path, t);
    var tail := Kept(isHidden, path, ds[i + 1..]);
    assert Kept(isHidden, path, t) == head + tail;
    assert kept + (head + tail) == (kept + head) + tail;
  }

  /** One more file examined keeps the filtering loop's accounting exact. */
  lemma FilesStep(isHidden: string -> bool, path: string, files: seq<string>, j: nat, visible: seq<string>, count: nat)
    requires j < |files|
    requires visible + VisibleFiles(isHidden, path, files[j..]) == VisibleFiles(isHidden, path, files)
    requires count + HiddenFiles(isHidden, path, files[j..]) == HiddenFiles(isHidden, path, files)
    ensures var p := Join(path, files[j]);
            (if isHidden(p) then visible else visible + [p]) + VisibleFiles(isHidden, path, files[j + 1..]) == VisibleFiles(isHidden, path, files) &&
            (if isHidden(p) then count + 1 else count) + HiddenFiles(isHidden, path, files[j + 1..]) == HiddenFiles(isHidden, path, files)
  {
    var t := files[j..];
    assert t[0] == files[j] && t[1..] == files[j + 1..];
    var p := Join(path, files[j]);
    var head: seq<string> := if isHidden(p) then [] else [p];
    var tail := VisibleFiles(isHidden, path, files[j + 1..]);
    assert VisibleFiles(isHidden, path, t) == head + tail;
    assert visible + (head + tail) == (visible + head) + tail;
  }

  /** The `dirnames[:]` rewrite of FileSorter.py:177-184: keep the sub-directories that are not hidden, count the rest. */
  method PruneHiddenSubdirs(isHidden: string -> bool, dirpath: string, subdirs: seq<Dir>) returns (kept: seq<Pending>, hiddenCount: nat)
    ensures kept == Kept(isHidden, dirpath, subdirs)
    ensures hiddenCount == HiddenDirs(isHidden, dirpath, subdirs)
  {
    kept, hiddenCount := [], 0;
    var i := 0;
    while i < |subdirs|
      invariant 0 <= i <= |subdirs|
      invariant kept + Kept(isHidden, dirpath, subdirs[i..]) == Kept(isHidden, dirpath, subdirs)
      invariant hiddenCount + HiddenDirs(isHidden, dirpath, subdirs[i..]) == HiddenDirs(isHidden, dirpath, subdirs)
    {
      SubdirsStep(isHidden, dirpath, subdirs, i, kept, hiddenCount);
      var p := Join(dirpath, subdirs[i].name);
      if isHidden(p) {
        hiddenCount := hiddenCount + 1;
      } else {
        kept := kept + [(p, subdirs[i])];
      }
      i := i + 1;
    }
  }

  /** The file loop of FileSorter.py:185-190: collect the files that are not hidden, count the rest. */
  method FilterHiddenFiles(isHidden: string -> bool, dirpath: string, files: seq<string>) returns (visible: seq<string>, hiddenCount: nat)
    ensures visible == VisibleFiles(isHidden, dirpath, files)
    ensures hiddenCount == HiddenFiles(isHidden, dirpath, files)
  {
    visible, hiddenCount := [], 0;
    var j := 0;
    while j < |files|
      invariant 0 <= j <= |files|
      invariant visible + VisibleFiles(isHidden, dirpath, files[j..]) == VisibleFiles(isHidden, dirpath, files)
      invariant hiddenCount + HiddenFiles(isHidden, dirpath, files[j..]) == HiddenFiles(isHidden, dirpath, files)
    {
      FilesStep(isHidden, dirpath, files, j, visible, hiddenCount);
      var p := Join(dirpath, files[j]);
      if isHidden(p) {
        hiddenCount := hiddenCount + 1;
      } else {
        visible := visible + [p];
      }
      j := j + 1;
    }
  }

  /** Visiting the top of the stack: its visible files come out and its kept sub-directories take its place. */
  lemma WalkStep(isHidden: string -> bool, stack: seq<Pending>, kept: seq<Pending>)
    requires stack != [] && kept == Kept(isHidden, stack[0].0, stack[0].1.subdirs)
    ensures WalkStack(isHidden, stack) == VisibleFiles(isHidden, stack[0].0, stack[0].1.files) + WalkStack(isHidden, kept + stack[1..])
  {
    var path, d, rest := stack[0].0, stack[0].1, stack[1..];
    KeptWalks(isHidden, path, d.subdirs);
    WalkStackAppend(isHidden, kept, rest);
    var visible, below, after := VisibleFiles(isHidden, path, d.files), WalkSubdirs(isHidden, path, d.subdirs), WalkStack(isHidden, rest);
    calc {
      WalkStack(isHidden, stack);
      Walk(isHidden, path, d) + after;
      (visible + below) + after;
      visible + (below + after);
      visible + WalkStack(isHidden, kept + rest);
    }
  }

  /** Visiting the top of the stack counts its hidden entries and leaves its kept sub-directories to count the rest. */
  lemma SkipStep(isHidden: string -> bool, stack: seq<Pending>, kept: seq<Pending>)
    requires stack != [] && kept == Kept(isHidden, stack[0].0, stack[0].1.subdirs)
    ensures SkippedStack(isHidden, stack) ==
              HiddenDirs(isHidden, stack[0].0, stack[0].1.subdirs) + HiddenFiles(isHidden, stack[0].0, stack[0].1.files) +
              SkippedStack(isHidden, kept + stack[1..])
  {
    KeptSkips(isHidden, stack[0].0, stack[0].1.subdirs);
    SkippedStackAppend(isHidden, kept, stack[1..]);
  }

  lemma SizeStep(isHidden: string -> bool, stack: seq<Pending>, kept: seq<Pending>)
    requires stack != [] && kept == Kept(isHidden, stack[0].0, stack[0].1.subdirs)
    ensures StackSize(kept + stack[1..]) < StackSize(stack)
  {
    KeptSize(isHidden, stack[0].0, stack[0].1.subdirs);
    StackSizeAppend(kept, stack[1..]);
  }

  /**
   * `get_files_in_folder` (FileSorter.py:169-190) over a snapshot of the tree: `os.walk`'s
   * top-down stack, with the top at the front (Python pushes the kept directories reversed and
   * pops the last one, which visits them in the same order).
   */
  method Scan(isHidden: string -> bool, root: string, tree: Dir) returns (paths: seq<string>, skipped: nat)
    ensures paths == Walk(isHidden, root, tree)
    ensures skipped == Skipped(isHidden, root, tree)
  {
    paths, skipped := [], 0;
    var stack: seq<Pending> := [(root, tree)];
    assert stack[1..] == [];
    while stack != []
      invariant paths + WalkStack(isHidden, stack) == Walk(isHidden, root, tree)
      invariant skipped + SkippedStack(isHidden, stack) == Skipped(isHidden, root, tree)
      decreases StackSize(stack)
    {
      var dirpath := stack[0].0;
      var d := stack[0].1;
      var rest := stack[1..];
      var kept, hiddenDirs := PruneHiddenSubdirs(isHidden, dirpath, d.subdirs);
      var visible, hiddenFiles := FilterHiddenFiles(isHidden, dirpath, d.files);
      WalkStep(isHidden, stack, kept);
      SkipStep(isHidden, stack, kept);
      SizeStep(isHidden, stack, kept);
      assert paths + (visible + WalkStack(isHidden, kept + rest)) == (paths + visible) + WalkStack(isHidden, kept + rest);
      paths := paths + visible;
      skipped := skipped + hiddenDirs + hiddenFiles;
      stack := kept + rest;
    }
  }

  // ---------------------------------------------------------------------------
  // What the walk promises
  // ---------------------------------------------------------------------------

  /** The scan never returns a path whose base name is hidden. */
  lemma {:induction false} ScanNeverReturnsHidden(isHidden: string -> bool, path: string, d: Dir, p: string)
    requires p in Walk(isHidden, path, d)
    ensures !isHidden(p)
    decreases d, 1
  {
    if p in VisibleFiles(isHidden, path, d.files) {
      VisibleFileOrigin(isHidden, path, d.files, p);
    } else {
      ScanSubdirsNeverReturnHidden(isHidden, path, d.subdirs, p);
    }
  }

  lemma {:induction false} ScanSubdirsNeverReturnHidden(isHidden: string -> bool, path: string, ds: seq<Dir>, p: string)
    requires p in WalkSubdirs(isHidden, path, ds)
    ensures !isHidden(p)
    decreases ds, 0
  {
    var q := Join(path, ds[0].name);
    if !isHidden(q) && p in Walk(isHidden, q, ds[0]) {
      ScanNeverReturnsHidden(isHidden, q, ds[0], p);
    } else {
      ScanSubdirsNeverReturnHidden(isHidden, path, ds[1..], p);
    }
  }

  /** No file or directory name holds a separator, as in any real directory listing. */
  ghost predicate WellNamed(d: Dir)
    decreases d
  {
    (forall f :: f in d.files ==> Sep !in f) &&
    forall k :: 0 <= k < |d.subdirs| ==> Sep !in d.subdirs[k].name && WellNamed(d.subdirs[k])
  }

  /** The Unix hidden rule on a bare name. */
  predicate HiddenName(n: string) {
    StartsWith(n, ".")
  }

  /**
   * `rel` leads from `d` to a file the scan must report: it names a chain of sub-directories
   * and then a file, and no name on the way is hidden.
   */
  ghost predicate Reaches(d: Dir, rel: seq<string>)
    decreases |rel|
  {
    if |rel| == 1 then rel[0] in d.files && !HiddenName(rel[0])
    else |rel| > 1 && !HiddenName(rel[0]) &&
         exists k :: 0 <= k < |d.subdirs| && d.subdirs[k].name == rel[0] && Reaches(d.subdirs[k], rel[1..])
  }

  /** The path reached from `p` by following the names in `rel`. */
  function JoinAll(p: string, rel: seq<string>): string
    decreases |rel|
  {
    if rel == [] then p else JoinAll(Join(p, rel[0]), rel[1..])
  }

  /**
   * A hidden test that looks only at the last name of a path: joining a bare name `n` onto any
   * directory is hidden exactly when `n` itself is.
   */
  ghost predicate NameBased(isHidden: string -> bool) {
    forall p: string, n: string :: Sep !in n ==> (isHidden(Join(p, n)) <==> HiddenName(n))
  }

  /** The Unix rule of FileSorter.py:161 decides on the name just joined. */
  lemma HiddenJoin(p: string, n: string)
    requires Sep !in n
    ensures IsHidden(Join(p, n)) <==> HiddenName(n)
  {
    BaseNameOfJoin(p, n);
  }

  /** The Unix rule is a name-based hidden test, so the soundness and completeness lemmas apply to it. */
  lemma UnixRuleIsNameBased()
    ensures NameBased(IsHidden)
  {
    forall p: string, n: string | Sep !in n
      ensures IsHidden(Join(p, n)) <==> HiddenName(n)
    {
      HiddenJoin(p, n);
    }
  }

  lemma {:induction false} InVisibleFiles(isHidden: string -> bool, path: string, files: seq<string>, f: string)
    requires NameBased(isHidden) && f in files && Sep !in f && !HiddenName(f)
    ensures Join(path, f) in VisibleFiles(isHidden, path, files)
  {
    assert isHidden(Join(path, f)) <==> HiddenName(f);
    if files[0] != f {
      InVisibleFiles(isHidden, path, files[1..], f);
    }
  }

  lemma {:induction false} VisibleFileOrigin(isHidden: string -> bool, path: string, files: seq<string>, p: string)
    requires p in VisibleFiles(isHidden, path, files)
    ensures exists f :: f in files && p == Join(path, f) && !isHidden(p)
  {
    if p != Join(path, files[0]) || isHidden(Join(path, files[0])) {
      VisibleFileOrigin(isHidden, path, files[1..], p);
    }
  }

  /** Every file the scan returns is reached through non-hidden names only. */
  lemma {:induction false} ScanSound(isHidden: string -> bool, path: string, d: Dir, p: string)
    requires NameBased(isHidden) && WellNamed(d) && p in Walk(isHidden, path, d)
    ensures exists rel :: Reaches(d, rel) && JoinAll(path, rel) == p
    decreases d, 1
  {
    if p in VisibleFiles(isHidden, path, d.files) {
      VisibleFileOrigin(isHidden, path, d.files, p);
      var f :| f in d.files && p == Join(path, f) && !isHidden(p);
      assert isHidden(Join(path, f)) <==> HiddenName(f);
      assert [f][1..] == [];
      assert JoinAll(path, [f]) == p;
      assert Reaches(d, [f]);
    } else {
      assert d.subdirs[0..] == d.subdirs;
      ScanSubdirsSound(isHidden, path, d, 0, p);
    }
  }

  lemma {:induction false} ScanSubdirsSound(isHidden: string -> bool, path: string, d: Dir, from: nat, p: string)
    requires NameBased(isHidden) && WellNamed(d) && from <= |d.subdirs|
    requires p in WalkSubdirs(isHidden, path, d.subdirs[from..])
    ensures exists rel :: Reaches(d, rel) && JoinAll(path, rel) == p
    decreases d, 0, |d.subdirs| - from
  {
    var ds := d.subdirs[from..];
    var s := d.subdirs[from];
    var q := Join(path, s.name);
    if !isHidden(q) && p in Walk(isHidden, q, s) {
      ScanSound(isHidden, q, s, p);
      var rel :| Reaches(s, rel) && JoinAll(q, rel) == p;
      assert isHidden(Join(path, s.name)) <==> HiddenName(s.name);
      var full := [s.name] + rel;
      assert full[1..] == rel;
      assert Reaches(d, full);
      assert JoinAll(path, full) == p;
    } else {
      assert ds[1..] == d.subdirs[from + 1..];
      ScanSubdirsSound(isHidden, path, d, from + 1, p);
    }
  }

  /** Every file reached through non-hidden names only is returned by the scan. */
  lemma {:induction false} ScanComplete(isHidden: string -> bool, path: string, d: Dir, rel: seq<string>)
    requires NameBased(isHidden) && WellNamed(d) && Reaches(d, rel)
    ensures JoinAll(path, rel) in Walk(isHidden, path, d)
    decreases |rel|
  {
    if |rel| == 1 {
      InVisibleFiles(isHidden, path, d.files, rel[0]);
    } else {
      var k :| 0 <= k < |d.subdirs| && d.subdirs[k].name == rel[0] && Reaches(d.subdirs[k], rel[1..]);
      var q := Join(path, rel[0]);
      ScanComplete(isHidden, q, d.subdirs[k], rel[1..]);
      assert isHidden(Join(path, rel[0])) <==> HiddenName(rel[0]);
      WalkSubdirsContains(isHidden, path, d.subdirs, k, JoinAll(q, rel[1..]));
    }
  }

  lemma {:induction false} WalkSubdirsContains(isHidden: string -> bool, path: string, ds: seq<Dir>, k: int, p: string)
    requires 0 <= k < |ds|
    requires p in WalkEntry(isHidden, path, ds[k])
    ensures p in WalkSubdirs(isHidden, path, ds)
  {
    if k > 0 {
      assert ds[1..][k - 1] == ds[k];
      WalkSubdirsContains(isHidden, path, ds[1..], k - 1, p);
    }
  }

  /** How many files sit in the directories the walk visits, and how many hidden sub-directories it meets there. */
  ghost function Met(d: Dir): nat
    decreases d, 1
  {
    |d.files| + HiddenNamedDirs(d.subdirs) + MetSubdirs(d.subdirs)
  }

  ghost function HiddenNamedDirs(ds: seq<Dir>): nat {
    if ds == [] then 0 else (if HiddenName(ds[0].name) then 1 else 0) + HiddenNamedDirs(ds[1..])
  }

  ghost function MetSubdirs(ds: seq<Dir>): nat
    decreases ds, 0
  {
    if ds == [] then 0 else (if HiddenName(ds[0].name) then 0 else Met(ds[0])) + MetSubdirs(ds[1..])
  }

  lemma {:induction false} FilesAccounted(isHidden: string -> bool, path: string, files: seq<string>)
    ensures |VisibleFiles(isHidden, path, files)| + HiddenFiles(isHidden, path, files) == |files|
  {
    if files != [] {
      FilesAccounted(isHidden, path, files[1..]);
    }
  }

  /**
   * Accounting of the scan: every file of a visited directory is either returned or counted
   * as skipped, and every hidden sub-directory met is counted once (its contents never are).
   */
  lemma {:induction false} ScanAccounts(isHidden: string -> bool, path: string, d: Dir)
    requires NameBased(isHidden) && WellNamed(d)
    ensures |Walk(isHidden, path, d)| + Skipped(isHidden, path, d) == Met(d)
    decreases d, 1
  {
    FilesAccounted(isHidden, path, d.files);
    ScanSubdirsAccount(isHidden, path, d, 0);
    assert d.subdirs[0..] == d.subdirs;
  }

  lemma {:induction false} ScanSubdirsAccount(isHidden: string -> bool, path: string, d: Dir, from: nat)
    requires NameBased(isHidden) && WellNamed(d) && from <= |d.subdirs|
    ensures |WalkSubdirs(isHidden, path, d.subdirs[from..])| + HiddenDirs(isHidden, path, d.subdirs[from..]) + SkippedSubdirs(isHidden, path, d.subdirs[from..])
            == HiddenNamedDirs(d.subdirs[from..]) + MetSubdirs(d.subdirs[from..])
    decreases d, 0, |d.subdirs| - from
  {
    if from < |d.subdirs| {
      var ds := d.subdirs[from..];
      var s := d.subdirs[from];
      assert ds[1..] == d.subdirs[from + 1..];
      assert isHidden(Join(path, s.name)) <==> HiddenName(s.name);
      ScanSubdirsAccount(isHidden, path, d, from + 1);
      if !HiddenName(s.name) {
        ScanAccounts(isHidden, Join(path, s.name), s);
      }
    }
  }
}
