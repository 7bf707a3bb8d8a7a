/**
 * Phases 2 and 3 on the filesystem side: creating a category folder, the collision-safe
 * move of one file, and the bottom-up sweep that removes folders left empty. The filesystem
 * is a set of file paths and a set of directory paths; `os.path.exists` is membership and a
 * move takes one path out of `files` and puts another in.
 */
module Relocator {
  import opened Wrappers
  import opened PathText

  // ---------------------------------------------------------------------------
  // Collision-safe naming (FileSorter.py:236-247)
  // ---------------------------------------------------------------------------

  function DigitChar(d: nat): char
    requires d < 10
  {
    ('0' as int + d) as char
  }

  /** How an f-string prints a natural number. */
  function Decimal(n: nat): string {
    if n < 10 then [DigitChar(n)] else Decimal(n / 10) + [DigitChar(n % 10)]
  }

  /** The `k`-th probe of the collision loop: `f"{stem}_{k}{ext}"`. */
  function Candidate(stem: string, ext: string, k: nat): string {
    stem + "_" + Decimal(k) + ext
  }

  lemma {:induction false} DecimalLength(n: nat)
    ensures |Decimal(n)| >= 1
    ensures |Decimal(n)| == 1 <==> n < 10
  {
    if n >= 10 {
      DecimalLength(n / 10);
    }
  }

  /** Different numbers print differently. */
  lemma {:induction false} DecimalInjective(a: nat, b: nat)
    requires Decimal(a) == Decimal(b)
    ensures a == b
  {
    DecimalLength(a);
    DecimalLength(b);
    if a >= 10 && b >= 10 {
      var da, db := Decimal(a), Decimal(b);
      assert da[|da| - 1] == db[|db| - 1];
      assert Decimal(a / 10) == da[..|da| - 1] == db[..|db| - 1] == Decimal(b / 10);
      DecimalInjective(a / 10, b / 10);
    }
  }

  /** Different probe numbers give different names, so the probe never repeats itself. */
  lemma CandidateInjective(stem: string, ext: string, a: nat, b: nat)
    requires Candidate(stem, ext, a) == Candidate(stem, ext, b)
    ensures a == b
  {
    var ca, cb := Candidate(stem, ext, a), Candidate(stem, ext, b);
    var lo := |stem| + 1;
    assert |Decimal(a)| == |Decimal(b)|;
    assert ca[lo..lo + |Decimal(a)|] == Decimal(a);
    assert cb[lo..lo + |Decimal(b)|] == Decimal(b);
    DecimalInjective(a, b);
  }

  /** The names the probe has tried before reaching number `n`. */
  function Probed(stem: string, ext: string, n: nat): set<string> {
    if n <= 1 then {} else Probed(stem, ext, n - 1) + {Candidate(stem, ext, n - 1)}
  }

  lemma {:induction false} NotYetProbed(stem: string, ext: string, n: nat, m: nat)
    requires n <= m
    ensures Candidate(stem, ext, m) !in Probed(stem, ext, n)
  {
    if n > 1 {
      NotYetProbed(stem, ext, n - 1, m);
      if Candidate(stem, ext, n - 1) == Candidate(stem, ext, m) {
        CandidateInjective(stem, ext, n - 1, m);
      }
    }
  }

  /** The first probe number whose candidate is free. */
  method FirstFreeNumber(occupied: set<string>, stem: string, ext: string) returns (count: nat)
    ensures 1 <= count
    ensures Candidate(stem, ext, count) !in occupied
    ensures forall j :: 1 <= j < count ==> Candidate(stem, ext, j) in occupied
  {
    count := 1;
    while Candidate(stem, ext, count) in occupied
      invariant 1 <= count
      invariant forall j :: 1 <= j < count ==> Candidate(stem, ext, j) in occupied
      invariant Probed(stem, ext, count) <= occupied
      decreases |occupied - Probed(stem, ext, count)|
    {
      var candidate := Candidate(stem, ext, count);
      NotYetProbed(stem, ext, count, count);
      assert occupied - Probed(stem, ext, count + 1) < occupied - Probed(stem, ext, count) by {
        assert candidate in occupied - Probed(stem, ext, count);
        assert candidate !in occupied - Probed(stem, ext, count + 1);
      }
      count := count + 1;
    }
  }

  /**
   * The name a file gets in a folder already holding `occupied`: its own name when that is
   * free, otherwise the first free `stem_k + ext` for k = 1, 2, ..., where stem and ext come
   * from splitext. The probe ends because `occupied` is finite.
   */
  method ResolveCollision(occupied: set<string>, name: string) returns (chosen: string)
    ensures chosen !in occupied
    ensures name !in occupied ==> chosen == name
    ensures name in occupied ==>
              exists k :: 1 <= k && chosen == Candidate(SplitExt(name).0, SplitExt(name).1, k) &&
                          forall j :: 1 <= j < k ==> Candidate(SplitExt(name).0, SplitExt(name).1, j) in occupied
  {
    if name !in occupied {
      return name;
    }
    var stem, ext := SplitExt(name).0, SplitExt(name).1;
    var count := FirstFreeNumber(occupied, stem, ext);
    chosen := Candidate(stem, ext, count);
  }

  /**
   * Where a file named `name` lands in `folder` when `entries` exist (FileSorter.py:229-247):
   * at `folder/name` when that path is free, otherwise at `folder/stem_k + ext` for the least
   * k >= 1 whose path is free.
   */
  ghost predicate LandsAt(entries: set<string>, folder: string, name: string, dest: string) {
    var stem, ext := SplitExt(name).0, SplitExt(name).1;
    if Join(folder, name) !in entries then dest == Join(folder, name)
    else exists k :: 1 <= k && dest == Join(folder, Candidate(stem, ext, k)) && dest !in entries &&
                     forall j :: 1 <= j < k ==> Join(folder, Candidate(stem, ext, j)) in entries
  }

  /** The probe is deterministic: there is only one place a file can land. */
  lemma LandsAtUnique(entries: set<string>, folder: string, name: string, d1: string, d2: string)
    requires LandsAt(entries, folder, name, d1) && LandsAt(entries, folder, name, d2)
    ensures d1 == d2
  {
    var stem, ext := SplitExt(name).0, SplitExt(name).1;
    if Join(folder, name) in entries {
      var k1: nat :| 1 <= k1 && d1 == Join(folder, Candidate(stem, ext, k1)) && d1 !in entries &&
                forall j :: 1 <= j < k1 ==> Join(folder, Candidate(stem, ext, j)) in entries;
      var k2: nat :| 1 <= k2 && d2 == Join(folder, Candidate(stem, ext, k2)) && d2 !in entries &&
                forall j :: 1 <= j < k2 ==> Join(folder, Candidate(stem, ext, j)) in entries;
      // A smaller number on either side would name an occupied path that the other side says is free.
      assert k1 < k2 ==> Join(folder, Candidate(stem, ext, k1)) in entries;
      assert k2 < k1 ==> Join(folder, Candidate(stem, ext, k2)) in entries;
    }
  }

  /**
   * `a.txt` taken gives `a_1.txt`; `a.txt` and `a_1.txt` taken give `a_2.txt` (splitext
   * cuts `a.txt` into `a` and `.txt`, see `SplitExtOfTxt`).
   */
  method CollisionExamples() returns (first: string, second: string)
    ensures first == "a_1.txt" && second == "a_2.txt"
  {
    var one, two := Candidate("a", ".txt", 1), Candidate("a", ".txt", 2);
    assert one == "a_1.txt" && two == "a_2.txt";
    var k := FirstFreeNumber({"a.txt"}, "a", ".txt");
    assert k == 1 by {
      assert one !in {"a.txt"};
    }
    first := Candidate("a", ".txt", k);
    var m := FirstFreeNumber({"a.txt", "a_1.txt"}, "a", ".txt");
    assert m == 2 by {
      assert one in {"a.txt", "a_1.txt"};
      assert two !in {"a.txt", "a_1.txt"};
    }
    second := Candidate("a", ".txt", m);
  }

  // ---------------------------------------------------------------------------
  // The filesystem
  // ---------------------------------------------------------------------------

  /** `e` sits directly inside the directory `d`. */
  predicate IsChild(e: string, d: string) {
    e != d && Join(d, BaseName(e)) == e
  }

  /** `os.listdir(d)` over the given entries. */
  function ListingOf(entries: set<string>, d: string): set<string> {
    set e | e in entries && IsChild(e, d) :: BaseName(e)
  }

  /** A name is listed in a folder exactly when the joined path exists. */
  lemma ListingIff(entries: set<string>, d: string, n: string)
    requires n != [] && Sep !in n
    ensures n in ListingOf(entries, d) <==> Join(d, n) in entries
  {
    BaseNameOfJoin(d, n);
    if Join(d, n) in entries {
      assert |Join(d, n)| > |d|;
      assert Join(d, n) in entries && IsChild(Join(d, n), d);
    }
  }

  /** The organize root and the `root/name` folders of the categories used in this run (FileSorter.py:270-275). */
  function ProtectedFolders(root: string, used: set<string>): set<string> {
    {root} + set n | n in used :: Join(root, n)
  }

  /** `os.listdir(d)` succeeds and is empty. */
  predicate EmptyDir(files: set<string>, dirs: set<string>, d: string) {
    d in dirs && forall e :: e in files + dirs ==> !IsChild(e, d)
  }

  /** One visit of the bottom-up sweep: remove `d` when it is not protected and empty now. */
  function SweepStep(files: set<string>, dirs: set<string>, d: string, keep: set<string>): (r: (set<string>, nat))
    ensures r.0 <= dirs
  {
    if d !in keep && EmptyDir(files, dirs, d) then (dirs - {d}, 1) else (dirs, 0)
  }

  /** The directories left and the number deleted after visiting `order` (FileSorter.py:273-284). */
  function Sweep(files: set<string>, dirs: set<string>, order: seq<string>, keep: set<string>): (r: (set<string>, nat))
    ensures r.0 <= dirs
  {
    if order == [] then (dirs, 0)
    else
      var before := Sweep(files, dirs, order[..|order| - 1], keep);
      var after := SweepStep(files, before.0, order[|order| - 1], keep);
      (after.0, before.1 + after.1)
  }

  /** The reported count is the number of directories the sweep removed. */
  lemma {:induction false} SweepCounts(files: set<string>, dirs: set<string>, order: seq<string>, keep: set<string>)
    ensures var r := Sweep(files, dirs, order, keep);
            r.1 == |dirs - r.0|
  {
    if order != [] {
      var init := order[..|order| - 1];
      SweepCounts(files, dirs, init, keep);
      var before := Sweep(files, dirs, init, keep).0;
      var after := Sweep(files, dirs, order, keep).0;
      assert dirs - after == (dirs - before) + (before - after);
    }
  }

  class FileSystem {
    var files: set<string>
    var dirs: set<string>

    constructor (files0: set<string>, dirs0: set<string>)
      ensures files == files0 && dirs == dirs0
    {
      files, dirs := files0, dirs0;
    }

    /** `os.path.exists(p)`. */
    predicate Exists(p: string)
      reads this
    {
      p in files || p in dirs
    }

    /** `os.listdir(d)`. */
    function Listing(d: string): set<string>
      reads this
    {
      ListingOf(files + dirs, d)
    }

    /** Every file has a non-empty name: no file path ends with a separator. */
    predicate Valid()
      reads this
    {
      forall f :: f in files ==> BaseName(f) != []
    }

    /**
     * `create_folder_if_not_exists_gui` (FileSorter.py:213-222): `os.makedirs(.., exist_ok=True)`
     * succeeds when the folder exists or can be made, and fails when a file holds its path.
     */
    method EnsureFolder(parent: string, name: string) returns (folder: Option<string>)
      modifies this
      ensures files == old(files)
      ensures Join(parent, name) in old(files) ==> folder == None && dirs == old(dirs)
      ensures Join(parent, name) !in old(files) ==>
                folder == Some(Join(parent, name)) && dirs == old(dirs) + {Join(parent, name)}
    {
      var p := Join(parent, name);
      if p in files {
        return None;
      }
      dirs := dirs + {p};
      return Some(p);
    }

    /**
     * `move_file_to_folder_gui` (FileSorter.py:225-262). A file already at its place is left
     * alone and reported as moved. Otherwise the destination name is made collision-free and
     * the file moves there, which fails when the source is gone or the folder is missing.
     * `dest` is the final destination the source logs.
     */
    method MoveFile(src: string, targetRoot: string, category: string) returns (moved: bool, dest: string)
      requires Valid()
      modifies this`files
      ensures Valid()
      ensures var folder := Join(targetRoot, category);
              if DirName(src) == folder && src == Join(folder, BaseName(src)) then
                moved && dest == src && files == old(files)
              else
                (moved ==>
                   src in old(files) && dest !in old(files) && dest !in old(dirs) &&
                   dest == Join(folder, BaseName(dest)) &&
                   files == old(files) - {src} + {dest}) &&
                (!moved ==> files == old(files)) &&
                (BaseName(src) != [] ==> LandsAt(old(files) + old(dirs), folder, BaseName(src), dest))
      ensures src in old(files) && Join(targetRoot, category) in old(dirs) ==> moved
      ensures |files| == |old(files)|
    {
      var name := BaseName(src);
      var folder := Join(targetRoot, category);
      dest := Join(folder, name);
      if DirName(src) == folder && src == dest {
        return true, dest;
      }
      moved, dest := MoveInto(src, folder, name);
    }

    /** The move proper (FileSorter.py:236-258): pick a free name in `folder`, then move if the source and the folder exist. */
    method MoveInto(src: string, folder: string, name: string) returns (moved: bool, dest: string)
      requires Valid() && name == BaseName(src)
      modifies this`files
      ensures Valid()
      ensures moved ==>
                src in old(files) && dest !in old(files) && dest !in old(dirs) &&
                dest == Join(folder, BaseName(dest)) &&
                files == old(files) - {src} + {dest}
      ensures !moved ==> files == old(files)
      ensures src in old(files) && folder in old(dirs) ==> moved
      ensures name != [] ==> LandsAt(old(files) + old(dirs), folder, name, dest)
      ensures |files| == |old(files)|
    {
      dest := Join(folder, name);
      var chosen := name;
      if Exists(dest) {
        chosen := ResolveCollision(Listing(folder), name);
        dest := Join(folder, chosen);
        if name != [] {
          BaseNameHasNoSep(src);
          ListingIff(files + dirs, folder, name);
          ProbeLands(files + dirs, folder, name, chosen);
        }
      }
      if src in files && folder in dirs {
        MoveLands(files, dirs, src, folder, chosen);
        files := files - {src} + {dest};
        return true, dest;
      }
      return false, dest;
    }

    /**
     * `delete_empty_folders_recursively` (FileSorter.py:265-284): visit the directories in
     * `walkOrder` (what `os.walk(.., topdown=False)` yields) and remove each one that is
     * neither protected nor non-empty at the moment it is visited.
     */
    method PruneEmpty(walkOrder: seq<string>, mainRoot: string, used: set<string>) returns (deleted: nat)
      modifies this
      ensures files == old(files)
      ensures (dirs, deleted) == Sweep(old(files), old(dirs), walkOrder, ProtectedFolders(mainRoot, used))
    {
      var keep := ProtectedFolders(mainRoot, used);
      deleted := RemoveEmptyDirs(walkOrder, keep);
    }

    /** The `os.walk(.., topdown=False)` loop of FileSorter.py:276-284 with the protected paths given. */
    method RemoveEmptyDirs(walkOrder: seq<string>, keep: set<string>) returns (deleted: nat)
      modifies this
      ensures files == old(files)
      ensures (dirs, deleted) == Sweep(old(files), old(dirs), walkOrder, keep)
    {
      deleted := 0;
      var i := 0;
      while i < |walkOrder|
        invariant 0 <= i <= |walkOrder|
        invariant files == old(files)
        invariant (dirs, deleted) == Sweep(old(files), old(dirs), walkOrder[..i], keep)
      {
        SweepSnoc(old(files), old(dirs), walkOrder, i, keep);
        var dirpath := walkOrder[i];
        if dirpath !in keep && EmptyDir(files, dirs, dirpath) {
          dirs := dirs - {dirpath};
          deleted := deleted + 1;
        }
        i := i + 1;
      }
      assert walkOrder[..i] == walkOrder;
    }
  }

  lemma BaseNameHasNoSep(p: string)
    ensures Sep !in BaseName(p)
  {
    var i := LastIndexOf(p, Sep);
    assert forall k :: 0 <= k < |BaseName(p)| ==> BaseName(p)[k] == p[i + 1 + k];
  }

  /**
   * The name the probe picks lands on a fresh path in `folder` whose base name is that name,
   * so moving the file there keeps every file named and the number of files unchanged.
   */
  lemma MoveLands(files: set<string>, dirs: set<string>, src: string, folder: string, chosen: string)
    requires forall f :: f in files ==> BaseName(f) != []
    requires src in files
    requires chosen == BaseName(src) || exists k :: 1 <= k && chosen == Candidate(SplitExt(BaseName(src)).0, SplitExt(BaseName(src)).1, k)
    requires (chosen == BaseName(src) && Join(folder, chosen) !in files + dirs) || chosen !in ListingOf(files + dirs, folder)
    ensures var dest := Join(folder, chosen);
            dest !in files && dest !in dirs && dest == Join(folder, BaseName(dest)) &&
            (forall f :: f in files - {src} + {dest} ==> BaseName(f) != []) &&
            |files - {src} + {dest}| == |files|
  {
    var dest := Join(folder, chosen);
    BaseNameHasNoSep(src);
    ProbeNameShape(BaseName(src), chosen);
    LandsFree(files + dirs, folder, chosen);
    SwapKeepsSize(files, src, dest);
  }

  /** A free, well-formed name joined onto a folder is a fresh path whose base name is that name. */
  lemma LandsFree(entries: set<string>, folder: string, chosen: string)
    requires chosen != [] && Sep !in chosen
    ensures chosen !in ListingOf(entries, folder) <==> Join(folder, chosen) !in entries
    ensures BaseName(Join(folder, chosen)) == chosen
  {
    ListingIff(entries, folder, chosen);
    BaseNameOfJoin(folder, chosen);
  }

  lemma SwapKeepsSize(s: set<string>, a: string, b: string)
    requires a in s && b !in s
    ensures |s - {a} + {b}| == |s|
  {
    assert |s - {a}| == |s| - 1;
  }

  lemma {:induction false} DecimalDigits(n: nat)
    ensures forall k :: 0 <= k < |Decimal(n)| ==> '0' <= Decimal(n)[k] <= '9'
  {
    if n >= 10 {
      DecimalDigits(n / 10);
    }
  }

  /** Whatever the probe picks is a non-empty name without separators, like the name it started from. */
  lemma ProbeNameShape(name: string, chosen: string)
    requires name != [] && Sep !in name
    requires chosen == name || exists k :: 1 <= k && chosen == Candidate(SplitExt(name).0, SplitExt(name).1, k)
    ensures chosen != [] && Sep !in chosen
  {
    if chosen != name {
      var k :| 1 <= k && chosen == Candidate(SplitExt(name).0, SplitExt(name).1, k);
      var stem, ext := SplitExt(name).0, SplitExt(name).1;
      assert Sep !in stem && Sep !in ext by {
        assert forall i :: 0 <= i < |stem| ==> stem[i] == name[i];
        assert forall i :: 0 <= i < |ext| ==> ext[i] == name[|stem| + i];
      }
      DecimalDigits(k);
      assert Sep !in Decimal(k);
      assert chosen == stem + "_" + Decimal(k) + ext;
    }
  }

  /** What `ResolveCollision` picks among the listed names is where `LandsAt` puts the file. */
  lemma ProbeLands(entries: set<string>, folder: string, name: string, chosen: string)
    requires name != [] && Sep !in name && Join(folder, name) in entries
    requires chosen !in ListingOf(entries, folder)
    requires exists k :: 1 <= k && chosen == Candidate(SplitExt(name).0, SplitExt(name).1, k) &&
                         forall j :: 1 <= j < k ==> Candidate(SplitExt(name).0, SplitExt(name).1, j) in ListingOf(entries, folder)
    ensures LandsAt(entries, folder, name, Join(folder, chosen))
  {
    var stem, ext := SplitExt(name).0, SplitExt(name).1;
    var k :| 1 <= k && chosen == Candidate(stem, ext, k) &&
             forall j :: 1 <= j < k ==> Candidate(stem, ext, j) in ListingOf(entries, folder);
    ProbeNameShape(name, chosen);
    ListingIff(entries, folder, chosen);
    forall j | 1 <= j < k
      ensures Join(folder, Candidate(stem, ext, j)) in entries
    {
      ProbeNameShape(name, Candidate(stem, ext, j));
      ListingIff(entries, folder, Candidate(stem, ext, j));
    }
  }

  // ---------------------------------------------------------------------------
  // What the sweep promises
  // ---------------------------------------------------------------------------

  /** Visiting one more directory removes it exactly when it is unprotected and empty at that moment. */
  lemma SweepSnoc(files: set<string>, dirs: set<string>, order: seq<string>, i: nat, keep: set<string>)
    requires i < |order|
    ensures var before := Sweep(files, dirs, order[..i], keep);
            var d := order[i];
            Sweep(files, dirs, order[..i + 1], keep) ==
              if d !in keep && EmptyDir(files, before.0, d) then (before.0 - {d}, before.1 + 1) else before
  {
    assert order[..i + 1][..i] == order[..i];
  }

  lemma {:induction false} SweepPrefix(files: set<string>, dirs: set<string>, order: seq<string>, i: nat, keep: set<string>)
    requires i <= |order|
    ensures Sweep(files, dirs, order, keep).0 <= Sweep(files, dirs, order[..i], keep).0
    decreases |order|
  {
    if i < |order| {
      assert order[..|order| - 1][..i] == order[..i];
      SweepPrefix(files, dirs, order[..|order| - 1], i, keep);
    } else {
      assert order[..i] == order;
    }
  }

  /** The organize root and every used category folder survive the sweep, even when empty. */
  lemma {:induction false} SweepKeepsProtected(files: set<string>, dirs: set<string>, order: seq<string>, root: string, used: set<string>)
    ensures var left := Sweep(files, dirs, order, ProtectedFolders(root, used)).0;
            (root in dirs ==> root in left) &&
            forall n :: n in used && Join(root, n) in dirs ==> Join(root, n) in left
  {
    if order != [] {
      SweepKeepsProtected(files, dirs, order[..|order| - 1], root, used);
    }
  }

  /** A directory is only ever removed when nothing is left inside it, so no entry is orphaned. */
  lemma {:induction false} SweepLeavesNoOrphans(files: set<string>, dirs: set<string>, order: seq<string>, keep: set<string>)
    ensures var left := Sweep(files, dirs, order, keep).0;
            forall d, e :: d in dirs && d !in left && e in files + left ==> !IsChild(e, d)
  {
    if order != [] {
      var init := order[..|order| - 1];
      SweepLeavesNoOrphans(files, dirs, init, keep);
    }
  }

  /**
   * Children before parents: a directory visited after every sub-directory it had was
   * removed, holding no file, and not protected, is itself removed in the same sweep.
   */
  lemma SweepRemovesEmptiedParent(files: set<string>, dirs: set<string>, pre: seq<string>, d: string, post: seq<string>, keep: set<string>)
    requires d in dirs && d !in keep
    requires forall f :: f in files ==> !IsChild(f, d)
    requires forall c :: c in dirs && IsChild(c, d) ==> c !in Sweep(files, dirs, pre, keep).0
    requires d in Sweep(files, dirs, pre, keep).0
    ensures d !in Sweep(files, dirs, pre + [d] + post, keep).0
  {
    var order := pre + [d] + post;
    assert order[..|pre| + 1] == pre + [d];
    assert (pre + [d])[..|pre|] == pre;
    var mid := Sweep(files, dirs, pre + [d], keep).0;
    assert d !in mid;
    SweepPrefix(files, dirs, order, |pre| + 1, keep);
  }

  /**
   * The order `os.walk(.., topdown=False)` visits directories in (FileSorter.py:273): every
   * sub-directory of a visited directory is visited before it.
   */
  ghost predicate ChildrenFirst(order: seq<string>, dirs: set<string>) {
    forall i, c :: 0 <= i < |order| && c in dirs && IsChild(c, order[i]) ==>
      exists j :: 0 <= j < i && order[j] == c
  }

  /** A set of directories that holds no file and contains every sub-directory of its members. */
  ghost predicate EmptyTree(files: set<string>, dirs: set<string>, tree: set<string>) {
    (forall d, e :: d in tree && e in files ==> !IsChild(e, d)) &&
    (forall d, e :: d in tree && e in dirs && IsChild(e, d) ==> e in tree)
  }

  /** After the first `i` visits, every member of the empty tree visited so far is gone. */
  lemma {:induction false} SweepClearsPrefix(files: set<string>, dirs: set<string>, order: seq<string>,
                                             keep: set<string>, tree: set<string>, i: nat)
    requires ChildrenFirst(order, dirs) && EmptyTree(files, dirs, tree) && tree !! keep
    requires i <= |order|
    ensures forall j :: 0 <= j < i && order[j] in tree ==> order[j] !in Sweep(files, dirs, order[..i], keep).0
  {
    if i > 0 {
      SweepClearsPrefix(files, dirs, order, keep, tree, i - 1);
      SweepSnoc(files, dirs, order, i - 1, keep);
      var before := Sweep(files, dirs, order[..i - 1], keep).0;
      var d := order[i - 1];
      if d in tree {
        // Each sub-directory still present was visited earlier, so the sweep has removed it already.
        assert forall e :: e in before && IsChild(e, d) ==> e in dirs && e in tree;
      }
    }
  }

  /**
   * In the children-first order, an unprotected set of directories holding no file and closed
   * under sub-directories is removed entirely in one pass: a chain of folders that only held
   * each other disappears, not just its innermost member.
   */
  lemma SweepClearsEmptyTree(files: set<string>, dirs: set<string>, order: seq<string>,
                             keep: set<string>, tree: set<string>)
    requires ChildrenFirst(order, dirs) && EmptyTree(files, dirs, tree) && tree !! keep
    requires forall d :: d in tree ==> d in order
    ensures tree !! Sweep(files, dirs, order, keep).0
  {
    SweepClearsPrefix(files, dirs, order, keep, tree, |order|);
    assert order[..|order|] == order;
    forall d | d in tree
      ensures d !in Sweep(files, dirs, order, keep).0
    {
      var j :| 0 <= j < |order| && order[j] == d;
    }
  }
}
