/**
 * One organize run (FileSorter.py:535-631): refuse an invalid or protected target, scan
 * it, send each scanned file to the folder of the first category owning its extension key,
 * and finally sweep away the folders the moves left empty.
 */
module Organizer {
  import opened Wrappers
  import opened PathText
  import opened Categories
  import opened Scanner
  import opened Relocator

  /** The label the folder field shows before anything is chosen. */
  const NoFolderSelected: string := "No Folder Selected"

  // ---------------------------------------------------------------------------
  // The protected-root refusal (FileSorter.py:543-549)
  // ---------------------------------------------------------------------------

  /** Some forbidden path is `target` itself or lies above it. */
  ghost predicate Covered(target: string, forbidden: seq<string>) {
    exists i :: 0 <= i < |forbidden| && UnderRoot(target, forbidden[i])
  }

  /** The first forbidden path that `target` equals or lies beneath, if any. */
  method FindProtectingRoot(target: string, forbidden: seq<string>) returns (r: Option<string>)
    ensures r.None? <==> !Covered(target, forbidden)
    ensures r.Some? ==>
              exists i :: 0 <= i < |forbidden| && forbidden[i] == r.value && UnderRoot(target, r.value) &&
                          forall j :: 0 <= j < i ==> !UnderRoot(target, forbidden[j])
  {
    var i := 0;
    while i < |forbidden|
      invariant 0 <= i <= |forbidden|
      invariant forall j :: 0 <= j < i ==> !UnderRoot(target, forbidden[j])
    {
      if UnderRoot(target, forbidden[i]) {
        return Some(forbidden[i]);
      }
      i := i + 1;
    }
    return None;
  }

  // ---------------------------------------------------------------------------
  // Phase 2: what happens to one scanned file (FileSorter.py:569-623)
  // ---------------------------------------------------------------------------

  /** The decision phase 2 takes for one path before touching the filesystem. */
  datatype Plan =
    | Unclassified(key: string)
    | AlreadyPlaced(category: string)
    | Relocate(category: string)

  /**
   * No category owns the key (or the owner's name is empty, which Python treats as no
   * owner): skip. The file's folder is the category folder already: leave it. Otherwise
   * move it.
   */
  function PlanFor(t: Table, target: string, path: string): (r: Plan)
    ensures r.Unclassified? ==> r.key == ExtensionKey(BaseName(path))
    ensures !r.Unclassified? ==> r.category != [] && FirstMatch(t, ExtensionKey(BaseName(path))) == Some(r.category)
    ensures r.AlreadyPlaced? ==> DirName(path) == Join(target, r.category)
    ensures r.Relocate? ==> DirName(path) != Join(target, r.category)
    ensures (FirstMatch(t, ExtensionKey(BaseName(path))).Some? &&
             FirstMatch(t, ExtensionKey(BaseName(path))).value != []) ==> !r.Unclassified?
  {
    var key := ExtensionKey(BaseName(path));
    match FirstMatch(t, key)
    case None => Unclassified(key)
    case Some(c) =>
      if c == [] then Unclassified(key)
      else if DirName(path) == Join(target, c) then AlreadyPlaced(c)
      else Relocate(c)
  }

  /** What phase 2 did with one file, as the status log reports it. */
  datatype Event =
    | NotCategorized(key: string)
    | InPlace(category: string)
    | FolderRefused(category: string)
    | MovedTo(category: string, dest: string)
    | MoveFailed(category: string)

  /** The event carries out the plan: only a relocation can touch the filesystem, and only into its own category. */
  predicate Follows(e: Event, p: Plan) {
    match p
    case Unclassified(k) => e == NotCategorized(k)
    case AlreadyPlaced(c) => e == InPlace(c)
    case Relocate(c) => e == FolderRefused(c) || e == MoveFailed(c) || (e.MovedTo? && e.category == c)
  }

  /** The categories a sequence of plans sends files to. */
  function Destinations(plans: seq<Plan>): set<string> {
    if plans == [] then {}
    else
      var last := plans[|plans| - 1];
      Destinations(plans[..|plans| - 1]) + if last.Relocate? then {last.category} else {}
  }

  /** A category is a destination exactly when some plan relocates into it. */
  lemma {:induction false} DestinationsIff(plans: seq<Plan>, c: string)
    ensures c in Destinations(plans) <==> exists i :: 0 <= i < |plans| && plans[i] == Relocate(c)
  {
    if plans != [] {
      var init := plans[..|plans| - 1];
      DestinationsIff(init, c);
      if exists i :: 0 <= i < |init| && init[i] == Relocate(c) {
        var i :| 0 <= i < |init| && init[i] == Relocate(c);
        assert plans[i] == init[i];
      }
      if exists i :: 0 <= i < |plans| && plans[i] == Relocate(c) {
        var i :| 0 <= i < |plans| && plans[i] == Relocate(c);
        if i < |init| {
          assert init[i] == plans[i];
        }
      }
    }
  }

  /** The plans for a sequence of scanned paths, in scan order. */
  function Plans(t: Table, target: string, paths: seq<string>): (r: seq<Plan>)
    ensures |r| == |paths|
  {
    seq(|paths|, i requires 0 <= i < |paths| => PlanFor(t, target, paths[i]))
  }

  /** Each event carries out the plan at the same position. */
  predicate AllFollow(events: seq<Event>, plans: seq<Plan>) {
    |events| == |plans| &&
    (events == [] ||
     (AllFollow(events[..|events| - 1], plans[..|plans| - 1]) && Follows(events[|events| - 1], plans[|plans| - 1])))
  }

  lemma {:induction false} AllFollowAt(events: seq<Event>, plans: seq<Plan>, i: int)
    requires AllFollow(events, plans) && 0 <= i < |events|
    ensures Follows(events[i], plans[i])
  {
    if i < |events| - 1 {
      AllFollowAt(events[..|events| - 1], plans[..|plans| - 1], i);
    }
  }

  /** `actual_created_category_folder_names`: the categories some file was sent to. */
  function Used(t: Table, target: string, paths: seq<string>): set<string> {
    Destinations(Plans(t, target, paths))
  }

  /** A category is used exactly when some scanned file is planned to move into it. */
  lemma UsedIff(t: Table, target: string, paths: seq<string>, c: string)
    ensures c in Used(t, target, paths) <==>
              exists i :: 0 <= i < |paths| && PlanFor(t, target, paths[i]) == Relocate(c)
  {
    var plans := Plans(t, target, paths);
    DestinationsIff(plans, c);
    assert forall i :: 0 <= i < |paths| ==> plans[i] == PlanFor(t, target, paths[i]);
  }

  /**
   * A file already sitting in the folder of the category that owns it stays put: a second
   * run leaves organized files where the first one put them.
   */
  lemma OrganizedFileStays(t: Table, target: string, c: string, n: string)
    requires Normalized(Join(target, c)) && n != [] && Sep !in n
    requires c != [] && FirstMatch(t, ExtensionKey(n)) == Some(c)
    ensures PlanFor(t, target, Join(Join(target, c), n)) == AlreadyPlaced(c)
  {
    BaseNameOfJoin(Join(target, c), n);
    DirNameOfJoin(Join(target, c), n);
  }

  /** `p` has been moved into the folder of one of the `used` categories. */
  predicate InCategoryFolder(p: string, target: string, used: set<string>) {
    exists c :: c in used && p == Join(Join(target, c), BaseName(p))
  }

  /**
   * Everything phase 2 added to the filesystem belongs to a used category: each new
   * directory is a category folder and each new file sits directly inside one.
   */
  predicate Placed(files0: set<string>, files: set<string>, dirs0: set<string>, dirs: set<string>,
                   target: string, used: set<string>)
  {
    (forall d :: d in dirs && d !in dirs0 ==> exists c :: c in used && d == Join(target, c)) &&
    (forall p :: p in files && p !in files0 ==> InCategoryFolder(p, target, used))
  }

  /** `Placed` survives one more file, once the file's category joins the used set. */
  lemma PlacedStep(files0: set<string>, filesA: set<string>, filesB: set<string>,
                   dirs0: set<string>, dirsA: set<string>, dirsB: set<string>,
                   target: string, used: set<string>, event: Event)
    requires Placed(files0, filesA, dirs0, dirsA, target, used)
    requires event.NotCategorized? || event.InPlace? ==> filesB == filesA && dirsB == dirsA
    requires !event.NotCategorized? && !event.InPlace? ==>
               dirsB <= dirsA + {Join(target, event.category)} &&
               forall p :: p in filesB && p !in filesA ==> p == Join(Join(target, event.category), BaseName(p))
    ensures Placed(files0, filesB, dirs0, dirsB, target,
                   if !event.NotCategorized? && !event.InPlace? then used + {event.category} else used)
  {
    var used' := if !event.NotCategorized? && !event.InPlace? then used + {event.category} else used;
    forall p | p in filesB && p !in files0 ensures InCategoryFolder(p, target, used') {
      if p in filesA {
        var c :| c in used && p == Join(Join(target, c), BaseName(p));
        assert c in used';
      } else {
        assert p == Join(Join(target, event.category), BaseName(p));
      }
    }
  }

  /**
   * What handling one file did to the files, which were `files0` before and are `files` after,
   * with `dirs` the directories when the move was made. A relocation is refused exactly when
   * a file occupies the category folder's path (FileSorter.py:615-617), and it moves an existing
   * file whenever the folder can be made. A move takes the file away from its path and puts it
   * where the collision probe says (FileSorter.py:236-254). Every other outcome leaves the
   * files as they were.
   */
  ghost predicate Carried(files0: set<string>, files: set<string>, dirs: set<string>,
                          target: string, path: string, plan: Plan, event: Event) {
    (plan.Relocate? ==>
       (event == FolderRefused(plan.category) <==> Join(target, plan.category) in files0) &&
       (path in files0 && Join(target, plan.category) !in files0 ==> event.MovedTo?)) &&
    (event.MovedTo? ==>
       path in files0 && event.dest !in files0 && files == files0 - {path} + {event.dest} &&
       event.dest == Join(Join(target, event.category), BaseName(event.dest)) &&
       LandsAt(files0 + dirs, Join(target, event.category), BaseName(path), event.dest)) &&
    (!event.MovedTo? ==> files == files0)
  }

  /** Phase 2 for one scanned file (the body of the loop at FileSorter.py:569-623). */
  method ProcessOne(fs: FileSystem, table: CategoryTable, target: string, path: string) returns (event: Event)
    requires fs.Valid()
    modifies fs
    ensures fs.Valid()
    ensures Follows(event, PlanFor(table.entries, target, path))
    ensures old(fs.dirs) <= fs.dirs
    ensures |fs.files| == |old(fs.files)|
    ensures event.NotCategorized? || event.InPlace? ==> fs.files == old(fs.files) && fs.dirs == old(fs.dirs)
    ensures !event.NotCategorized? && !event.InPlace? ==>
              fs.dirs <= old(fs.dirs) + {Join(target, event.category)} &&
              forall p :: p in fs.files && p !in old(fs.files) ==>
                p == Join(Join(target, event.category), BaseName(p))
    ensures Carried(old(fs.files), fs.files, fs.dirs, target, path, PlanFor(table.entries, target, path), event)
  {
    ghost var plan := PlanFor(table.entries, target, path);
    var key := ExtensionKey(BaseName(path));
    var category := table.Classify(key);
    if category.None? || category.value == [] {
      assert plan == Unclassified(key);
      event := NotCategorized(key);
    } else if DirName(path) == Join(target, category.value) {
      assert plan == AlreadyPlaced(category.value);
      event := InPlace(category.value);
    } else {
      var c := category.value;
      assert plan == Relocate(c);
      event := RelocateFile(fs, target, c, path);
    }
  }

  /**
   * A file planned to move into category `c`, that is one not already in that folder
   * (FileSorter.py:601): make the folder, then move the file into it (FileSorter.py:608-620).
   */
  method RelocateFile(fs: FileSystem, target: string, c: string, path: string) returns (event: Event)
    requires fs.Valid() && DirName(path) != Join(target, c)
    modifies fs
    ensures fs.Valid()
    ensures event == FolderRefused(c) || event == MoveFailed(c) || (event.MovedTo? && event.category == c)
    ensures old(fs.dirs) <= fs.dirs <= old(fs.dirs) + {Join(target, c)}
    ensures |fs.files| == |old(fs.files)|
    ensures event != FolderRefused(c) ==> fs.dirs == old(fs.dirs) + {Join(target, c)}
    ensures event == FolderRefused(c) ==> fs.dirs == old(fs.dirs)
    ensures Carried(old(fs.files), fs.files, fs.dirs, target, path, Relocate(c), event)
  {
    ghost var files0, dirs0 := fs.files, fs.dirs;
    var folder := fs.EnsureFolder(target, c);
    if folder.Some? {
      ghost var dirs1 := fs.dirs;
      var moved, dest := fs.MoveFile(path, target, c);
      assert fs.dirs == dirs1 == dirs0 + {Join(target, c)};
      if moved {
        assert path in files0 && dest !in files0 && fs.files == files0 - {path} + {dest};
        assert dest == Join(Join(target, c), BaseName(dest));
        assert LandsAt(files0 + fs.dirs, Join(target, c), BaseName(path), dest);
        event := MovedTo(c, dest);
      } else {
        assert fs.files == files0;
        event := MoveFailed(c);
      }
    } else {
      event := FolderRefused(c);
    }
  }

  /** Bookkeeping for one more handled file: its event follows its plan and its category joins the used set. */
  lemma PhaseTwoStep(plans: seq<Plan>, k: nat, events: seq<Event>, event: Event, used: set<string>)
    requires k < |plans|
    requires AllFollow(events, plans[..k])
    requires used == Destinations(plans[..k])
    requires Follows(event, plans[k])
    ensures AllFollow(events + [event], plans[..k + 1])
    ensures (if !event.NotCategorized? && !event.InPlace? then used + {event.category} else used) ==
            Destinations(plans[..k + 1])
  {
    assert plans[..k + 1] == plans[..k] + [plans[k]];
    AllFollowSnoc(events, plans[..k], event, plans[k]);
    DestinationsSnoc(plans[..k], plans[k]);
  }

  lemma AllFollowSnoc(events: seq<Event>, plans: seq<Plan>, e: Event, p: Plan)
    requires AllFollow(events, plans) && Follows(e, p)
    ensures AllFollow(events + [e], plans + [p])
  {
    assert (events + [e])[..|events|] == events;
    assert (plans + [p])[..|plans|] == plans;
  }

  lemma DestinationsSnoc(plans: seq<Plan>, p: Plan)
    ensures Destinations(plans + [p]) == Destinations(plans) + if p.Relocate? then {p.category} else {}
  {
    assert (plans + [p])[..|plans|] == plans;
  }

  /**
   * The conditions under which every relocation of phase 2 moves its file: each scanned path
   * is an existing file, none is scanned twice, and each category a file is sent to has a
   * plain name whose folder path no file occupies. `plans` are the files' plans.
   */
  ghost predicate Unobstructed(files: set<string>, target: string, paths: seq<string>, plans: seq<Plan>) {
    |plans| == |paths| &&
    (forall i :: 0 <= i < |paths| ==> paths[i] in files) &&
    (forall i, j :: 0 <= i < j < |paths| ==> paths[i] != paths[j]) &&
    (forall i :: 0 <= i < |plans| && plans[i].Relocate? ==>
       Sep !in plans[i].category && Join(target, plans[i].category) !in files)
  }

  /** A relocation always names a category, never the empty name (FileSorter.py:591). */
  lemma RelocationsNamed(t: Table, target: string, paths: seq<string>)
    ensures forall j :: 0 <= j < |paths| && Plans(t, target, paths)[j].Relocate? ==> Plans(t, target, paths)[j].category != []
  {
    forall j | 0 <= j < |paths|
      ensures Plans(t, target, paths)[j] == PlanFor(t, target, paths[j])
    {
    }
  }

  /** From position `from` on, every scanned file is still there and no file blocks its category folder. */
  ghost predicate StillClear(files: set<string>, target: string, paths: seq<string>, plans: seq<Plan>, from: nat)
    requires |plans| == |paths|
  {
    (forall j :: from <= j < |paths| ==> paths[j] in files) &&
    (forall j :: from <= j < |paths| && plans[j].Relocate? ==> Join(target, plans[j].category) !in files)
  }

  /**
   * Handling file `i` keeps the later files clear: a move removes only file `i` and adds a
   * fresh file one level inside a category folder, which is neither a later scanned path nor
   * a category folder path.
   */
  lemma ClearStep(filesA: set<string>, filesB: set<string>, target: string, paths: seq<string>,
                  plans: seq<Plan>, i: nat, event: Event)
    requires |plans| == |paths| && i < |paths|
    requires forall j, k :: 0 <= j < k < |paths| ==> paths[j] != paths[k]
    requires forall j :: i <= j < |paths| && plans[j].Relocate? ==> plans[j].category != [] && Sep !in plans[j].category
    requires StillClear(filesA, target, paths, plans, i)
    requires event.MovedTo? ==>
               event.category != [] && Sep !in event.category &&
               event.dest !in filesA && filesB == filesA - {paths[i]} + {event.dest} &&
               event.dest == Join(Join(target, event.category), BaseName(event.dest))
    requires !event.MovedTo? ==> filesB == filesA
    ensures StillClear(filesB, target, paths, plans, i + 1)
  {
    if event.MovedTo? {
      BaseNameHasNoSep(event.dest);
      forall j | i < j < |paths| && plans[j].Relocate?
        ensures Join(target, plans[j].category) != event.dest
      {
        NestedJoinDiffers(target, plans[j].category, event.category, BaseName(event.dest));
      }
    }
  }

  /** The first `n` files planned for relocation were all moved. */
  ghost predicate AllMoved(events: seq<Event>, plans: seq<Plan>, n: nat) {
    forall j :: 0 <= j < n && j < |events| && j < |plans| && plans[j].Relocate? ==> events[j].MovedTo?
  }

  /** One more iteration of phase 2 on unobstructed input: file `i` is moved if planned, and the rest stay clear. */
  lemma ProgressStep(files0: set<string>, filesA: set<string>, filesB: set<string>, dirs: set<string>,
                     target: string, paths: seq<string>, plans: seq<Plan>, i: nat,
                     events: seq<Event>, event: Event)
    requires i < |paths| && |events| == i
    requires Unobstructed(files0, target, paths, plans)
    requires forall j :: 0 <= j < |plans| && plans[j].Relocate? ==> plans[j].category != []
    requires StillClear(filesA, target, paths, plans, i) && AllMoved(events, plans, i)
    requires Carried(filesA, filesB, dirs, target, paths[i], plans[i], event)
    requires Follows(event, plans[i])
    ensures StillClear(filesB, target, paths, plans, i + 1) && AllMoved(events + [event], plans, i + 1)
  {
    ClearStep(filesA, filesB, target, paths, plans, i, event);
    assert forall j :: 0 <= j < i ==> (events + [event])[j] == events[j];
  }

  /** Phase 2 over the scanned files: every file is handled once, whatever befalls it. */
  method ProcessFiles(fs: FileSystem, table: CategoryTable, target: string, paths: seq<string>)
    returns (processed: nat, used: set<string>, events: seq<Event>)
    requires fs.Valid()
    modifies fs
    ensures fs.Valid()
    ensures processed == |paths| && |events| == |paths|
    ensures forall i :: 0 <= i < |paths| ==> Follows(events[i], PlanFor(table.entries, target, paths[i]))
    ensures used == Used(table.entries, target, paths)
    ensures old(fs.dirs) <= fs.dirs
    ensures |fs.files| == |old(fs.files)|
    ensures Placed(old(fs.files), fs.files, old(fs.dirs), fs.dirs, target, used)
    ensures Unobstructed(old(fs.files), target, paths, Plans(table.entries, target, paths)) ==>
              forall i :: 0 <= i < |paths| && PlanFor(table.entries, target, paths[i]).Relocate? ==> events[i].MovedTo?
  {
    processed, used, events := 0, {}, [];
    ghost var t := table.entries;
    ghost var plans := Plans(t, target, paths);
    ghost var clear := Unobstructed(old(fs.files), target, paths, plans);
    RelocationsNamed(t, target, paths);
    while processed < |paths|
      invariant processed <= |paths|
      invariant fs.Valid()
      invariant table.entries == t
      invariant AllFollow(events, plans[..processed])
      invariant used == Destinations(plans[..processed])
      invariant old(fs.dirs) <= fs.dirs
      invariant |fs.files| == |old(fs.files)|
      invariant Placed(old(fs.files), fs.files, old(fs.dirs), fs.dirs, target, used)
      invariant |events| == processed
      invariant clear ==> StillClear(fs.files, target, paths, plans, processed) && AllMoved(events, plans, processed)
    {
      ghost var filesBefore, dirsBefore := fs.files, fs.dirs;
      var event := ProcessOne(fs, table, target, paths[processed]);
      if clear {
        assert plans[processed] == PlanFor(t, target, paths[processed]);
        ProgressStep(old(fs.files), filesBefore, fs.files, fs.dirs, target, paths, plans, processed, events, event);
      }
      ghost var usedBefore := used;
      used := if !event.NotCategorized? && !event.InPlace? then used + {event.category} else used;
      PhaseTwoStep(plans, processed, events, event, usedBefore);
      PlacedStep(old(fs.files), filesBefore, fs.files, old(fs.dirs), dirsBefore, fs.dirs, target, usedBefore, event);
      events := events + [event];
      processed := processed + 1;
    }
    assert plans[..processed] == plans;
    EventsFollowPlans(table.entries, target, paths, events);
    assert forall i :: 0 <= i < |paths| ==> plans[i] == PlanFor(t, target, paths[i]);
  }

  /** The per-position reading of `AllFollow`: the i-th event carries out the i-th file's plan. */
  lemma EventsFollowPlans(t: Table, target: string, paths: seq<string>, events: seq<Event>)
    requires AllFollow(events, Plans(t, target, paths))
    ensures |events| == |paths|
    ensures forall i :: 0 <= i < |paths| ==> Follows(events[i], PlanFor(t, target, paths[i]))
  {
    forall i | 0 <= i < |paths| ensures Follows(events[i], PlanFor(t, target, paths[i])) {
      AllFollowAt(events, Plans(t, target, paths), i);
    }
  }

  // ---------------------------------------------------------------------------
  // The whole run
  // ---------------------------------------------------------------------------

  datatype RunOutcome =
    | InvalidTarget
    | ProtectedTarget(forbidden: string)
    | Finished(total: nat, processed: nat, skippedForSafety: nat, used: set<string>, events: seq<Event>, deleted: nat)

  /** The checks of FileSorter.py:539 that turn a target away before anything happens. */
  predicate AcceptableTarget(fs: FileSystem, target: string)
    reads fs
  {
    target != [] && target != NoFolderSelected && target in fs.dirs
  }

  /**
   * Phase 3 ran after phase 2: the directories left and the deletion count are those of the
   * sweep over the directory set phase 2 left: `dirs0` plus, at most, protected folders.
   */
  ghost predicate SweptAfter(dirs0: set<string>, files: set<string>, dirs: set<string>, order: seq<string>,
                             protect: set<string>, deleted: nat)
  {
    exists dirs1 :: dirs0 <= dirs1 <= dirs0 + protect && (dirs, deleted) == Sweep(files, dirs1, order, protect)
  }

  /**
   * `start_organization_command`: `snapshot` is the tree below `target` as the scan sees
   * it, `forbidden` the protected system paths in their listed order, and `cleanupOrder`
   * the directories the bottom-up walk of phase 3 visits.
   */
  method Organize(fs: FileSystem, table: CategoryTable, target: string, forbidden: seq<string>,
                  snapshot: Dir, cleanupOrder: seq<string>) returns (outcome: RunOutcome)
    requires fs.Valid()
    modifies fs
    ensures fs.Valid()
    ensures !old(AcceptableTarget(fs, target)) ==> outcome == InvalidTarget
    ensures outcome.InvalidTarget? || outcome.ProtectedTarget? ==> fs.files == old(fs.files) && fs.dirs == old(fs.dirs)
    ensures outcome.ProtectedTarget? ==> outcome.forbidden in forbidden && UnderRoot(target, outcome.forbidden)
    ensures old(AcceptableTarget(fs, target)) && !Covered(target, forbidden) ==> outcome.Finished?
    ensures old(AcceptableTarget(fs, target)) && Covered(target, forbidden) ==> outcome.ProtectedTarget?
    ensures outcome.Finished? ==> !Covered(target, forbidden)
    ensures outcome.Finished? ==>
              outcome.total == outcome.processed == |Walk(IsHidden, target, snapshot)| == |outcome.events| &&
              outcome.skippedForSafety == Skipped(IsHidden, target, snapshot) &&
              outcome.used == Used(table.entries, target, Walk(IsHidden, target, snapshot)) &&
              forall i :: 0 <= i < outcome.total ==>
                Follows(outcome.events[i], PlanFor(table.entries, target, Walk(IsHidden, target, snapshot)[i]))
    ensures outcome.Finished? && outcome.total == 0 ==>
              fs.files == old(fs.files) && fs.dirs == old(fs.dirs) && outcome.deleted == 0
    ensures outcome.Finished? && outcome.total > 0 ==>
              SweptAfter(old(fs.dirs), fs.files, fs.dirs, cleanupOrder, ProtectedFolders(target, outcome.used), outcome.deleted)
    ensures outcome.Finished? ==> |fs.files| == |old(fs.files)| && target in fs.dirs
    ensures outcome.Finished? ==> Placed(old(fs.files), fs.files, old(fs.dirs), fs.dirs, target, outcome.used)
    ensures outcome.Finished? ==>
              forall d :: d in old(fs.dirs) && d !in fs.dirs ==> d !in ProtectedFolders(target, outcome.used)
    ensures outcome.Finished? &&
            Unobstructed(old(fs.files), target, Walk(IsHidden, target, snapshot),
                         Plans(table.entries, target, Walk(IsHidden, target, snapshot))) ==>
              forall i :: 0 <= i < outcome.total &&
                          PlanFor(table.entries, target, Walk(IsHidden, target, snapshot)[i]).Relocate? ==>
                outcome.events[i].MovedTo?
  {
    if !AcceptableTarget(fs, target) {
      return InvalidTarget;
    }
    var protecting := FindProtectingRoot(target, forbidden);
    if protecting.Some? {
      return ProtectedTarget(protecting.value);
    }
    var paths, skipped := Scan(IsHidden, target, snapshot);
    if paths == [] {
      return Finished(0, 0, skipped, {}, [], 0);
    }
    var processed, used, events := ProcessFiles(fs, table, target, paths);
    ghost var filesBefore, dirsBefore := fs.files, fs.dirs;
    var deleted := fs.PruneEmpty(cleanupOrder, target, used);
    SweepKeepsProtected(filesBefore, dirsBefore, cleanupOrder, target, used);
    outcome := Finished(|paths|, processed, skipped, used, events, deleted);
  }
}
