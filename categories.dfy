/**
 * The category table: an insertion-ordered mapping from category name to the set of
 * extension tokens the category owns, the first-match classifier over it, and the
 * validated add/update/rename and remove operations of the settings window.
 */
module Categories {
  import opened Wrappers
  import opened PathText

  /** The name that marks the extensionless category, compared upper-cased (FileSorter.py:401). */
  const ReservedCategoryName: string := "NO_EXTENSION_FILES"

  /** One entry of the table: a category name and the extension tokens it owns. */
  datatype Category = Category(name: string, exts: set<string>)

  /** The table in dict insertion order. */
  type Table = seq<Category>

  /** Why an add/update request was refused, in the order the checks are made. */
  datatype Rejection =
    | EmptyName                              // FileSorter.py:389-392
    | EmptyExtensions                        // FileSorter.py:393-395
    | ReservedNeedsSentinelOnly              // FileSorter.py:401-404
    | SentinelNeedsReservedName              // FileSorter.py:405-408
    | NoValidExtensions                      // FileSorter.py:412-415
    | NameExists                             // FileSorter.py:418-421
    | RenameTargetExists                     // FileSorter.py:422-425
    | ExtensionsTaken(conflicts: set<string>) // FileSorter.py:427-433

  // ---------------------------------------------------------------------------
  // The table as a dict
  // ---------------------------------------------------------------------------

  /** The keys of the dict. */
  function Names(t: Table): set<string> {
    set c | c in t :: c.name
  }

  /** A dict never holds a key twice. */
  ghost predicate DistinctNames(t: Table) {
    forall i, j :: 0 <= i < j < |t| ==> t[i].name != t[j].name
  }

  /** No extension token is owned by two categories. */
  ghost predicate Disjoint(t: Table) {
    forall a, b :: a in t && b in t && a.name != b.name ==> a.exts !! b.exts
  }

  /** The reserved category owns only the sentinel, and no other category owns it. */
  ghost predicate ReservedRule(t: Table) {
    forall a :: a in t ==>
      (Upper(a.name) == ReservedCategoryName ==> a.exts == {NoExtensionKeyword}) &&
      (Upper(a.name) != ReservedCategoryName ==> NoExtensionKeyword !in a.exts)
  }

  /** `d[n]`, or `None` when `n` is not a key. */
  function Lookup(t: Table, n: string): Option<set<string>> {
    if t == [] then None
    else if t[0].name == n then Some(t[0].exts)
    else Lookup(t[1..], n)
  }

  /** `del d[n]` when `n` is a key; the table is unchanged otherwise. */
  function DeleteKey(t: Table, n: string): (r: Table)
    ensures forall c :: c in r <==> c in t && c.name != n
    ensures n !in Names(t) ==> r == t
  {
    if t == [] then []
    else (if t[0].name == n then [] else [t[0]]) + DeleteKey(t[1..], n)
  }

  /** `d[n] = e`: an existing key keeps its position, a new key is appended. */
  function SetKey(t: Table, n: string, e: set<string>): (r: Table)
    ensures n !in Names(t) ==> r == t + [Category(n, e)]
    ensures Category(n, e) in r
  {
    if t == [] then [Category(n, e)]
    else if t[0].name == n then [Category(n, e)] + t[1..]
    else [t[0]] + SetKey(t[1..], n, e)
  }

  /** The tokens owned by every category except `exclude` ("" excludes nothing, as `None` does). */
  function AssignedExcept(t: Table, exclude: string): (r: set<string>)
    ensures forall x :: x in r <==>
              exists a :: a in t && !(exclude != [] && a.name == exclude) && x in a.exts
  {
    if t == [] then {}
    else (if exclude != [] && t[0].name == exclude then {} else t[0].exts) + AssignedExcept(t[1..], exclude)
  }

  /** The first category, in table order, whose set holds `key` (FileSorter.py:586-589). */
  function FirstMatch(t: Table, key: string): (r: Option<string>)
    ensures r.Some? ==> r.value in Names(t)
  {
    if t == [] then None
    else if key in t[0].exts then Some(t[0].name)
    else FirstMatch(t[1..], key)
  }

  /** The lookup answers with the first category, in table order, that lists the key, and with nothing when none does. */
  lemma {:induction false} FirstMatchSpec(t: Table, key: string)
    ensures var r := FirstMatch(t, key);
            (r == None <==> forall i :: 0 <= i < |t| ==> key !in t[i].exts) &&
            (r != None ==>
               exists i :: 0 <= i < |t| && t[i].name == r.value && key in t[i].exts &&
                           forall j :: 0 <= j < i ==> key !in t[j].exts)
  {
    if t != [] && key !in t[0].exts {
      FirstMatchSpec(t[1..], key);
      assert forall i :: 1 <= i < |t| ==> t[i] == t[1..][i - 1];
      var r := FirstMatch(t, key);
      if r != None {
        var i :| 0 <= i < |t[1..]| && t[1..][i].name == r.value && key in t[1..][i].exts &&
                 forall j :: 0 <= j < i ==> key !in t[1..][j].exts;
        assert t[i + 1] == t[1..][i];
        assert forall j :: 0 <= j < i + 1 ==> key !in t[j].exts by {
          forall j | 0 <= j < i + 1 ensures key !in t[j].exts {
            if j > 0 {
              assert t[j] == t[1..][j - 1];
            }
          }
        }
      }
    }
  }

  // ---------------------------------------------------------------------------
  // Parsing the comma-separated extension field
  // ---------------------------------------------------------------------------

  /** `s.split(c)`: at least one part, none containing `c`. */
  function Split(s: string, c: char): (parts: seq<string>)
    ensures |parts| >= 1
    ensures forall k :: 0 <= k < |parts| ==> c !in parts[k]
  {
    if s == [] then [[]]
    else
      var rest := Split(s[1..], c);
      if s[0] == c then [[]] + rest
      else [[s[0]] + rest[0]] + rest[1..]
  }

  /** `c.join(parts)`. */
  function JoinWith(parts: seq<string>, c: char): string
    requires |parts| >= 1
  {
    if |parts| == 1 then parts[0] else parts[0] + [c] + JoinWith(parts[1..], c)
  }

  /** `{e.strip() for e in exts_str.split(',')}` (FileSorter.py:405). */
  function StrippedParts(exts: string): set<string> {
    set p | p in Split(exts, ',') :: Strip(p)
  }

  /** The parsed tokens: stripped parts that are neither blank nor a lone dot (FileSorter.py:410-411). */
  function Tokens(exts: string): (r: set<string>)
    ensures forall x :: x in r <==> x in StrippedParts(exts) && x != [] && x != "."
  {
    set p | p in Split(exts, ',') && Strip(p) != [] && Strip(p) != "." :: Strip(p)
  }

  // ---------------------------------------------------------------------------
  // The add/update/rename decision and its effect
  // ---------------------------------------------------------------------------

  /** The category whose tokens are excluded from the conflict check (FileSorter.py:427-428). */
  function ExcludedName(editing: string, name: string): string {
    if editing != [] then editing else name
  }

  /**
   * The validation chain of `add_or_update_category_command_settings` (FileSorter.py:386-433):
   * the first failing check gives the rejection; otherwise the category to install. `editing`
   * is the name of the entry being edited, "" when a new category is being added.
   */
  function Decide(t: Table, editing: string, nameInput: string, extsInput: string): (r: Result<Category, Rejection>)
    ensures r.Success? ==> r.value.name == Strip(nameInput) && r.value.name != []
    ensures r.Success? ==> r.value.exts == Tokens(Lower(Strip(extsInput))) && r.value.exts != {}
    ensures r.Success? ==> r.value.exts !! AssignedExcept(t, ExcludedName(editing, r.value.name))
    ensures r.Success? && editing == [] ==> r.value.name !in Names(t)
    ensures r.Success? && editing != r.value.name ==> r.value.name !in Names(t)
    ensures r.Success? && Upper(r.value.name) == ReservedCategoryName ==>
              Lower(Strip(extsInput)) == NoExtensionKeyword
    ensures r.Success? && Upper(r.value.name) != ReservedCategoryName ==>
              NoExtensionKeyword !in StrippedParts(Lower(Strip(extsInput)))
  {
    var name := Strip(nameInput);
    var exts := Lower(Strip(extsInput));
    if name == [] then Failure(EmptyName)
    else if exts == [] then Failure(EmptyExtensions)
    else if Upper(name) == ReservedCategoryName && exts != NoExtensionKeyword then Failure(ReservedNeedsSentinelOnly)
    else if Upper(name) != ReservedCategoryName && NoExtensionKeyword in StrippedParts(exts) then Failure(SentinelNeedsReservedName)
    else
      var tokens := Tokens(exts);
      if tokens == {} then Failure(NoValidExtensions)
      else if editing == [] && name in Names(t) then Failure(NameExists)
      else if editing != [] && name != editing && name in Names(t) then Failure(RenameTargetExists)
      else
        var others := AssignedExcept(t, ExcludedName(editing, name));
        var conflicts := tokens * others;
        if conflicts != {} then Failure(ExtensionsTaken(conflicts))
        else
          assert forall x :: x in tokens && x in others ==> x in conflicts;
          Success(Category(name, tokens))
  }

  /**
   * The converse of the checks: a request that passes all of them is accepted, with the
   * stripped name and the parsed tokens (FileSorter.py:386-433).
   */
  lemma DecideAccepts(t: Table, editing: string, nameInput: string, extsInput: string)
    requires var name, exts := Strip(nameInput), Lower(Strip(extsInput));
             name != [] && Tokens(exts) != {} &&
             (Upper(name) == ReservedCategoryName ==> exts == NoExtensionKeyword) &&
             (Upper(name) != ReservedCategoryName ==> NoExtensionKeyword !in StrippedParts(exts)) &&
             (name !in Names(t) || (editing != [] && name == editing)) &&
             Tokens(exts) !! AssignedExcept(t, ExcludedName(editing, name))
    ensures Decide(t, editing, nameInput, extsInput) ==
            Success(Category(Strip(nameInput), Tokens(Lower(Strip(extsInput)))))
  {
    assert Split([], ',') == [[]];
  }

  /** The mutation at FileSorter.py:435-439: drop the old key on a rename, then assign. */
  function Install(t: Table, editing: string, c: Category): (r: Table)
    ensures c in r
  {
    var base := if editing != [] && editing != c.name && editing in Names(t) then DeleteKey(t, editing) else t;
    SetKey(base, c.name, c.exts)
  }

  // ---------------------------------------------------------------------------
  // Lemmas
  // ---------------------------------------------------------------------------

  lemma DistinctCons(c: Category, t: Table)
    ensures DistinctNames([c] + t) <==> c.name !in Names(t) && DistinctNames(t)
  {
    var s := [c] + t;
    assert forall i :: 0 <= i < |t| ==> s[i + 1] == t[i];
    if c.name in Names(t) {
      var d :| d in t && d.name == c.name;
      var i :| 0 <= i < |t| && t[i] == d;
      assert s[0].name == s[i + 1].name;
    }
  }

  lemma NamesOfDeleteKey(t: Table, n: string)
    ensures Names(DeleteKey(t, n)) <= Names(t) - {n}
  {
    var r := DeleteKey(t, n);
    forall x | x in Names(r) ensures x in Names(t) && x != n {
      var c :| c in r && c.name == x;
      assert c in t;
    }
  }

  lemma {:induction false} DeleteKeyDistinct(t: Table, n: string)
    requires DistinctNames(t)
    ensures DistinctNames(DeleteKey(t, n))
  {
    if t != [] {
      assert t == [t[0]] + t[1..];
      DistinctCons(t[0], t[1..]);
      DeleteKeyDistinct(t[1..], n);
      if t[0].name != n {
        NamesOfDeleteKey(t[1..], n);
        assert DeleteKey(t, n) == [t[0]] + DeleteKey(t[1..], n);
        DistinctCons(t[0], DeleteKey(t[1..], n));
      } else {
        assert DeleteKey(t, n) == DeleteKey(t[1..], n);
      }
    }
  }

  /** Deleting a key that no entry has leaves the table as it is. */
  lemma {:induction false} DeleteAbsentKey(t: Table, n: string)
    requires forall j :: 0 <= j < |t| ==> t[j].name != n
    ensures DeleteKey(t, n) == t
  {
    if t != [] {
      assert forall j :: 0 <= j < |t[1..]| ==> t[1..][j] == t[j + 1];
      DeleteAbsentKey(t[1..], n);
      assert t == [t[0]] + t[1..];
    }
  }

  /** The tail of a dict has distinct keys, none of them the head's. */
  lemma DistinctTail(t: Table)
    requires DistinctNames(t) && t != []
    ensures DistinctNames(t[1..])
    ensures forall j :: 0 <= j < |t[1..]| ==> t[1..][j].name != t[0].name
  {
    forall j, k | 0 <= j < k < |t[1..]| ensures t[1..][j].name != t[1..][k].name {
      assert t[1..][j] == t[j + 1] && t[1..][k] == t[k + 1];
    }
    forall j | 0 <= j < |t[1..]| ensures t[1..][j].name != t[0].name {
      assert t[1..][j] == t[j + 1];
    }
  }

  /** Splicing out entry `i` of the tail and putting the head back splices out entry `i + 1`. */
  lemma SpliceTail(t: Table, i: int)
    requires 0 < i < |t|
    ensures [t[0]] + (t[1..][..i - 1] + t[1..][i..]) == t[..i] + t[i + 1..]
  {
    assert t[1..][..i - 1] == t[1..i] && t[1..][i..] == t[i + 1..];
    assert [t[0]] + t[1..i] == t[..i];
  }

  /** Deleting a key removes exactly its entry; the other entries keep their order. */
  lemma {:induction false} DeleteKeyKeepsOrder(t: Table, i: int)
    requires DistinctNames(t) && 0 <= i < |t|
    ensures DeleteKey(t, t[i].name) == t[..i] + t[i + 1..]
  {
    DistinctTail(t);
    if i == 0 {
      DeleteAbsentKey(t[1..], t[0].name);
    } else {
      assert t[1..][i - 1] == t[i];
      DeleteKeyKeepsOrder(t[1..], i - 1);
      SpliceTail(t, i);
    }
  }

  /** Assigning a key: it now maps to `e`, every other entry stays, and keys stay distinct. */
  lemma {:induction false} SetKeyEffect(t: Table, n: string, e: set<string>)
    requires DistinctNames(t)
    ensures DistinctNames(SetKey(t, n, e))
    ensures Names(SetKey(t, n, e)) == Names(t) + {n}
    ensures forall c :: c in SetKey(t, n, e) <==> c == Category(n, e) || (c in t && c.name != n)
  {
    if t != [] {
      assert t == [t[0]] + t[1..];
      DistinctCons(t[0], t[1..]);
      if t[0].name == n {
        DistinctCons(Category(n, e), t[1..]);
      } else {
        SetKeyEffect(t[1..], n, e);
        DistinctCons(t[0], SetKey(t[1..], n, e));
      }
    }
  }

  /** Assigning an existing key replaces its entry in place, so the table order is kept. */
  lemma {:induction false} SetKeyKeepsPosition(t: Table, i: int, e: set<string>)
    requires DistinctNames(t) && 0 <= i < |t|
    ensures SetKey(t, t[i].name, e) == t[i := Category(t[i].name, e)]
  {
    if i > 0 {
      assert t == [t[0]] + t[1..];
      DistinctCons(t[0], t[1..]);
      assert t[1..][i - 1] == t[i];
      SetKeyKeepsPosition(t[1..], i - 1, e);
    }
  }

  /**
   * The effect of a successful add/update/rename: the new name maps to exactly the parsed
   * tokens, a renamed category's old name is gone, and every other entry is untouched.
   */
  lemma InstallEffect(t: Table, editing: string, c: Category)
    requires DistinctNames(t)
    ensures DistinctNames(Install(t, editing, c))
    ensures Lookup(Install(t, editing, c), c.name) == Some(c.exts)
    ensures forall x :: x in Install(t, editing, c) <==>
              x == c || (x in t && x.name != c.name && !(editing != [] && editing != c.name && x.name == editing))
    ensures editing != [] && editing != c.name ==> editing !in Names(Install(t, editing, c))
  {
    var base := if editing != [] && editing != c.name && editing in Names(t) then DeleteKey(t, editing) else t;
    DeleteKeyDistinct(t, editing);
    SetKeyEffect(base, c.name, c.exts);
    LookupOfMember(Install(t, editing, c), c);
  }

  /** In a table without repeated keys, `d[n]` is the set of the entry named `n`. */
  lemma {:induction false} LookupOfMember(t: Table, c: Category)
    requires DistinctNames(t) && c in t
    ensures Lookup(t, c.name) == Some(c.exts)
  {
    assert t == [t[0]] + t[1..];
    DistinctCons(t[0], t[1..]);
    if t[0] != c {
      assert c in t[1..];
      LookupOfMember(t[1..], c);
    }
  }

  /** A key that is absent stays absent from `d.get`. */
  lemma {:induction false} LookupOfAbsent(t: Table, n: string)
    requires n !in Names(t)
    ensures Lookup(t, n) == None
  {
    if t != [] {
      assert t[0] in t;
      assert forall c :: c in t[1..] ==> c in t;
      LookupOfAbsent(t[1..], n);
    }
  }

  /** Every successful add/update keeps the extension sets pairwise disjoint. */
  lemma DecidePreservesDisjoint(t: Table, editing: string, nameInput: string, extsInput: string)
    requires DistinctNames(t) && Disjoint(t)
    requires Decide(t, editing, nameInput, extsInput).Success?
    ensures Disjoint(Install(t, editing, Decide(t, editing, nameInput, extsInput).value))
  {
    var c := Decide(t, editing, nameInput, extsInput).value;
    var t' := Install(t, editing, c);
    InstallEffect(t, editing, c);
    var excl := ExcludedName(editing, c.name);
    forall a, b | a in t' && b in t' && a.name != b.name
      ensures a.exts !! b.exts
    {
      if a == c {
        assert b.name != excl;
        forall x | x in b.exts ensures x !in c.exts {
          assert x in AssignedExcept(t, excl);
        }
      } else if b == c {
        assert a.name != excl;
        forall x | x in a.exts ensures x !in c.exts {
          assert x in AssignedExcept(t, excl);
        }
      }
    }
  }

  lemma {:induction false} SplitWithoutSeparator(s: string, c: char)
    requires c !in s
    ensures Split(s, c) == [s]
  {
    if s != [] {
      SplitWithoutSeparator(s[1..], c);
      assert [s[0]] + s[1..] == s;
    }
  }

  /** Splitting on a character and joining back with it gives the original string. */
  lemma {:induction false} SplitJoinRoundTrip(s: string, c: char)
    ensures JoinWith(Split(s, c), c) == s
  {
    if s != [] {
      var rest := Split(s[1..], c);
      SplitJoinRoundTrip(s[1..], c);
      if s[0] == c {
        assert Split(s, c)[1..] == rest;
      } else if |rest| == 1 {
        assert Split(s, c) == [[s[0]] + rest[0]];
      } else {
        var parts := Split(s, c);
        assert parts[1..] == rest[1..];
        assert JoinWith(rest, c) == rest[0] + [c] + JoinWith(rest[1..], c);
      }
    }
  }

  /** A single word with no comma and no blank ends parses to itself alone. */
  lemma TokensOfWord(k: string)
    requires k != [] && k != "." && ',' !in k && !IsSpace(k[0]) && !IsSpace(k[|k| - 1])
    ensures Tokens(k) == {k}
  {
    SplitWithoutSeparator(k, ',');
    StripKeeps(k);
  }

  /** The sentinel typed alone parses to the sentinel alone. */
  lemma TokensOfSentinel()
    ensures Tokens(NoExtensionKeyword) == {NoExtensionKeyword}
  {
    var k := NoExtensionKeyword;
    assert k != "." && ',' !in k && !IsSpace(k[0]) && !IsSpace(k[|k| - 1]);
    TokensOfWord(k);
  }

  /** The reserved-name rules hold of every category a successful request installs. */
  lemma DecideKeepsReservedRule(t: Table, editing: string, nameInput: string, extsInput: string)
    requires Decide(t, editing, nameInput, extsInput).Success?
    ensures var c := Decide(t, editing, nameInput, extsInput).value;
            (Upper(c.name) == ReservedCategoryName ==> c.exts == {NoExtensionKeyword}) &&
            (Upper(c.name) != ReservedCategoryName ==> NoExtensionKeyword !in c.exts)
  {
    var c := Decide(t, editing, nameInput, extsInput).value;
    if Upper(c.name) == ReservedCategoryName {
      TokensOfSentinel();
    }
  }

  /** Adding or updating keeps the reserved-name rules of the whole table. */
  lemma DecidePreservesReservedRule(t: Table, editing: string, nameInput: string, extsInput: string)
    requires DistinctNames(t) && ReservedRule(t)
    requires Decide(t, editing, nameInput, extsInput).Success?
    ensures ReservedRule(Install(t, editing, Decide(t, editing, nameInput, extsInput).value))
  {
    InstallEffect(t, editing, Decide(t, editing, nameInput, extsInput).value);
    DecideKeepsReservedRule(t, editing, nameInput, extsInput);
  }

  /**
   * A token already owned by a category other than the one being edited never gets
   * through: the request is refused (with ExtensionsTaken unless an earlier check fires).
   */
  lemma OwnedTokenRejected(t: Table, editing: string, nameInput: string, extsInput: string, owner: Category, x: string)
    requires owner in t && x in owner.exts
    requires x in Tokens(Lower(Strip(extsInput)))
    requires owner.name != ExcludedName(editing, Strip(nameInput))
    ensures Decide(t, editing, nameInput, extsInput).Failure?
  {
    var name := Strip(nameInput);
    assert x in AssignedExcept(t, ExcludedName(editing, name));
  }

  /** Classification is table-order independent when the sets are disjoint: at most one category matches. */
  lemma FirstMatchUnique(t: Table, key: string, i: int)
    requires DistinctNames(t) && Disjoint(t)
    requires 0 <= i < |t| && key in t[i].exts
    ensures FirstMatch(t, key) == Some(t[i].name)
  {
    FirstMatchSpec(t, key);
    var r := FirstMatch(t, key);
    var j :| 0 <= j < |t| && t[j].name == r.value && key in t[j].exts &&
             forall k :: 0 <= k < j ==> key !in t[k].exts;
  }

  // ---------------------------------------------------------------------------
  // The process-wide table
  // ---------------------------------------------------------------------------

  /** `custom_category_mappings`, mutated in place by the settings window. */
  class CategoryTable {
    var entries: Table

    ghost predicate Valid()
      reads this
    {
      DistinctNames(entries)
    }

    /** The table as loaded at startup. */
    constructor (initial: Table)
      requires DistinctNames(initial)
      ensures Valid() && entries == initial
    {
      entries := initial;
    }

    /** `get_all_assigned_extensions_settings` (FileSorter.py:371-378). */
    method AssignedExtensions(exclude: string) returns (owned: set<string>)
      ensures owned == AssignedExcept(entries, exclude)
    {
      owned := {};
      var i := 0;
      while i < |entries|
        invariant 0 <= i <= |entries|
        invariant owned + AssignedExcept(entries[i..], exclude) == AssignedExcept(entries, exclude)
      {
        assert entries[i..][1..] == entries[i + 1..];
        if !(exclude != [] && entries[i].name == exclude) {
          owned := owned + entries[i].exts;
        }
        i := i + 1;
      }
    }

    /** The category a key is filed under: the first entry whose set holds it (FileSorter.py:586-589). */
    method Classify(key: string) returns (r: Option<string>)
      ensures r == FirstMatch(entries, key)
    {
      var i := 0;
      while i < |entries|
        invariant 0 <= i <= |entries|
        invariant FirstMatch(entries[i..], key) == FirstMatch(entries, key)
      {
        if key in entries[i].exts {
          return Some(entries[i].name);
        }
        assert entries[i..][1..] == entries[i + 1..];
        i := i + 1;
      }
      return None;
    }

    /**
     * `add_or_update_category_command_settings` without its widgets (FileSorter.py:382-439):
     * a refused request leaves the table as it was; an accepted one installs the category.
     */
    method AddOrUpdate(editing: string, nameInput: string, extsInput: string) returns (r: Outcome<Rejection>)
      requires Valid()
      modifies this
      ensures Valid()
      ensures Decide(old(entries), editing, nameInput, extsInput).Failure? ==>
                r == Fail(Decide(old(entries), editing, nameInput, extsInput).error) && entries == old(entries)
      ensures Decide(old(entries), editing, nameInput, extsInput).Success? ==>
                r == Pass && entries == Install(old(entries), editing, Decide(old(entries), editing, nameInput, extsInput).value)
      ensures Disjoint(old(entries)) ==> Disjoint(entries)
      ensures ReservedRule(old(entries)) ==> ReservedRule(entries)
    {
      var name := Strip(nameInput);
      var exts := Lower(Strip(extsInput));
      if name == [] {
        return Fail(EmptyName);
      }
      if exts == [] {
        return Fail(EmptyExtensions);
      }
      if Upper(name) == ReservedCategoryName && exts != NoExtensionKeyword {
        return Fail(ReservedNeedsSentinelOnly);
      }
      if Upper(name) != ReservedCategoryName && NoExtensionKeyword in StrippedParts(exts) {
        return Fail(SentinelNeedsReservedName);
      }
      var tokens := Tokens(exts);
      if tokens == {} {
        return Fail(NoValidExtensions);
      }
      if editing == [] && name in Names(entries) {
        return Fail(NameExists);
      }
      if editing != [] && name != editing && name in Names(entries) {
        return Fail(RenameTargetExists);
      }
      var others := AssignedExtensions(ExcludedName(editing, name));
      var conflicts := tokens * others;
      if conflicts != {} {
        return Fail(ExtensionsTaken(conflicts));
      }
      ghost var before := entries;
      if editing != [] && editing != name && editing in Names(entries) {
        entries := DeleteKey(entries, editing);
      }
      entries := SetKey(entries, name, tokens);
      r := Pass;
      InstallEffect(before, editing, Category(name, tokens));
      if Disjoint(before) {
        DecidePreservesDisjoint(before, editing, nameInput, extsInput);
      }
      if ReservedRule(before) {
        DecidePreservesReservedRule(before, editing, nameInput, extsInput);
      }
    }

    /** `remove_category_command_settings`, dict part (FileSorter.py:503-506): delete if present. */
    method Remove(name: string)
      requires Valid()
      modifies this
      ensures Valid()
      ensures entries == DeleteKey(old(entries), name)
      ensures Lookup(entries, name) == None
      ensures forall c :: c in entries <==> c in old(entries) && c.name != name
    {
      if name in Names(entries) {
        entries := DeleteKey(entries, name);
      }
      NamesOfDeleteKey(old(entries), name);
      DeleteKeyDistinct(old(entries), name);
      LookupOfAbsent(entries, name);
    }
  }
}
