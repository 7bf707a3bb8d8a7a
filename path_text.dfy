/**
 * Path strings as the organizer sees them on a POSIX system: `os.path.join`, `basename`,
 * `dirname` and `splitext`, the Unix hidden-entry test, the lower-cased extension key a
 * file is classified by, and the separator-aware protected-root test.
 */
module PathText {

  /** The POSIX path separator (`os.sep`). */
  const Sep: char := '/'

  /** The sentinel token that stands for "this file has no extension" (FileSorter.py:109). */
  const NoExtensionKeyword: string := "no_extension"

  // ---------------------------------------------------------------------------
  // String helpers: Python's `startswith`, `endswith`, `lower`, `upper`, `strip`
  // ---------------------------------------------------------------------------

  predicate StartsWith(s: string, p: string) {
    |p| <= |s| && s[..|p|] == p
  }

  predicate EndsWith(s: string, p: string) {
    |p| <= |s| && s[|s| - |p|..] == p
  }

  /** `str.lower` on one character, ASCII letters only. */
  function LowerChar(c: char): char {
    if 'A' <= c <= 'Z' then (c as int + 32) as char else c
  }

  /** `str.upper` on one character, ASCII letters only. */
  function UpperChar(c: char): char {
    if 'a' <= c <= 'z' then (c as int - 32) as char else c
  }

  function Lower(s: string): string {
    seq(|s|, i requires 0 <= i < |s| => LowerChar(s[i]))
  }

  function Upper(s: string): string {
    seq(|s|, i requires 0 <= i < |s| => UpperChar(s[i]))
  }

  /** The characters `str.strip()` removes, ASCII only: `\t`..`\r`, `\x1c`..`\x1f` and space. */
  predicate IsSpace(c: char) {
    c == ' ' || '\t' <= c <= '\r' || '\U{1C}' <= c <= '\U{1F}'
  }

  function StripStart(s: string): string {
    if s != [] && IsSpace(s[0]) then StripStart(s[1..]) else s
  }

  function StripEnd(s: string): string {
    if s != [] && IsSpace(s[|s| - 1]) then StripEnd(s[..|s| - 1]) else s
  }

  /** `s.strip()`. */
  function Strip(s: string): string {
    StripEnd(StripStart(s))
  }

  /** `s.rfind(c)`: the index of the last occurrence of `c`, or -1. */
  function LastIndexOf(s: string, c: char): (i: int)
    ensures -1 <= i < |s|
    ensures 0 <= i ==> s[i] == c
    ensures forall j :: i < j < |s| ==> s[j] != c
  {
    if s == [] then -1
    else if s[|s| - 1] == c then |s| - 1
    else LastIndexOf(s[..|s| - 1], c)
  }

  // ---------------------------------------------------------------------------
  // posixpath: join, basename, dirname, splitext
  // ---------------------------------------------------------------------------

  /** `os.path.join(d, n)` for two arguments. */
  function Join(d: string, n: string): string {
    if n != [] && n[0] == Sep then n
    else if d == [] || d[|d| - 1] == Sep then d + n
    else d + [Sep] + n
  }

  /** `os.path.basename(p)`: everything after the last separator. */
  function BaseName(p: string): string {
    p[LastIndexOf(p, Sep) + 1..]
  }

  /** `s.rstrip(c)`. */
  function RStrip(s: string, c: char): string {
    if s != [] && s[|s| - 1] == c then RStrip(s[..|s| - 1], c) else s
  }

  predicate AllSep(s: string) {
    forall k :: 0 <= k < |s| ==> s[k] == Sep
  }

  /** `os.path.dirname(p)`: the head up to the last separator, trailing separators removed
      unless the head is made of separators only. */
  function DirName(p: string): string {
    var head := p[..LastIndexOf(p, Sep) + 1];
    if head != [] && !AllSep(head) then RStrip(head, Sep) else head
  }

  /** Some character of `p[lo..hi]` is not a dot. */
  predicate HasNonDot(p: string, lo: int, hi: int)
    requires 0 <= lo <= hi <= |p|
  {
    exists k :: lo <= k < hi && p[k] != '.'
  }

  /** `os.path.splitext(p)`: the suffix starts at the last dot of the last path component,
      unless only dots come before that dot in the component. */
  function SplitExt(p: string): (r: (string, string))
    ensures r.0 + r.1 == p
    ensures r.1 == [] || (r.1[0] == '.' && '.' !in r.1[1..] && Sep !in r.1)
  {
    var sepIndex := LastIndexOf(p, Sep);
    var dotIndex := LastIndexOf(p, '.');
    if dotIndex > sepIndex && HasNonDot(p, sepIndex + 1, dotIndex) then
      assert forall j :: dotIndex < j < |p| ==> p[j] != '.' && p[j] != Sep;
      (p[..dotIndex], p[dotIndex..])
    else
      (p, [])
  }

  /** `get_file_extension` (FileSorter.py:208-210): the lower-cased splitext suffix, dot included. */
  function FileExtension(fileName: string): (r: string)
    ensures |r| == |SplitExt(fileName).1|
    ensures r == [] || (r[0] == '.' && '.' !in r[1..])
    ensures forall k :: 0 <= k < |r| ==> !('A' <= r[k] <= 'Z')
  {
    LowerKeepsDots(SplitExt(fileName).1);
    Lower(SplitExt(fileName).1)
  }

  /**
   * The classification key of a base name (FileSorter.py:575-584): the sentinel when the
   * suffix is empty or a bare dot, otherwise the lower-cased text after the dot, and the
   * sentinel again if that text came out empty.
   */
  function ExtensionKey(fileName: string): (r: string)
    ensures r != []
  {
    var ext := FileExtension(fileName);
    var key :=
      if ext == [] || (ext == "." && !EndsWith(fileName, "..")) then NoExtensionKeyword
      else Lower(ext[1..]);
    if key == [] then NoExtensionKeyword else key
  }

  /** The Unix branch of `is_system_or_hidden` (FileSorter.py:160-161). */
  predicate IsHidden(p: string) {
    StartsWith(BaseName(p), ".")
  }

  /** The protected-root comparison of FileSorter.py:545 on normalised paths. */
  predicate UnderRoot(target: string, forbidden: string) {
    target == forbidden || StartsWith(target + [Sep], forbidden + [Sep])
  }

  // ---------------------------------------------------------------------------
  // Lemmas
  // ---------------------------------------------------------------------------

  lemma LowerKeepsDots(s: string)
    ensures |Lower(s)| == |s|
    ensures forall k :: 0 <= k < |s| ==> (Lower(s)[k] == '.' <==> s[k] == '.')
    ensures forall k :: 0 <= k < |s| ==> !('A' <= Lower(s)[k] <= 'Z')
  {
  }

  /** Lower-casing commutes with dropping the first character. */
  lemma LowerTail(s: string)
    requires s != []
    ensures Lower(s)[1..] == Lower(s[1..])
  {
    assert forall k :: 0 <= k < |s| - 1 ==> Lower(s)[1..][k] == Lower(s[1..])[k];
  }

  /**
   * The key is the sentinel when splitext yields no suffix or a bare dot, and otherwise the
   * lower-cased suffix without its dot.
   */
  lemma ExtensionKeyCases(fileName: string)
    ensures var ext := SplitExt(fileName).1;
            (ext == [] || ext == "." ==> ExtensionKey(fileName) == NoExtensionKeyword) &&
            (|ext| >= 2 ==> ExtensionKey(fileName) == Lower(ext[1..]))
  {
    var ext := SplitExt(fileName).1;
    if |ext| >= 2 {
      var low := Lower(ext[1..]);
      LowerTail(ext);
      LowerKeepsDots(ext[1..]);
      LowerOfLowerCase(low);
    } else if |ext| == 1 {
      assert ext == ".";
      assert Lower(ext) == ".";
    }
  }

  /** The extension key is never empty and carries no dot and no upper-case letter. */
  lemma ExtensionKeyShape(fileName: string)
    ensures ExtensionKey(fileName) != []
    ensures '.' !in ExtensionKey(fileName)
    ensures forall k :: 0 <= k < |ExtensionKey(fileName)| ==> !('A' <= ExtensionKey(fileName)[k] <= 'Z')
  {
    var ext := SplitExt(fileName).1;
    ExtensionKeyCases(fileName);
    var key := ExtensionKey(fileName);
    if |ext| >= 2 && key != NoExtensionKeyword {
      LowerKeepsDots(ext[1..]);
      assert forall k :: 0 <= k < |ext| - 1 ==> ext[1..][k] != '.';
    } else {
      assert key == NoExtensionKeyword;
      assert forall k :: 0 <= k < |NoExtensionKeyword| ==> NoExtensionKeyword[k] != '.';
    }
  }

  /**
   * The key of a base name, stated without splitext: with d the last dot, the key is the
   * lower-cased text after d when something follows d and some character before d is not
   * a dot (leading dots do not start an extension); in every other case it is the sentinel.
   */
  lemma {:induction false} ExtensionKeyOfBaseName(name: string)
    requires Sep !in name
    ensures var d := LastIndexOf(name, '.');
            if 0 <= d < |name| - 1 && HasNonDot(name, 0, d)
            then ExtensionKey(name) == Lower(name[d + 1..])
            else ExtensionKey(name) == NoExtensionKeyword
  {
    var d := LastIndexOf(name, '.');
    SuffixOfBaseName(name);
    ExtensionKeyCases(name);
    if 0 <= d < |name| - 1 && HasNonDot(name, 0, d) {
      assert name[d..][1..] == name[d + 1..];
    }
  }

  /** For a base name, the splitext suffix starts at the last dot, unless only dots precede it. */
  lemma SuffixOfBaseName(name: string)
    requires Sep !in name
    ensures var d := LastIndexOf(name, '.');
            SplitExt(name).1 == if 0 <= d && HasNonDot(name, 0, d) then name[d..] else []
  {
    assert LastIndexOf(name, Sep) == -1;
  }

  /**
   * A name `stem.ext` whose stem holds some character other than a dot and whose `ext` is
   * non-empty and dot-free is classified by `ext`, lower-cased.
   */
  lemma KeyOfStemAndSuffix(stem: string, ext: string)
    requires Sep !in stem && Sep !in ext && '.' !in ext && ext != []
    requires HasNonDot(stem, 0, |stem|)
    ensures ExtensionKey(stem + "." + ext) == Lower(ext)
  {
    var n := stem + "." + ext;
    var d := |stem|;
    assert n[d] == '.';
    assert forall j :: d < j < |n| ==> n[j] == ext[j - d - 1];
    assert LastIndexOf(n, '.') == d;
    assert Sep !in n by {
      assert forall j :: 0 <= j < d ==> n[j] == stem[j];
    }
    var k :| 0 <= k < d && stem[k] != '.';
    assert n[k] == stem[k];
    ExtensionKeyOfBaseName(n);
    assert n[d + 1..] == ext;
  }

  /** `report.PDF` is classified under `pdf`. */
  lemma ReportPdfKey()
    ensures ExtensionKey("report.PDF") == "pdf"
  {
    assert |"report" + "." + "PDF"| == 10 &&
           forall i :: 0 <= i < 10 ==> ("report" + "." + "PDF")[i] == "report.PDF"[i];
    assert "report" + "." + "PDF" == "report.PDF";
    assert "report"[0] != '.';
    KeyOfStemAndSuffix("report", "PDF");
  }

  /** `splitext("a.txt")` is `("a", ".txt")`. */
  lemma SplitExtOfTxt()
    ensures SplitExt("a.txt") == ("a", ".txt")
  {
    var p := "a.txt";
    assert LastIndexOf(p, Sep) == -1;
    assert LastIndexOf(p, '.') == 1 by {
      assert p[1] == '.';
    }
    assert p[0] != '.';
    assert HasNonDot(p, 0, 1);
    assert p[..1] == "a" && p[1..] == ".txt";
  }

  /** A dot-leading name such as `.bashrc` has no extension. */
  lemma DotFileHasNoExtension(rest: string)
    requires Sep !in rest && '.' !in rest
    ensures ExtensionKey("." + rest) == NoExtensionKeyword
  {
    var n := "." + rest;
    assert Sep !in n;
    assert LastIndexOf(n, '.') == 0 by {
      assert n[0] == '.';
      assert forall j :: 0 < j < |n| ==> n[j] == rest[j - 1];
    }
    ExtensionKeyOfBaseName(n);
  }

  /** A name ending in a bare dot has no extension. */
  lemma TrailingDotHasNoExtension(stem: string)
    requires Sep !in stem
    ensures ExtensionKey(stem + ".") == NoExtensionKeyword
  {
    var n := stem + ".";
    assert Sep !in n;
    assert LastIndexOf(n, '.') == |n| - 1;
    ExtensionKeyOfBaseName(n);
  }

  lemma LowerOfLowerCase(s: string)
    requires forall k :: 0 <= k < |s| ==> !('A' <= s[k] <= 'Z')
    ensures Lower(s) == s
  {
  }

  /** The sentinel is a plain, dot-free, lower-case word. */
  lemma SentinelShape()
    ensures Sep !in NoExtensionKeyword && '.' !in NoExtensionKeyword
    ensures Lower(NoExtensionKeyword) == NoExtensionKeyword
  {
    LowerOfLowerCase(NoExtensionKeyword);
  }

  /** A base name without any dot has no extension. */
  lemma DotlessHasNoExtension(name: string)
    requires Sep !in name && '.' !in name
    ensures ExtensionKey(name) == NoExtensionKeyword
  {
    assert LastIndexOf(name, '.') == -1;
    ExtensionKeyOfBaseName(name);
  }

  /** A file whose suffix spells the sentinel shares its key with the same stem without a suffix. */
  lemma SentinelSuffixCollides(stem: string)
    requires stem != [] && Sep !in stem && '.' !in stem
    ensures ExtensionKey(stem + "." + NoExtensionKeyword) == ExtensionKey(stem) == NoExtensionKeyword
  {
    SentinelShape();
    assert HasNonDot(stem, 0, |stem|) by {
      assert stem[0] != '.';
    }
    KeyOfStemAndSuffix(stem, NoExtensionKeyword);
    DotlessHasNoExtension(stem);
  }

  /** `str.strip()` leaves a string alone when neither end is blank. */
  lemma StripKeeps(s: string)
    requires s != [] && !IsSpace(s[0]) && !IsSpace(s[|s| - 1])
    ensures Strip(s) == s
  {
    assert StripStart(s) == s;
  }

  /** The base name of a joined path is the name joined on, when that name holds no separator. */
  lemma BaseNameOfJoin(d: string, n: string)
    requires Sep !in n
    ensures BaseName(Join(d, n)) == n
  {
    var p := Join(d, n);
    var i := LastIndexOf(p, Sep);
    assert p[|p| - |n|..] == n;
    assert forall j :: |p| - |n| <= j < |p| ==> p[j] == n[j - (|p| - |n|)];
    if p == d + [Sep] + n {
      assert p[|d|] == Sep;
    } else if p == d + n {
      assert d != [] ==> p[|d| - 1] == Sep;
    }
    assert i == |p| - |n| - 1;
  }

  /**
   * A folder joined directly under `d` is never a path one level deeper under `d`: with plain
   * names, `join(d, c)` differs from `join(join(d, c2), n)`.
   */
  lemma NestedJoinDiffers(d: string, c: string, c2: string, n: string)
    requires c != [] && Sep !in c && c2 != [] && Sep !in c2 && Sep !in n
    ensures Join(d, c) != Join(Join(d, c2), n)
  {
    var h := if d == [] || d[|d| - 1] == Sep then d else d + [Sep];
    assert Join(d, c) == h + c;
    assert Join(d, c2) == h + c2;
    var deeper := h + c2 + [Sep] + n;
    assert Join(Join(d, c2), n) == deeper by {
      if n != [] {
        assert n[0] != Sep;
      }
    }
    assert deeper[|h| + |c2|] == Sep;
    assert forall k :: |h| <= k < |h + c| ==> (h + c)[k] == c[k - |h|];
  }

  /** A normalised directory path: non-empty and without a trailing separator unless it is `/`. */
  predicate Normalized(d: string) {
    d != [] && (d == [Sep] || d[|d| - 1] != Sep)
  }

  lemma RStripNoTrailing(s: string)
    requires s != [] && s[|s| - 1] != Sep
    ensures RStrip(s + [Sep], Sep) == s
  {
    assert (s + [Sep])[..|s|] == s;
  }

  /** The directory of a file joined onto a normalised directory is that directory. */
  lemma DirNameOfJoin(d: string, n: string)
    requires Normalized(d) && n != [] && Sep !in n
    ensures DirName(Join(d, n)) == d
  {
    var p := Join(d, n);
    BaseNameOfJoin(d, n);
    var i := LastIndexOf(p, Sep);
    assert i == |p| - |n| - 1;
    if d == [Sep] {
      assert p == [Sep] + n;
      assert p[..i + 1] == [Sep];
    } else {
      assert p == d + [Sep] + n;
      assert p[..i + 1] == d + [Sep];
      assert (d + [Sep])[|d| - 1] != Sep;
      RStripNoTrailing(d);
    }
  }

  /**
   * The protected-root test holds exactly when the target is the forbidden path itself or
   * lies beneath it, one separator further down.
   */
  lemma UnderRootIff(target: string, forbidden: string)
    ensures UnderRoot(target, forbidden) <==>
            target == forbidden || exists rest :: target == forbidden + [Sep] + rest
  {
    if StartsWith(target + [Sep], forbidden + [Sep]) && target != forbidden {
      var t := target + [Sep];
      assert |forbidden| < |target| by {
        assert t[..|t| - 1] == target;
      }
      var rest := target[|forbidden| + 1..];
      assert target == target[..|forbidden| + 1] + rest;
      assert target[..|forbidden| + 1] == t[..|forbidden| + 1];
    }
    if exists rest :: target == forbidden + [Sep] + rest {
      var rest :| target == forbidden + [Sep] + rest;
      assert target + [Sep] == forbidden + [Sep] + (rest + [Sep]);
    }
  }

  /** `/usr/bin` lies under `/usr`; `/usrlocal` does not. */
  lemma UnderRootExamples()
    ensures UnderRoot("/usr/bin", "/usr")
    ensures !UnderRoot("/usrlocal", "/usr")
  {
    UnderRootIff("/usr/bin", "/usr");
    assert "/usr/bin" == "/usr" + [Sep] + "bin";
    assert ("/usrlocal" + [Sep])[4] != ("/usr" + [Sep])[4];
  }
}
