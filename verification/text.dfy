/**
 * Character and string helpers shared by the model: the two whitespace classes
 * (Rust's `char::is_whitespace` and ECMAScript's `trim`/`\s`), trimming,
 * splitting on a character, joining, prefix and substring search, ASCII case.
 */
module Text {
  import opened Wrappers

  /** Rust's `char::is_whitespace`: the Unicode White_Space property. */
  predicate IsRustSpace(c: char) {
    ('\t' <= c <= '\r') || c == ' ' || c == '\U{0085}' || c == '\U{00A0}' || c == '\U{1680}'
    || ('\U{2000}' <= c <= '\U{200A}') || c == '\U{2028}' || c == '\U{2029}'
    || c == '\U{202F}' || c == '\U{205F}' || c == '\U{3000}'
  }

  /** ECMAScript WhiteSpace and LineTerminator, as used by `trim` and `\s`. */
  predicate IsJsSpace(c: char) {
    ('\t' <= c <= '\r') || c == ' ' || c == '\U{00A0}' || c == '\U{1680}'
    || ('\U{2000}' <= c <= '\U{200A}') || c == '\U{2028}' || c == '\U{2029}'
    || c == '\U{202F}' || c == '\U{205F}' || c == '\U{3000}' || c == '\U{FEFF}'
  }

  /** ECMAScript LineTerminator: the characters `.` does not match. */
  predicate IsJsLineTerminator(c: char) {
    c == '\n' || c == '\r' || c == '\U{2028}' || c == '\U{2029}'
  }

  /** True when `s` neither starts nor ends with a character of class `sp`. */
  predicate Trimmed(s: string, sp: char -> bool) {
    s == [] || (!sp(s[0]) && !sp(s[|s| - 1]))
  }

  /** Drops the leading characters of class `sp`. */
  function TrimStart(s: string, sp: char -> bool): (r: string)
    ensures |r| <= |s| && r == s[|s| - |r|..]
    ensures r == [] || !sp(r[0])
    ensures forall k :: 0 <= k < |s| - |r| ==> sp(s[k])
    decreases |s|
  {
    if s != [] && sp(s[0]) then
      var t := s[1..];
      var r := TrimStart(t, sp);
      assert r == s[|s| - |r|..] by {
        assert t[|t| - |r|..] == s[|s| - |r|..];
      }
      assert forall k :: 1 <= k < |s| - |r| ==> sp(s[k]) by {
        assert forall k :: 1 <= k < |s| - |r| ==> s[k] == t[k - 1];
      }
      r
    else s
  }

  /** Drops the trailing characters of class `sp`. */
  function TrimEnd(s: string, sp: char -> bool): (r: string)
    ensures |r| <= |s| && r == s[..|r|]
    ensures r == [] || !sp(r[|r| - 1])
    ensures forall k :: |r| <= k < |s| ==> sp(s[k])
    decreases |s|
  {
    if s != [] && sp(s[|s| - 1]) then TrimEnd(s[..|s| - 1], sp) else s
  }

  /** Drops the characters of class `sp` at both ends (`str::trim`, `String.prototype.trim`). */
  function Trim(s: string, sp: char -> bool): (r: string)
    ensures Trimmed(r, sp)
    ensures |r| <= |s|
  {
    var t := TrimStart(s, sp);
    var r := TrimEnd(t, sp);
    assert r != [] ==> r[0] == t[0];
    r
  }

  lemma TrimOfTrimmed(s: string, sp: char -> bool)
    requires Trimmed(s, sp)
    ensures Trim(s, sp) == s
  {
  }

  /** A leading character of the class is trimmed away. */
  lemma TrimSkipsLead(c: char, s: string, sp: char -> bool)
    requires sp(c)
    ensures Trim([c] + s, sp) == Trim(s, sp)
  {
    assert ([c] + s)[1..] == s;
  }

  /** Trimming never introduces a character that was absent from the input. */
  lemma TrimKeepsAbsence(s: string, sp: char -> bool, c: char)
    requires c !in s
    ensures c !in Trim(s, sp)
  {
  }

  /** Trimming keeps only characters of the input, so a class every input character is in. */
  lemma TrimKeepsClass(s: string, sp: char -> bool, p: char -> bool)
    requires forall k :: 0 <= k < |s| ==> p(s[k])
    ensures forall k :: 0 <= k < |Trim(s, sp)| ==> p(Trim(s, sp)[k])
  {
    var start := TrimStart(s, sp);
    forall k | 0 <= k < |start|
      ensures p(start[k])
    {
      assert start[k] == s[|s| - |start| + k];
    }
    var r := TrimEnd(start, sp);
    assert Trim(s, sp) == r;
    forall k | 0 <= k < |r|
      ensures p(r[k])
    {
      assert r[k] == start[k];
    }
  }

  /** True when every character is of class `sp` (a "blank" string). */
  predicate Blank(s: string, sp: char -> bool) {
    forall k :: 0 <= k < |s| ==> sp(s[k])
  }

  lemma TrimEmptyIffBlank(s: string, sp: char -> bool)
    ensures Trim(s, sp) == [] <==> Blank(s, sp)
  {
    var t := TrimStart(s, sp);
    if !Blank(s, sp) {
      var k :| 0 <= k < |s| && !sp(s[k]);
      assert |s| - |t| <= k;
    }
  }

  /** Splits on every occurrence of `c`, keeping empty pieces: `"".split(c)` is `[""]`. */
  function Split(s: string, c: char): (r: seq<string>)
    ensures |r| >= 1
    decreases |s|
  {
    if s == [] then [""]
    else
      var rest := Split(s[1..], c);
      if s[0] == c then [""] + rest else [[s[0]] + rest[0]] + rest[1..]
  }

  /**
   * The lines of a text, as `str::lines` gives them to a caller that trims
   * every line and ignores empty ones: Rust also drops a final empty line and a
   * `\r` before each `\n`, and both vanish under the trim.
   */
  function Lines(text: string): seq<string> {
    Split(text, '\n')
  }

  lemma SplitPiecesFree(s: string, c: char)
    ensures forall p :: p in Split(s, c) ==> c !in p
    decreases |s|
  {
    if s != [] { SplitPiecesFree(s[1..], c); }
  }

  /** A character absent from the input is absent from every piece. */
  lemma SplitPiecesKeepAbsence(s: string, c: char, d: char)
    requires d !in s
    ensures forall p :: p in Split(s, c) ==> d !in p
    decreases |s|
  {
    if s != [] {
      assert d !in s[1..];
      SplitPiecesKeepAbsence(s[1..], c, d);
    }
  }

  /** Joins the pieces with `sep` between consecutive ones. */
  function Join(parts: seq<string>, sep: string): string {
    if |parts| == 0 then ""
    else if |parts| == 1 then parts[0]
    else parts[0] + sep + Join(parts[1..], sep)
  }

  /** Joining one more piece onto a non-empty list puts the separator before it. */
  lemma {:induction false} JoinSnoc(parts: seq<string>, sep: string, x: string)
    requires |parts| >= 1
    ensures Join(parts + [x], sep) == Join(parts, sep) + sep + x
  {
    if |parts| == 1 {
      assert (parts + [x])[1..] == [x];
    } else {
      assert (parts + [x])[1..] == parts[1..] + [x];
      JoinSnoc(parts[1..], sep, x);
    }
  }

  /** Joining pieces whose first one is non-empty gives a non-empty string. */
  lemma JoinNonEmpty(parts: seq<string>, sep: string)
    requires parts != [] && parts[0] != ""
    ensures Join(parts, sep) != ""
  {
    if |parts| > 1 {
      assert Join(parts, sep) == parts[0] + sep + Join(parts[1..], sep);
    }
  }

  /** The longest prefix of `s` without a character of class `sp`. */
  function TakeWord(s: string, sp: char -> bool): (w: string)
    ensures w <= s
    ensures forall k :: 0 <= k < |w| ==> !sp(w[k])
    ensures |w| < |s| ==> sp(s[|w|])
  {
    if s == [] || sp(s[0]) then [] else [s[0]] + TakeWord(s[1..], sp)
  }

  /** The maximal runs of characters outside class `sp` (`split_whitespace`, `split(/\s+/)` without blanks). */
  function Words(s: string, sp: char -> bool): (r: seq<string>)
    ensures forall w :: w in r ==> IsWord(w, sp)
    decreases |s|
  {
    var t := TrimStart(s, sp);
    if t == [] then []
    else
      var w := TakeWord(t, sp);
      assert w != [] by { assert !sp(t[0]); }
      [w] + Words(t[|w|..], sp)
  }

  /** A non-empty run of characters outside class `sp`. */
  predicate IsWord(w: string, sp: char -> bool) {
    w != [] && forall k :: 0 <= k < |w| ==> !sp(w[k])
  }

  lemma SplitOfFree(a: string, c: char)
    requires c !in a
    ensures Split(a, c) == [a]
    decreases |a|
  {
    if a != [] {
      SplitOfFree(a[1..], c);
      assert [a[0]] + a[1..] == a;
    }
  }

  lemma SplitAppend(a: string, c: char, b: string)
    requires c !in a
    ensures Split(a + [c] + b, c) == [a] + Split(b, c)
    decreases |a|
  {
    if a == [] {
      assert a + [c] + b == [c] + b;
      assert ([c] + b)[1..] == b;
    } else {
      assert (a + [c] + b)[1..] == a[1..] + [c] + b;
      SplitAppend(a[1..], c, b);
      assert [a[0]] + a[1..] == a;
    }
  }

  /** Splitting what was joined on a separator absent from every piece gives the pieces back. */
  lemma {:induction false} SplitJoin(parts: seq<string>, c: char)
    requires |parts| >= 1
    requires forall p :: p in parts ==> c !in p
    ensures Split(Join(parts, [c]), c) == parts
  {
    if |parts| == 1 {
      SplitOfFree(parts[0], c);
    } else {
      SplitJoin(parts[1..], c);
      SplitAppend(parts[0], c, Join(parts[1..], [c]));
      assert parts == [parts[0]] + parts[1..];
    }
  }

  /** `s` begins with `p`. */
  predicate StartsWith(s: string, p: string) {
    |p| <= |s| && s[..|p|] == p
  }

  /** `s` ends with `p`. */
  predicate EndsWith(s: string, p: string) {
    |p| <= |s| && s[|s| - |p|..] == p
  }

  /** `pat` occurs in `s` starting at index `j`. */
  predicate OccursAt(s: string, pat: string, j: int) {
    0 <= j && j + |pat| <= |s| && s[j..j + |pat|] == pat
  }

  /** Past a prefix, an occurrence is an occurrence in what follows it. */
  lemma OccursAfterPrefix(p: string, s: string, pat: string, j: int)
    requires j >= |p|
    ensures OccursAt(p + s, pat, j) == OccursAt(s, pat, j - |p|)
  {
    if j + |pat| <= |p + s| {
      assert (p + s)[j..j + |pat|] == s[j - |p|..j - |p| + |pat|];
    }
  }

  /** The first index at or after `from` where `pat` occurs (`str::find`, `indexOf`). */
  function FindFrom(s: string, pat: string, from: nat): (r: Option<nat>)
    requires from <= |s|
    ensures r.Some? ==> from <= r.value && OccursAt(s, pat, r.value)
    ensures r.Some? ==> forall j :: from <= j < r.value ==> !OccursAt(s, pat, j)
    ensures r.None? ==> forall j :: from <= j ==> !OccursAt(s, pat, j)
    decreases |s| - from
  {
    if OccursAt(s, pat, from) then Some(from)
    else if from + |pat| >= |s| then
      assert forall j :: from < j ==> !OccursAt(s, pat, j);
      None
    else FindFrom(s, pat, from + 1)
  }

  /** An occurrence with none before it, from `from` on, is the one found. */
  lemma FindFromAt(s: string, pat: string, from: nat, k: nat)
    requires from <= k && OccursAt(s, pat, k)
    requires forall j :: from <= j < k ==> !OccursAt(s, pat, j)
    ensures FindFrom(s, pat, from) == Some(k)
  {
  }

  /** `pat` occurs somewhere in `s` (`str::contains`, `includes`). */
  predicate Contains(s: string, pat: string) {
    exists j :: 0 <= j <= |s| && OccursAt(s, pat, j)
  }

  lemma ContainsIffFound(s: string, pat: string)
    ensures Contains(s, pat) <==> FindFrom(s, pat, 0).Some?
  {
  }

  /** The index of the first occurrence of `c`, if any. */
  function IndexOfChar(s: string, c: char): (r: Option<nat>)
    ensures r.Some? ==> r.value < |s| && s[r.value] == c && c !in s[..r.value]
    ensures r.None? ==> c !in s
  {
    if s == [] then None
    else if s[0] == c then Some(0)
    else
      match IndexOfChar(s[1..], c)
      case None => None
      case Some(i) => assert s[..i + 1] == [s[0]] + s[1..][..i]; Some(i + 1)
  }

  /** The first `c` found is the one with no `c` before it. */
  lemma IndexOfCharAt(s: string, c: char, k: nat)
    requires k < |s| && s[k] == c && c !in s[..k]
    ensures IndexOfChar(s, c) == Some(k)
  {
    assert s[k] in s;
  }

  /** The index of the last occurrence of `c`, if any (`rfind`). */
  function LastIndexOfChar(s: string, c: char): (r: Option<nat>)
    ensures r.Some? ==> r.value < |s| && s[r.value] == c && c !in s[r.value + 1..]
    ensures r.None? ==> c !in s
  {
    if s == [] then None
    else if s[|s| - 1] == c then Some(|s| - 1)
    else
      match LastIndexOfChar(s[..|s| - 1], c)
      case None => None
      case Some(i) => assert s[i + 1..] == s[..|s| - 1][i + 1..] + [s[|s| - 1]]; Some(i)
  }

  /** ASCII case folding of one character (`to_ascii_lowercase`). */
  function LowerChar(c: char): char {
    if 'A' <= c <= 'Z' then (c as int + 32) as char else c
  }

  /** Lower-cases the ASCII letters of `s` and leaves every other character alone. */
  function Lower(s: string): (r: string)
    ensures |r| == |s| && forall k :: 0 <= k < |s| ==> r[k] == LowerChar(s[k])
  {
    seq(|s|, k requires 0 <= k < |s| => LowerChar(s[k]))
  }

  /** Lower-casing twice is lower-casing once. */
  lemma LowerIdempotent(s: string)
    ensures Lower(Lower(s)) == Lower(s)
  {
  }

  /** A string without ASCII capitals is its own lower case. */
  lemma LowerIdle(s: string)
    requires forall k :: 0 <= k < |s| ==> !('A' <= s[k] <= 'Z')
    ensures Lower(s) == s
  {
  }

  /** Keeps the elements satisfying `keep`, in order (`Iterator::filter`, `Array.prototype.filter`). */
  function Filter<T(==,!new)>(xs: seq<T>, keep: T -> bool): (r: seq<T>)
    ensures |r| <= |xs|
    ensures forall x :: x in r <==> x in xs && keep(x)
  {
    if xs == [] then []
    else (if keep(xs[0]) then [xs[0]] else []) + Filter(xs[1..], keep)
  }

  /** Some element satisfies `p` exactly when one before the last does, or the last does. */
  lemma ExistsSnoc<T>(xs: seq<T>, p: T -> bool)
    requires xs != []
    ensures (exists i :: 0 <= i < |xs| && p(xs[i])) <==> (exists i :: 0 <= i < |xs| - 1 && p(xs[i])) || p(xs[|xs| - 1])
  {
  }

  /** Concatenation regroups freely. */
  lemma AppendAssociative<T>(a: seq<T>, b: seq<T>, c: seq<T>)
    ensures (a + b) + c == a + (b + c)
  {
  }

  /** The empty sequence is the unit of concatenation. */
  lemma AppendEmpty<T>(s: seq<T>)
    ensures [] + s == s
  {
  }

  lemma FilterAppend<T(!new)>(a: seq<T>, b: seq<T>, keep: T -> bool)
    ensures Filter(a + b, keep) == Filter(a, keep) + Filter(b, keep)
  {
    if a != [] {
      assert (a + b)[0] == a[0];
      assert (a + b)[1..] == a[1..] + b;
      FilterAppend(a[1..], b, keep);
    } else {
      assert a + b == b;
    }
  }

  /** Filtering keeps a sequence whose every element passes as it is. */
  lemma {:induction false} FilterAll<T(!new)>(xs: seq<T>, keep: T -> bool)
    requires forall k :: 0 <= k < |xs| ==> keep(xs[k])
    ensures Filter(xs, keep) == xs
  {
    if xs != [] {
      FilterAll(xs[1..], keep);
      assert [xs[0]] + xs[1..] == xs;
    }
  }

  /** No element occurs twice. */
  predicate NoDuplicates<T(==)>(xs: seq<T>) {
    forall i, j :: 0 <= i < j < |xs| ==> xs[i] != xs[j]
  }

  lemma NoDuplicatesSnoc<T>(xs: seq<T>, x: T)
    requires NoDuplicates(xs) && x !in xs
    ensures NoDuplicates(xs + [x])
  {
    forall i, j | 0 <= i < j < |xs + [x]|
      ensures (xs + [x])[i] != (xs + [x])[j]
    {
      if j == |xs| {
        assert (xs + [x])[i] == xs[i];
      }
    }
  }
}
