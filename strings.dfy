/**
 * The parts of Python's `str` that the deployment helpers rely on: prefix and
 * suffix tests, `find`, `split`, `join`, `strip`, `rstrip`, `splitlines`,
 * `replace(pat, "")`, slicing, `str(int)` and the ordering `sorted` uses.
 */
module Strings {
  import opened Wrappers

  predicate OccursAt(s: string, p: string, i: nat) {
    i + |p| <= |s| && s[i..i + |p|] == p
  }

  /** A one-character pattern occurs exactly where that character stands. */
  lemma OccursAtChar(s: string, c: char)
    ensures forall j :: 0 <= j < |s| ==> (OccursAt(s, [c], j) <==> s[j] == c)
  {
    forall j | 0 <= j < |s| ensures OccursAt(s, [c], j) <==> s[j] == c {
      assert s[j..j + 1] == [s[j]];
    }
  }

  /** One differing character rules an occurrence out. */
  lemma Mismatch(s: string, p: string, j: nat, m: nat)
    requires j + |p| <= |s| && m < |p| && s[j + m] != p[m]
    ensures !OccursAt(s, p, j)
  {
    assert s[j..j + |p|][m] == s[j + m];
  }

  predicate StartsWith(s: string, p: string) {
    OccursAt(s, p, 0)
  }

  predicate EndsWith(s: string, p: string) {
    |p| <= |s| && OccursAt(s, p, |s| - |p|)
  }

  predicate Contains(s: string, p: string) {
    exists i: nat | i <= |s| :: OccursAt(s, p, i)
  }

  /** `s.find(p, from)`: the leftmost occurrence of `p` at or after `from`. */
  function Find(s: string, p: string, from: nat): (r: Option<nat>)
    decreases |s| - from
    ensures r.Some? ==> from <= r.value && OccursAt(s, p, r.value)
    ensures forall j: nat :: from <= j && (r.Some? ==> j < r.value) ==> !OccursAt(s, p, j)
  {
    if |s| < from + |p| then None
    else if OccursAt(s, p, from) then Some(from)
    else Find(s, p, from + 1)
  }

  lemma NotFound(s: string, p: string, from: nat)
    requires forall j: nat :: from <= j ==> !OccursAt(s, p, j)
    ensures Find(s, p, from) == None
  {
  }

  lemma FoundAt(s: string, p: string, from: nat, i: nat)
    requires from <= i && OccursAt(s, p, i)
    requires forall j: nat :: from <= j < i ==> !OccursAt(s, p, j)
    ensures Find(s, p, from) == Some(i)
  {
  }

  /** `s.split(sep)` for a non-empty separator: the pieces between the leftmost non-overlapping occurrences. */
  function Split(s: string, sep: string): (r: seq<string>)
    requires sep != []
    decreases |s|
    ensures |r| >= 1
  {
    match Find(s, sep, 0)
    case None => [s]
    case Some(i) => [s[..i]] + Split(s[i + |sep|..], sep)
  }

  lemma SplitUnfound(s: string, sep: string)
    requires sep != [] && Find(s, sep, 0).None?
    ensures Split(s, sep) == [s]
  {
  }

  lemma SplitFirst(s: string, sep: string, i: nat)
    requires sep != [] && Find(s, sep, 0) == Some(i)
    ensures Split(s, sep)[0] == s[..i]
  {
  }

  /** `sep.join(parts)`. */
  function Join(parts: seq<string>, sep: string): string
    decreases |parts|
  {
    if |parts| == 0 then ""
    else if |parts| == 1 then parts[0]
    else parts[0] + sep + Join(parts[1..], sep)
  }

  /** Joining the pieces of a split with the same separator gives back the string. */
  lemma {:induction false} JoinSplit(s: string, sep: string)
    requires sep != []
    decreases |s|
    ensures Join(Split(s, sep), sep) == s
  {
    match Find(s, sep, 0)
    case None =>
    case Some(i) =>
      var rest := s[i + |sep|..];
      var pieces := Split(rest, sep);
      var all := [s[..i]] + pieces;
      assert Split(s, sep) == all;
      assert |all| >= 2 && all[0] == s[..i] && all[1..] == pieces;
      assert Join(all, sep) == s[..i] + sep + Join(pieces, sep);
      JoinSplit(rest, sep);
      assert s == s[..i] + s[i..i + |sep|] + rest;
  }

  /** Splitting a join at a one-character separator that no part contains gives back the parts. */
  lemma {:induction false} SplitJoin(parts: seq<string>, c: char)
    requires |parts| >= 1
    requires forall k :: 0 <= k < |parts| ==> c !in parts[k]
    decreases |parts|
    ensures Split(Join(parts, [c]), [c]) == parts
  {
    var s := Join(parts, [c]);
    var p0 := parts[0];
    if |parts| == 1 {
      assert s == p0;
      forall j: nat | j < |s| ensures !OccursAt(s, [c], j) {
        assert s[j..j + 1] == [p0[j]] && p0[j] in p0;
      }
      assert Find(s, [c], 0) == None;
    } else {
      var rest := Join(parts[1..], [c]);
      assert s == p0 + [c] + rest;
      assert OccursAt(s, [c], |p0|) by { assert s[|p0|] == c; }
      forall j: nat | j < |p0| ensures !OccursAt(s, [c], j) {
        assert s[j..j + 1] == [p0[j]] && p0[j] in p0;
      }
      assert Find(s, [c], 0) == Some(|p0|);
      assert s[..|p0|] == p0;
      assert s[|p0| + 1..] == rest;
      SplitJoin(parts[1..], c);
    }
  }

  /** The longest prefix of `s` that does not end in a character `drop` accepts. */
  function TrimEnd(s: string, drop: char -> bool): (r: string)
    ensures |r| <= |s| && r == s[..|r|]
    ensures r == [] || !drop(r[|r| - 1])
    ensures forall i :: |r| <= i < |s| ==> drop(s[i])
  {
    if s != [] && drop(s[|s| - 1]) then TrimEnd(s[..|s| - 1], drop) else s
  }

  /** The longest suffix of `s` that does not start with a character `drop` accepts. */
  function TrimStart(s: string, drop: char -> bool): (r: string)
    ensures |r| <= |s| && r == s[|s| - |r|..]
    ensures r == [] || !drop(r[0])
    ensures forall i :: 0 <= i < |s| - |r| ==> drop(s[i])
  {
    if s != [] && drop(s[0]) then TrimStart(s[1..], drop) else s
  }

  /** `s.rstrip(c)` for a single character. */
  function RStrip(s: string, c: char): string {
    TrimEnd(s, ch => ch == c)
  }

  /** Stripping one trailing `c` off a string that does not end in `c`. */
  lemma RStripOne(s: string, c: char)
    requires s == [] || s[|s| - 1] != c
    ensures RStrip(s + [c], c) == s
  {
    assert (s + [c])[..|s|] == s;
  }

  /** The characters `str.isspace()` accepts. */
  predicate IsSpace(c: char) {
    || c == ' ' || c == '\t' || c == '\n' || c == '\r'
    || c == '\U{000B}' || c == '\U{000C}'
    || ('\U{001C}' <= c <= '\U{001F}')
    || c == '\U{0085}' || c == '\U{00A0}' || c == '\U{1680}'
    || ('\U{2000}' <= c <= '\U{200A}')
    || c == '\U{2028}' || c == '\U{2029}' || c == '\U{202F}' || c == '\U{205F}' || c == '\U{3000}'
  }

  /** `s.strip()`. */
  function Strip(s: string): string {
    TrimEnd(TrimStart(s, IsSpace), IsSpace)
  }

  /** A line strips to nothing exactly when every character of it is whitespace. */
  lemma StripEmptyIff(s: string)
    ensures Strip(s) == [] <==> forall i :: 0 <= i < |s| ==> IsSpace(s[i])
  {
    var t := TrimStart(s, IsSpace);
    if Strip(s) == [] {
      forall i | 0 <= i < |s| ensures IsSpace(s[i]) {
        if i >= |s| - |t| {
          assert s[i] == t[i - (|s| - |t|)];
        }
      }
    }
  }

  /** The line boundaries `str.splitlines()` recognises (besides the pair "\r\n"). */
  predicate IsLineBreak(c: char) {
    || c == '\n' || c == '\r' || c == '\U{000B}' || c == '\U{000C}'
    || c == '\U{001C}' || c == '\U{001D}' || c == '\U{001E}'
    || c == '\U{0085}' || c == '\U{2028}' || c == '\U{2029}'
  }

  /** The first line boundary at or after `from`, or `|s|`. */
  function LineEnd(s: string, from: nat): (r: nat)
    requires from <= |s|
    decreases |s| - from
    ensures from <= r <= |s|
    ensures r < |s| ==> IsLineBreak(s[r])
    ensures forall i :: from <= i < r ==> !IsLineBreak(s[i])
  {
    if from == |s| || IsLineBreak(s[from]) then from else LineEnd(s, from + 1)
  }

  /** `s.splitlines()`: a final boundary does not start an extra empty line. */
  function SplitLines(s: string): (r: seq<string>)
    decreases |s|
    ensures forall k, i :: 0 <= k < |r| && 0 <= i < |r[k]| ==> !IsLineBreak(r[k][i])
  {
    if s == [] then []
    else
      var e := LineEnd(s, 0);
      if e == |s| then [s]
      else
        var next := if s[e] == '\r' && e + 1 < |s| && s[e + 1] == '\n' then e + 2 else e + 1;
        [s[..e]] + SplitLines(s[next..])
  }

  /** `s.replace(pat, "")`: removes the leftmost non-overlapping occurrences of `pat`. */
  function RemoveAll(s: string, pat: string): (r: string)
    requires pat != []
    decreases |s|
    ensures |r| <= |s|
  {
    if |s| < |pat| then s
    else if OccursAt(s, pat, 0) then RemoveAll(s[|pat|..], pat)
    else [s[0]] + RemoveAll(s[1..], pat)
  }

  /**
   * Removing a character leaves none of it and keeps every other character that occurs; a
   * string without the character is left as it is.
   */
  lemma {:induction false} RemoveAllChar(s: string, c: char)
    decreases |s|
    ensures c !in RemoveAll(s, [c])
    ensures forall d :: d != c ==> (d in RemoveAll(s, [c]) <==> d in s)
    ensures c !in s ==> RemoveAll(s, [c]) == s
  {
    if |s| >= 1 {
      RemoveAllChar(s[1..], c);
      assert s == [s[0]] + s[1..];
      if s[0] == c {
        assert OccursAt(s, [c], 0) by { assert s[0..1] == [c]; }
      } else {
        Mismatch(s, [c], 0, 0);
      }
    }
  }

  /** Appending `pat` and removing every occurrence undoes the append, when no occurrence starts inside `s`. */
  lemma {:induction false} RemoveAppended(s: string, pat: string)
    requires pat != []
    requires forall i: nat :: i < |s| ==> !OccursAt(s + pat, pat, i)
    decreases |s|
    ensures RemoveAll(s + pat, pat) == s
  {
    var t := s + pat;
    if s == [] {
      assert t == pat && OccursAt(t, pat, 0);
      assert t[|pat|..] == [];
    } else {
      assert !OccursAt(t, pat, 0);
      assert t[1..] == s[1..] + pat;
      forall i: nat | i < |s[1..]| ensures !OccursAt(s[1..] + pat, pat, i) {
        assert !OccursAt(t, pat, i + 1);
        assert t[i + 1..i + 1 + |pat|] == t[1..][i..i + |pat|];
      }
      RemoveAppended(s[1..], pat);
      assert t == [s[0]] + t[1..];
    }
  }

  /** `s[:n]`. */
  function Truncate(s: string, n: nat): (r: string)
    ensures |r| <= n && |r| <= |s| && r == s[..|r|]
    ensures |r| == if |s| <= n then |s| else n
  {
    if |s| <= n then s else s[..n]
  }

  function Digit(d: nat): char
    requires d < 10
  {
    "0123456789"[d]
  }

  /** `str(n)` for a natural number. */
  function NatToString(n: nat): (r: string)
    ensures r != []
    ensures forall i :: 0 <= i < |r| ==> '0' <= r[i] <= '9'
  {
    if n < 10 then [Digit(n)] else NatToString(n / 10) + [Digit(n % 10)]
  }

  /** Python's ordering of strings: lexicographic by code point. */
  predicate LessEq(a: string, b: string)
    decreases |a|
  {
    a == [] || (b != [] && (a[0] < b[0] || (a[0] == b[0] && LessEq(a[1..], b[1..]))))
  }

  predicate Less(a: string, b: string) {
    LessEq(a, b) && a != b
  }

  lemma {:induction false} LessEqReflexive(a: string)
    decreases |a|
    ensures LessEq(a, a)
  {
    if a != [] { LessEqReflexive(a[1..]); }
  }

  lemma {:induction false} LessEqTotal(a: string, b: string)
    decreases |a|
    ensures LessEq(a, b) || LessEq(b, a)
  {
    if a != [] && b != [] && a[0] == b[0] { LessEqTotal(a[1..], b[1..]); }
  }

  lemma {:induction false} LessEqAntisymmetric(a: string, b: string)
    requires LessEq(a, b) && LessEq(b, a)
    decreases |a|
    ensures a == b
  {
    if a != [] && b != [] {
      LessEqAntisymmetric(a[1..], b[1..]);
      assert a == [a[0]] + a[1..] && b == [b[0]] + b[1..];
    }
  }

  lemma {:induction false} LessEqTransitive(a: string, b: string, c: string)
    requires LessEq(a, b) && LessEq(b, c)
    decreases |a|
    ensures LessEq(a, c)
  {
    if a != [] && b != [] && c != [] && a[0] == b[0] && b[0] == c[0] {
      LessEqTransitive(a[1..], b[1..], c[1..]);
    }
  }

  predicate IsLeast(m: string, s: set<string>) {
    m in s && forall x :: x in s ==> LessEq(m, x)
  }

  /** Every non-empty finite set of strings has a least element. */
  lemma {:induction false} LeastExists(s: set<string>)
    requires s != {}
    decreases |s|
    ensures exists m :: IsLeast(m, s)
  {
    var x :| x in s;
    if s == {x} {
      LessEqReflexive(x);
      assert IsLeast(x, s);
    } else {
      LeastExists(s - {x});
      var m :| IsLeast(m, s - {x});
      LessEqTotal(x, m);
      if LessEq(x, m) {
        LessEqReflexive(x);
        forall y | y in s ensures LessEq(x, y) {
          if y != x { LessEqTransitive(x, m, y); }
        }
        assert IsLeast(x, s);
      } else {
        assert IsLeast(m, s);
      }
    }
  }
}
