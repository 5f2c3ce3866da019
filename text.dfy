/**
 * The handful of Go `strings` operations the package manager relies on,
 * stated over `string` (a sequence of Unicode scalar values), together
 * with the facts about them that the stores and parsers need:
 *   - `TrimSpace` with Go's `unicode.IsSpace` set,
 *   - `Split`/`Join` on a one-character separator, and their round trips,
 *   - substring containment, used to model SQL `LIKE '%v%'`,
 *   - the whole-token match `',' || col || ',' LIKE '%,v,%'`.
 */
module Text {

  /** Go's `unicode.IsSpace`: the Latin-1 spaces and the other White_Space characters. */
  predicate IsSpace(c: char) {
    || c == ' ' || c == '\t' || c == '\n' || c == '\U{000B}' || c == '\U{000C}' || c == '\r'
    || c == '\U{0085}' || c == '\U{00A0}' || c == '\U{1680}'
    || ('\U{2000}' <= c <= '\U{200A}')
    || c == '\U{2028}' || c == '\U{2029}' || c == '\U{202F}' || c == '\U{205F}' || c == '\U{3000}'
  }

  /** Removes leading white space: what is left is a suffix that does not start with white space. */
  function TrimLeft(s: string): (r: string)
    ensures |r| <= |s| && r == s[|s| - |r|..]
    ensures r == [] || !IsSpace(r[0])
  {
    if |s| > 0 && IsSpace(s[0]) then TrimLeft(s[1..]) else s
  }

  /** What `TrimLeft` removes is all white space. */
  lemma {:induction false} TrimLeftRemovesSpace(s: string)
    ensures forall i :: 0 <= i < |s| - |TrimLeft(s)| ==> IsSpace(s[i])
  {
    if |s| > 0 && IsSpace(s[0]) {
      TrimLeftRemovesSpace(s[1..]);
      assert forall i :: 1 <= i < |s| ==> s[i] == s[1..][i - 1];
    }
  }

  /** Removes trailing white space: what is left is a prefix that does not end with white space. */
  function TrimRight(s: string): (r: string)
    ensures |r| <= |s| && r == s[..|r|]
    ensures r == [] || !IsSpace(r[|r| - 1])
  {
    if |s| > 0 && IsSpace(s[|s| - 1]) then TrimRight(s[..|s| - 1]) else s
  }

  /** What `TrimRight` removes is all white space. */
  lemma {:induction false} TrimRightRemovesSpace(s: string)
    ensures forall i :: |TrimRight(s)| <= i < |s| ==> IsSpace(s[i])
  {
    if |s| > 0 && IsSpace(s[|s| - 1]) {
      TrimRightRemovesSpace(s[..|s| - 1]);
    }
  }

  /** Trimming the empty string leaves it empty. */
  lemma TrimEmpty()
    ensures TrimSpace([]) == []
  {
    assert TrimLeft([]) == [];
  }

  /** Go's `strings.TrimSpace`. */
  function TrimSpace(s: string): string {
    TrimRight(TrimLeft(s))
  }

  /** The trimmed string sits at offset `|s| - |TrimLeft(s)|` of the input. */
  lemma TrimSpaceSlice(s: string)
    ensures var i := |s| - |TrimLeft(s)|;
      i + |TrimSpace(s)| <= |s| && s[i..i + |TrimSpace(s)|] == TrimSpace(s)
  {
    var l := TrimLeft(s);
    var r := TrimRight(l);
    var i := |s| - |l|;
    assert l == s[i..] && r == l[..|r|];
    assert s[i..i + |r|] == l[..|r|];
  }

  /** Everything cut off either end of the trimmed string is white space. */
  lemma TrimSpaceCutsSpace(s: string)
    ensures var i := |s| - |TrimLeft(s)|;
      && (forall k :: 0 <= k < i ==> IsSpace(s[k]))
      && (forall k :: i + |TrimSpace(s)| <= k < |s| ==> IsSpace(s[k]))
  {
    var l := TrimLeft(s);
    var i := |s| - |l|;
    TrimLeftRemovesSpace(s);
    TrimRightRemovesSpace(l);
    forall k | i + |TrimRight(l)| <= k < |s| ensures IsSpace(s[k]) {
      assert s[k] == l[k - i];
    }
  }

  /** The trimmed string is a slice `s[i..i + |r|]` of the input with only white space cut off both ends. */
  lemma TrimSpaceIsSlice(s: string) returns (i: nat)
    ensures var r := TrimSpace(s);
      && i + |r| <= |s| && s[i..i + |r|] == r
      && (forall k :: 0 <= k < i ==> IsSpace(s[k]))
      && (forall k :: i + |r| <= k < |s| ==> IsSpace(s[k]))
      && (r == [] || (!IsSpace(r[0]) && !IsSpace(r[|r| - 1])))
  {
    i := |s| - |TrimLeft(s)|;
    TrimSpaceSlice(s);
    TrimSpaceCutsSpace(s);
    var r := TrimRight(TrimLeft(s));
    if r != [] {
      assert r[0] == TrimLeft(s)[0];
    }
  }

  /** A string is blank after trimming exactly when it is all white space. */
  lemma {:induction false} TrimSpaceEmptyIff(s: string)
    ensures TrimSpace(s) == [] <==> forall k :: 0 <= k < |s| ==> IsSpace(s[k])
  {
    var l := TrimLeft(s);
    TrimLeftRemovesSpace(s);
    TrimRightRemovesSpace(l);
    if TrimSpace(s) == [] {
      forall k | 0 <= k < |s| ensures IsSpace(s[k]) {
      }
    }
  }

  /** Trimming a second time changes nothing. */
  lemma TrimSpaceIdempotent(s: string)
    ensures TrimSpace(TrimSpace(s)) == TrimSpace(s)
  {
  }

  /** `s` ends with character `c` (Go's `strings.HasSuffix(s, string(c))`). */
  predicate EndsWith(s: string, c: char) {
    |s| > 0 && s[|s| - 1] == c
  }

  /** `s` begins with `p`. */
  predicate StartsWith(s: string, p: string) {
    |p| <= |s| && s[..|p|] == p
  }

  /** `p` occurs somewhere in `s` (Go's `strings.Contains`). */
  predicate Contains(s: string, p: string)
    decreases |s|
  {
    StartsWith(s, p) || (|s| > 0 && Contains(s[1..], p))
  }

  /** Containment is occurrence at some position. */
  lemma {:induction false} ContainsAt(s: string, p: string)
    ensures Contains(s, p) <==> exists i :: 0 <= i <= |s| && StartsWith(s[i..], p)
    decreases |s|
  {
    if StartsWith(s, p) {
      assert s[0..] == s;
    } else if |s| > 0 {
      ContainsAt(s[1..], p);
      if exists i :: 0 <= i <= |s| && StartsWith(s[i..], p) {
        var i :| 0 <= i <= |s| && StartsWith(s[i..], p);
        assert i != 0 by { assert s[0..] == s; }
        assert s[1..][i - 1..] == s[i..];
      }
      if Contains(s[1..], p) {
        var i :| 0 <= i <= |s[1..]| && StartsWith(s[1..][i..], p);
        assert s[1..][i..] == s[i + 1..];
      }
    } else {
      assert s[0..] == s;
    }
  }

  /** Index of the first `c` in `s`, or -1 (Go's `strings.IndexByte`). */
  function IndexOf(s: string, c: char): (r: int)
    ensures -1 <= r < |s|
    ensures r == -1 <==> c !in s
    ensures r >= 0 ==> s[r] == c && c !in s[..r]
  {
    if |s| == 0 then -1
    else if s[0] == c then 0
    else
      var k := IndexOf(s[1..], c);
      if k == -1 then -1
      else
        assert s[..k + 1] == [s[0]] + s[1..][..k];
        k + 1
  }

  /** Go's `strings.Split(s, string(sep))`: the pieces between the separators, never empty. */
  function Split(s: string, sep: char): (r: seq<string>)
    ensures |r| >= 1
    ensures forall i :: 0 <= i < |r| ==> sep !in r[i]
  {
    if s == [] then [""]
    else
      var rest := Split(s[1..], sep);
      if s[0] == sep then [""] + rest else [[s[0]] + rest[0]] + rest[1..]
  }

  /** Go's `strings.Join(xs, string(sep))`. */
  function Join(xs: seq<string>, sep: char): string {
    if |xs| == 0 then ""
    else if |xs| == 1 then xs[0]
    else xs[0] + [sep] + Join(xs[1..], sep)
  }

  /** A piece with no separator in it splits to itself. */
  lemma {:induction false} SplitNoSep(a: string, sep: char)
    requires sep !in a
    ensures Split(a, sep) == [a]
  {
    if a != [] {
      SplitNoSep(a[1..], sep);
      assert [a[0]] + a[1..] == a;
    }
  }

  /** Splitting at the first separator. */
  lemma {:induction false} SplitFirst(a: string, b: string, sep: char)
    requires sep !in a
    ensures Split(a + [sep] + b, sep) == [a] + Split(b, sep)
  {
    if a == [] {
      assert a + [sep] + b == [sep] + b;
      assert ([sep] + b)[1..] == b;
    } else {
      SplitFirst(a[1..], b, sep);
      assert (a + [sep] + b)[1..] == a[1..] + [sep] + b;
      assert [a[0]] + a[1..] == a;
    }
  }

  /** Round trip: joining then splitting gives back the list, when no element holds the separator. */
  lemma {:induction false} SplitJoin(xs: seq<string>, sep: char)
    requires |xs| >= 1
    requires forall i :: 0 <= i < |xs| ==> sep !in xs[i]
    ensures Split(Join(xs, sep), sep) == xs
  {
    if |xs| == 1 {
      SplitNoSep(xs[0], sep);
    } else {
      SplitJoin(xs[1..], sep);
      SplitFirst(xs[0], Join(xs[1..], sep), sep);
      assert [xs[0]] + xs[1..] == xs;
    }
  }

  /** Round trip the other way: splitting then joining gives back any string. */
  lemma {:induction false} JoinSplit(s: string, sep: char)
    ensures Join(Split(s, sep), sep) == s
  {
    if s != [] {
      JoinSplit(s[1..], sep);
      var rest := Split(s[1..], sep);
      if s[0] == sep {
        assert ([""] + rest)[1..] == rest;
      } else {
        var r := [[s[0]] + rest[0]] + rest[1..];
        assert r[1..] == rest[1..];
        if |rest| > 1 {
          assert Join(rest, sep) == rest[0] + [sep] + Join(rest[1..], sep);
        }
      }
    }
  }

  // ---------------------------------------------------------------------
  // Case folding, as SQLite's LIKE and Go's ToUpper do it
  // ---------------------------------------------------------------------

  /** SQLite's LIKE folds only the ASCII letters. */
  function AsciiLower(c: char): char {
    if 'A' <= c <= 'Z' then (c as int + 32) as char else c
  }

  function Lower(s: string): (r: string)
    ensures |r| == |s|
    ensures forall i :: 0 <= i < |s| ==> r[i] == AsciiLower(s[i])
  {
    if s == [] then [] else [AsciiLower(s[0])] + Lower(s[1..])
  }

  /**
   * Go's `unicode.ToUpper` on one character, as far as it can produce an
   * ASCII letter: the ASCII lower-case letters, dotless i and long s.
   * Every other character is left as it is; none of them maps to ASCII.
   */
  function UpperChar(c: char): char {
    if 'a' <= c <= 'z' then (c as int - 32) as char
    else if c == '\U{0131}' then 'I'
    else if c == '\U{017F}' then 'S'
    else c
  }

  /** Go's `strings.ToUpper`, one character at a time. */
  function ToUpper(s: string): (r: string)
    ensures |r| == |s|
    ensures forall i :: 0 <= i < |s| ==> r[i] == UpperChar(s[i])
  {
    if s == [] then [] else [UpperChar(s[0])] + ToUpper(s[1..])
  }

  /** Lower-casing distributes over concatenation. */
  lemma LowerAppend(a: string, b: string)
    ensures Lower(a + b) == Lower(a) + Lower(b)
  {
    assert forall i :: 0 <= i < |a + b| ==> Lower(a + b)[i] == (Lower(a) + Lower(b))[i];
  }

  /** Lower-cases every piece of a list. */
  function LowerAll(xs: seq<string>): (r: seq<string>)
    ensures |r| == |xs| && forall i :: 0 <= i < |xs| ==> r[i] == Lower(xs[i])
  {
    seq(|xs|, i requires 0 <= i < |xs| => Lower(xs[i]))
  }

  /** Splitting commutes with lower-casing when the separator is no ASCII letter. */
  lemma {:induction false} SplitLower(s: string, sep: char)
    requires !('A' <= sep <= 'Z') && !('a' <= sep <= 'z')
    ensures Split(Lower(s), sep) == LowerAll(Split(s, sep))
  {
    if s != [] {
      SplitLower(s[1..], sep);
      assert Lower(s)[1..] == Lower(s[1..]);
      var rest := Split(s[1..], sep);
      if s[0] != sep {
        assert Lower([s[0]] + rest[0]) == [AsciiLower(s[0])] + Lower(rest[0]);
      }
    }
  }

  // ---------------------------------------------------------------------
  // Whole-token matching on a comma-joined column
  // ---------------------------------------------------------------------

  /** A string with no separator in front of a string leaves the matches of a separator-led pattern alone. */
  lemma {:induction false} ContainsSkip(x: string, s: string, p: string, sep: char)
    requires sep !in x
    requires |p| > 0 && p[0] == sep
    ensures Contains(x + s, p) <==> Contains(s, p)
  {
    if x != [] {
      var xs := x + s;
      assert xs[0] == x[0];
      assert !StartsWith(xs, p);
      assert xs[1..] == x[1..] + s;
      ContainsSkip(x[1..], s, p, sep);
    } else {
      assert x + s == s;
    }
  }

  /** The pattern `sep v sep` starts `sep a sep ...` exactly when `v` is `a`. */
  lemma HeadMatch(a: string, tail: string, v: string, sep: char)
    requires sep !in a && sep !in v
    ensures StartsWith([sep] + a + [sep] + tail, [sep] + v + [sep]) <==> v == a
  {
    var w := [sep] + a + [sep] + tail;
    var p := [sep] + v + [sep];
    if v == a {
      assert w == p + tail;
      assert w[..|p|] == p;
    }
    StartsWithAt(w, p, |v| + 1);
    StartsWithAt(w, p, |a| + 1);
    if StartsWith(w, p) && |v| == |a| {
      assert v == p[1..|v| + 1] == w[1..|a| + 1] == a;
    }
  }

  lemma StartsWithAt(s: string, p: string, i: int)
    ensures StartsWith(s, p) && 0 <= i < |p| ==> s[i] == p[i]
  {
    if StartsWith(s, p) && 0 <= i < |p| {
      assert s[..|p|][i] == s[i];
    }
  }

  /** The whole-token match when the column has no separator. */
  lemma WrappedContainsNoSep(col: string, v: string, sep: char)
    requires sep !in v && sep !in col
    ensures Contains([sep] + col + [sep], [sep] + v + [sep]) <==> v == col
  {
    var w := [sep] + col + [sep];
    var p := [sep] + v + [sep];
    HeadMatch(col, [], v, sep);
    assert w == [sep] + col + [sep] + [];
    assert w[1..] == col + [sep];
    ContainsSkip(col, [sep], p, sep);
    assert !Contains([sep], p) by {
      assert !StartsWith([sep], p);
      assert [sep][1..] == [];
    }
  }

  /** The whole-token match when the column is `a sep b`, `a` free of separators. */
  lemma WrappedContainsSplit(a: string, b: string, v: string, sep: char)
    requires sep !in v && sep !in a
    ensures Contains([sep] + (a + [sep] + b) + [sep], [sep] + v + [sep])
      <==> v == a || Contains([sep] + b + [sep], [sep] + v + [sep])
  {
    var w := [sep] + (a + [sep] + b) + [sep];
    var p := [sep] + v + [sep];
    var wb := [sep] + b + [sep];
    assert w == [sep] + a + [sep] + (b + [sep]);
    HeadMatch(a, b + [sep], v, sep);
    assert w[1..] == a + wb;
    ContainsSkip(a, wb, p, sep);
  }

  /**
   * `sep col sep` contains `sep v sep` exactly when `v` is one whole piece
   * of `col` split at `sep` (never a part of a piece).
   */
  lemma {:induction false} WrappedContainsIffPiece(col: string, v: string, sep: char)
    requires sep !in v
    ensures Contains([sep] + col + [sep], [sep] + v + [sep]) <==> v in Split(col, sep)
    decreases |col|
  {
    var k := IndexOf(col, sep);
    if k == -1 {
      SplitNoSep(col, sep);
      WrappedContainsNoSep(col, v, sep);
    } else {
      var a, b := col[..k], col[k + 1..];
      assert col == a + [sep] + b;
      SplitFirst(a, b, sep);
      WrappedContainsSplit(a, b, v, sep);
      WrappedContainsIffPiece(b, v, sep);
    }
  }
}
