/**
 * String and list helpers with the meaning Python gives them in the bot:
 * `sep.join`, `str.split` on one character, `str.replace`, `in`,
 * `startswith`/`endswith`, slicing `xs[:n]` and ASCII `lower()`.
 */
module Text {
  import opened Wrappers

  /** `sep.join(parts)`. */
  function Join(parts: seq<string>, sep: string): string
    decreases |parts|
  {
    if |parts| == 0 then ""
    else if |parts| == 1 then parts[0]
    else parts[0] + sep + Join(parts[1..], sep)
  }

  /** Every line followed by a newline: the text a list of lines prints as. */
  function Unlines(lines: seq<string>): string
    decreases |lines|
  {
    if |lines| == 0 then "" else lines[0] + "\n" + Unlines(lines[1..])
  }

  predicate StartsWith(s: string, prefix: string)
  {
    |prefix| <= |s| && s[..|prefix|] == prefix
  }

  predicate EndsWith(s: string, suffix: string)
  {
    |suffix| <= |s| && s[|s| - |suffix|..] == suffix
  }

  /** `t in s` for strings. */
  predicate Contains(s: string, t: string)
    decreases |s|
  {
    StartsWith(s, t) || (|s| > 0 && Contains(s[1..], t))
  }

  /** `xs[:n]` for a non-negative `n`. */
  function Take<T>(xs: seq<T>, n: nat): (r: seq<T>)
    ensures |r| == Min(|xs|, n)
    ensures r == xs[..|r|]
    ensures forall x :: x in r ==> x in xs
  {
    if |xs| <= n then xs else xs[..n]
  }

  /** The concatenation of `f(x)` for every `x` of `xs`, in order: a loop appending each result. */
  function FlatMap<T, U>(xs: seq<T>, f: T -> seq<U>): seq<U>
    decreases |xs|
  {
    if |xs| == 0 then [] else FlatMap(xs[..|xs| - 1], f) + f(xs[|xs| - 1])
  }

  /** Index of the first `c` in `s`, or `|s|` when there is none. */
  function IndexOf(s: string, c: char): (i: nat)
    ensures i <= |s|
    ensures i < |s| ==> s[i] == c
    ensures forall j :: 0 <= j < i ==> s[j] != c
    decreases |s|
  {
    if |s| == 0 then 0 else if s[0] == c then 0 else 1 + IndexOf(s[1..], c)
  }

  /** `s.split(c)`: the pieces between occurrences of `c`, always at least one. */
  function Split(s: string, c: char): (parts: seq<string>)
    ensures |parts| >= 1
    ensures forall k :: 0 <= k < |parts| ==> c !in parts[k]
    decreases |s|
  {
    var i := IndexOf(s, c);
    if i == |s| then [s] else [s[..i]] + Split(s[i + 1..], c)
  }

  /** `s.replace(pat, rep)`: occurrences found left to right, never overlapping. */
  function Replace(s: string, pat: string, rep: string): string
    requires |pat| > 0
    decreases |s|
  {
    if |s| < |pat| then s
    else if s[..|pat|] == pat then rep + Replace(s[|pat|..], pat, rep)
    else [s[0]] + Replace(s[1..], pat, rep)
  }

  function LowerChar(c: char): char
  {
    if 'A' <= c <= 'Z' then (c as int + 32) as char else c
  }

  predicate IsUpper(c: char)
  {
    'A' <= c <= 'Z'
  }

  /** `s.lower()` restricted to the ASCII letters. */
  function Lower(s: string): (r: string)
    ensures |r| == |s|
    ensures forall i :: 0 <= i < |r| ==> !IsUpper(r[i])
    ensures (forall i :: 0 <= i < |s| ==> !IsUpper(s[i])) ==> r == s
  {
    seq(|s|, i requires 0 <= i < |s| => LowerChar(s[i]))
  }

  // ---------------------------------------------------------------------
  // Lemmas

  /** Splitting on `c` and joining the pieces back with `c` gives the string back. */
  lemma {:induction false} JoinSplit(s: string, c: char)
    ensures Join(Split(s, c), [c]) == s
    decreases |s|
  {
    var i := IndexOf(s, c);
    if i == |s| {
      assert Split(s, c) == [s];
    } else {
      var rest := s[i + 1..];
      var tail := Split(rest, c);
      var parts := [s[..i]] + tail;
      assert Split(s, c) == parts;
      assert parts[1..] == tail;
      assert Join(parts, [c]) == s[..i] + [c] + Join(tail, [c]);
      JoinSplit(rest, c);
      assert s == s[..i] + [c] + rest;
    }
  }

  /** Mapping a concatenation concatenates the mapped parts. */
  lemma {:induction false} FlatMapAppend<T, U>(a: seq<T>, b: seq<T>, f: T -> seq<U>)
    ensures FlatMap(a + b, f) == FlatMap(a, f) + FlatMap(b, f)
    decreases |b|
  {
    if |b| == 0 {
      assert a + b == a;
    } else {
      var n := |b| - 1;
      FlatMapAppend(a, b[..n], f);
      assert (a + b)[..|a + b| - 1] == a + b[..n];
      assert (a + b)[|a + b| - 1] == b[n];
    }
  }

  /** One more element appends its own image. */
  lemma {:induction false} FlatMapStep<T, U>(xs: seq<T>, i: nat, f: T -> seq<U>)
    requires i < |xs|
    ensures FlatMap(xs[..i + 1], f) == FlatMap(xs[..i], f) + f(xs[i])
  {
    assert xs[..i + 1][..i] == xs[..i];
  }

  /** Joining pieces free of `c` with `c` and splitting on `c` gives the pieces back. */
  lemma {:induction false} SplitJoin(parts: seq<string>, c: char)
    requires |parts| >= 1
    requires forall k :: 0 <= k < |parts| ==> c !in parts[k]
    ensures Split(Join(parts, [c]), c) == parts
    decreases |parts|
  {
    var p := parts[0];
    IndexOfAbsent(p, c);
    if |parts| == 1 {
      assert Join(parts, [c]) == p;
    } else {
      var rest := Join(parts[1..], [c]);
      var s := p + [c] + rest;
      assert Join(parts, [c]) == s;
      IndexOfAfter(p, c, rest);
      assert s[..|p|] == p;
      assert s[|p| + 1..] == rest;
      SplitJoin(parts[1..], c);
      assert parts == [p] + parts[1..];
    }
  }

  /** Splitting at a `c` between two parts splits each part on its own. */
  lemma {:induction false} SplitAppend(a: string, b: string, c: char)
    ensures Split(a + [c] + b, c) == Split(a, c) + Split(b, c)
    decreases |a|
  {
    var i := IndexOf(a, c);
    if i == |a| {
      SplitAppendLast(a, b, c);
    } else {
      var rest := a[i + 1..];
      SplitAppendFirst(a, b, c);
      SplitUnfold(a, c);
      SplitAppend(rest, b, c);
      var head, pieces, tail := [a[..i]], Split(rest, c), Split(b, c);
      assert head + (pieces + tail) == (head + pieces) + tail;
    }
  }

  /** The case of `SplitAppend` where `a` holds no `c`: it is the first piece. */
  lemma {:induction false} SplitAppendLast(a: string, b: string, c: char)
    requires IndexOf(a, c) == |a|
    ensures Split(a + [c] + b, c) == Split(a, c) + Split(b, c)
  {
    var x := [c] + b;
    assert a + [c] + b == a + x;
    IndexOfAfter(a, c, b);
    SplitUnfold(a + x, c);
    SliceOfAppend(a, x, |a|);
    assert a[..|a|] == a && x[1..] == b;
    assert Split(a + x, c) == [a] + Split(b, c);
    assert Split(a, c) == [a];
  }

  /** When `a` holds a `c`, the split of `a + [c] + b` starts with the piece before it. */
  lemma {:induction false} SplitAppendFirst(a: string, b: string, c: char)
    requires IndexOf(a, c) < |a|
    ensures Split(a + [c] + b, c)
      == [a[..IndexOf(a, c)]] + Split(a[IndexOf(a, c) + 1..] + [c] + b, c)
  {
    var i := IndexOf(a, c);
    var s := a + [c] + b;
    IndexOfPrefix(a, [c] + b, c);
    assert a + ([c] + b) == s;
    assert s[..i] == a[..i];
    assert s[i + 1..] == a[i + 1..] + [c] + b;
    SplitUnfold(s, c);
  }

  lemma {:induction false} SplitUnfold(s: string, c: char)
    requires IndexOf(s, c) < |s|
    ensures Split(s, c) == [s[..IndexOf(s, c)]] + Split(s[IndexOf(s, c) + 1..], c)
  {
  }

  lemma {:induction false} SliceOfAppend(a: string, x: string, i: nat)
    requires i <= |a| && i < |a + x|
    ensures (a + x)[..i] == a[..i]
    ensures i < |a| ==> (a + x)[i + 1..] == a[i + 1..] + x
    ensures i == |a| ==> (a + x)[i + 1..] == x[1..]
  {
  }

  /** The first `c` of a part that holds one is the first `c` of any extension. */
  lemma {:induction false} IndexOfPrefix(a: string, x: string, c: char)
    requires IndexOf(a, c) < |a|
    ensures IndexOf(a + x, c) == IndexOf(a, c)
  {
    var i := IndexOf(a, c);
    assert (a + x)[i] == a[i];
  }

  lemma IndexOfAbsent(s: string, c: char)
    requires c !in s
    ensures IndexOf(s, c) == |s|
  {
  }

  lemma IndexOfAfter(p: string, c: char, rest: string)
    requires c !in p
    ensures IndexOf(p + [c] + rest, c) == |p|
  {
    assert (p + [c] + rest)[|p|] == c;
  }

  /** A join of two or more pieces contains the separator. */
  lemma JoinHasSeparator(parts: seq<string>, c: char)
    requires |parts| >= 2
    ensures c in Join(parts, [c])
  {
    assert Join(parts, [c])[|parts[0]|] == c;
  }

  /** A join is at least as long as each of its pieces. */
  lemma {:induction false} JoinCoversPieces(parts: seq<string>, sep: string, k: nat)
    requires k < |parts|
    ensures |Join(parts, sep)| >= |parts[k]|
    decreases |parts|
  {
    if k > 0 {
      JoinCoversPieces(parts[1..], sep, k - 1);
    }
  }

  /** Joining with a newline and adding one more newline prints the same lines. */
  lemma {:induction false} JoinThenNewline(lines: seq<string>)
    requires |lines| >= 1
    ensures Join(lines, "\n") + "\n" == Unlines(lines)
    decreases |lines|
  {
    if |lines| > 1 {
      JoinThenNewline(lines[1..]);
    }
  }

  /** The printed text of two blocks of lines is the two texts one after the other. */
  lemma {:induction false} UnlinesAppend(a: seq<string>, b: seq<string>)
    ensures Unlines(a + b) == Unlines(a) + Unlines(b)
    decreases |a|
  {
    if |a| > 0 {
      UnlinesAppend(a[1..], b);
      assert (a + b)[1..] == a[1..] + b;
    } else {
      assert a + b == b;
    }
  }

  /** `replace` changes nothing in a string that does not contain the pattern. */
  lemma {:induction false} ReplaceAbsent(s: string, pat: string, rep: string)
    requires |pat| > 0
    requires !Contains(s, pat)
    ensures Replace(s, pat, rep) == s
    decreases |s|
  {
    if |s| >= |pat| {
      ReplaceAbsent(s[1..], pat, rep);
      assert [s[0]] + s[1..] == s;
    }
  }

  /** Deleting a pattern never makes a string longer. */
  lemma {:induction false} DeleteShrinks(s: string, pat: string)
    requires |pat| > 0
    ensures |Replace(s, pat, "")| <= |s|
    decreases |s|
  {
    if |s| >= |pat| {
      if s[..|pat|] == pat {
        DeleteShrinks(s[|pat|..], pat);
      } else {
        DeleteShrinks(s[1..], pat);
      }
    }
  }
}
