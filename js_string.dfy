/** Models of the JavaScript string built-ins the payload parser is built from:
    `String.prototype.split` with a one-character separator, `Array.prototype.join`,
    `String.prototype.trim` and `String.prototype.replace` with a global one-character
    pattern and an empty replacement. Strings are sequences of Unicode scalar values. */
module JsString {

  /** The characters `trim` strips: the ECMAScript WhiteSpace and LineTerminator sets. */
  predicate IsWhitespace(c: char) {
    var n := c as int;
    n == 0x09 || n == 0x0A || n == 0x0B || n == 0x0C || n == 0x0D || n == 0x20
    || n == 0xA0 || n == 0x1680 || (0x2000 <= n <= 0x200A) || n == 0x2028 || n == 0x2029
    || n == 0x202F || n == 0x205F || n == 0x3000 || n == 0xFEFF
  }

  /** Neither end of `s` is whitespace. */
  predicate IsTrimmed(s: string) {
    |s| == 0 || (!IsWhitespace(s[0]) && !IsWhitespace(s[|s| - 1]))
  }

  /** Drops the leading whitespace: what is kept does not start with whitespace. */
  function TrimStart(s: string): (r: string)
    ensures |r| == 0 || !IsWhitespace(r[0])
  {
    if |s| > 0 && IsWhitespace(s[0]) then TrimStart(s[1..]) else s
  }

  /** Drops the trailing whitespace: what is kept does not end with whitespace. */
  function TrimEnd(s: string): (r: string)
    ensures |r| == 0 || !IsWhitespace(r[|r| - 1])
  {
    if |s| > 0 && IsWhitespace(s[|s| - 1]) then TrimEnd(s[..|s| - 1]) else s
  }

  /** `TrimStart` keeps a suffix of `s` and everything it drops is whitespace. */
  lemma {:induction false} TrimStartDropsWhitespace(s: string)
    ensures |TrimStart(s)| <= |s| && TrimStart(s) == s[|s| - |TrimStart(s)|..]
    ensures forall i :: 0 <= i < |s| - |TrimStart(s)| ==> IsWhitespace(s[i])
  {
    if |s| > 0 && IsWhitespace(s[0]) {
      TrimStartDropsWhitespace(s[1..]);
    }
  }

  /** `TrimEnd` keeps a prefix of `s` and everything it drops is whitespace. */
  lemma {:induction false} TrimEndDropsWhitespace(s: string)
    ensures |TrimEnd(s)| <= |s| && TrimEnd(s) == s[..|TrimEnd(s)|]
    ensures forall i :: |TrimEnd(s)| <= i < |s| ==> IsWhitespace(s[i])
  {
    if |s| > 0 && IsWhitespace(s[|s| - 1]) {
      TrimEndDropsWhitespace(s[..|s| - 1]);
    }
  }

  /** `s.trim()`: what is left once the whitespace at both ends is gone. */
  function Trim(s: string): (r: string)
    ensures IsTrimmed(r)
    ensures IsTrimmed(s) ==> r == s
  {
    var t := TrimStart(s);
    TrimEndDropsWhitespace(t);
    TrimEnd(t)
  }

  /** `trim` only removes characters: a character absent from `s` is absent from `trim(s)`. */
  lemma TrimKeepsAbsent(s: string, d: char)
    requires d !in s
    ensures d !in Trim(s)
  {
    TrimStartDropsWhitespace(s);
    TrimEndDropsWhitespace(TrimStart(s));
  }

  /** `s.replace(/c/g, '')`: every `c` deleted, every other character kept in order. */
  function RemoveAll(s: string, c: char): (r: string)
    ensures c !in r
    ensures c !in s ==> r == s
  {
    if |s| == 0 then []
    else (if s[0] == c then [] else [s[0]]) + RemoveAll(s[1..], c)
  }

  /** Deleting `c` keeps every other character as often as it occurs in `s`. */
  lemma {:induction false} RemoveAllCounts(s: string, c: char)
    ensures multiset(RemoveAll(s, c)) == multiset(s)[c := 0]
  {
    if |s| > 0 {
      var t := s[1..];
      RemoveAllCounts(t, c);
      RemoveAllCountsStep(s[0], t, c);
      assert s == [s[0]] + t;
    }
  }

  /** One step of `RemoveAllCounts`: a character in front is kept or deleted. */
  lemma RemoveAllCountsStep(x: char, t: string, c: char)
    requires multiset(RemoveAll(t, c)) == multiset(t)[c := 0]
    ensures multiset(RemoveAll([x] + t, c)) == multiset([x] + t)[c := 0]
  {
    var head := if x == c then [] else [x];
    assert ([x] + t)[1..] == t;
    assert multiset([x] + t) == multiset([x]) + multiset(t);
    assert multiset(RemoveAll([x] + t, c)) == multiset(head) + multiset(RemoveAll(t, c));
  }

  /** Deleting `c` from a concatenation deletes it from each part in place: the
      characters that are kept stay in their order. */
  lemma {:induction false} RemoveAllAppend(a: string, b: string, c: char)
    ensures RemoveAll(a + b, c) == RemoveAll(a, c) + RemoveAll(b, c)
  {
    if |a| > 0 {
      var t := a[1..];
      var h := if a[0] == c then [] else [a[0]];
      RemoveAllAppend(t, b, c);
      assert (a + b)[0] == a[0] && (a + b)[1..] == t + b;
      assert RemoveAll(a + b, c) == h + RemoveAll(t + b, c);
      AppendAssoc(h, RemoveAll(t, c), RemoveAll(b, c));
    } else {
      assert a + b == b;
    }
  }

  /** Concatenation is associative. */
  lemma AppendAssoc(x: string, y: string, z: string)
    ensures x + (y + z) == (x + y) + z
  {
  }

  /** On a single character, `replace` deletes it when it is `c` and keeps it
      otherwise; with `RemoveAllAppend` this fixes the result for every string. */
  lemma RemoveAllChar(x: char, c: char)
    ensures RemoveAll([x], c) == if x == c then [] else [x]
  {
    assert [x][1..] == [];
  }

  /** A character absent from `s` is absent once `c` has been deleted. */
  lemma RemoveAllKeepsAbsent(s: string, c: char, d: char)
    requires d !in s
    ensures d !in RemoveAll(s, c)
  {
    RemoveAllCounts(s, c);
    assert multiset(s)[d] == 0;
  }

  /** `xs.join(c)`: the pieces with one `c` between each two. */
  function Join(xs: seq<string>, c: char): (r: string)
    ensures |xs| >= 1 ==> xs[0] <= r
    ensures |xs| >= 2 ==> |xs[0]| < |r| && r[|xs[0]|] == c
  {
    if |xs| == 0 then []
    else if |xs| == 1 then xs[0]
    else xs[0] + [c] + Join(xs[1..], c)
  }

  /** `s.split(c)`: the maximal `c`-free pieces of `s`, never fewer than one. */
  function Split(s: string, c: char): (r: seq<string>)
    ensures |r| >= 1
  {
    if |s| == 0 then [[]]
    else
      var rest := Split(s[1..], c);
      if s[0] == c then [[]] + rest
      else [[s[0]] + rest[0]] + rest[1..]
  }

  /** Joining the pieces with the separator gives back the string. */
  lemma {:induction false} JoinSplit(s: string, c: char)
    ensures Join(Split(s, c), c) == s
  {
    if |s| > 0 {
      var rest := Split(s[1..], c);
      JoinSplit(s[1..], c);
      assert s == [s[0]] + s[1..];
      if s[0] == c {
        assert ([[]] + rest)[1..] == rest;
      } else {
        var r := [[s[0]] + rest[0]] + rest[1..];
        assert r[1..] == rest[1..];
      }
    }
  }

  /** No piece contains the separator, and no piece contains a character absent from `s`. */
  lemma {:induction false} SplitPieces(s: string, c: char, d: char)
    ensures forall i :: 0 <= i < |Split(s, c)| ==> c !in Split(s, c)[i]
    ensures d !in s ==> forall i :: 0 <= i < |Split(s, c)| ==> d !in Split(s, c)[i]
  {
    if |s| > 0 {
      SplitPieces(s[1..], c, d);
      assert s == [s[0]] + s[1..];
    }
  }

  /** A string holding the separator splits into at least two pieces. */
  lemma {:induction false} SplitAtSeparator(s: string, c: char)
    requires c in s
    ensures |Split(s, c)| >= 2
  {
    if s[0] != c {
      SplitAtSeparator(s[1..], c);
    }
  }

  /** A piece free of the separator splits to itself. */
  lemma {:induction false} SplitSeparatorFree(s: string, c: char)
    requires c !in s
    ensures Split(s, c) == [s]
  {
    if |s| > 0 {
      SplitSeparatorFree(s[1..], c);
      assert [s[0]] + s[1..] == s;
    }
  }

  /** Splitting `a c b` when `a` is free of `c`. */
  lemma {:induction false} SplitAfterPiece(a: string, c: char, b: string)
    requires c !in a
    ensures Split(a + [c] + b, c) == [a] + Split(b, c)
  {
    if |a| == 0 {
      assert (a + [c] + b)[1..] == b;
    } else {
      var t := a[1..] + [c] + b;
      SplitAfterPiece(a[1..], c, b);
      assert a + [c] + b == [a[0]] + t;
      SplitAfterChar(a[0], t, c);
      assert [a[0]] + a[1..] == a;
    }
  }

  /** Splitting `x s` when `x` is not the separator glues `x` to the first piece. */
  lemma SplitAfterChar(x: char, s: string, c: char)
    requires x != c
    ensures Split([x] + s, c) == [[x] + Split(s, c)[0]] + Split(s, c)[1..]
  {
    assert ([x] + s)[1..] == s;
  }

  /** Splitting undoes joining pieces that are free of the separator. */
  lemma {:induction false} SplitJoin(xs: seq<string>, c: char)
    requires |xs| >= 1
    requires forall i :: 0 <= i < |xs| ==> c !in xs[i]
    ensures Split(Join(xs, c), c) == xs
  {
    if |xs| == 1 {
      SplitSeparatorFree(xs[0], c);
    } else {
      SplitJoin(xs[1..], c);
      SplitAfterPiece(xs[0], c, Join(xs[1..], c));
      assert [xs[0]] + xs[1..] == xs;
    }
  }

  /** A character that is not the separator and occurs in no piece does not occur in the join. */
  lemma {:induction false} JoinExcludes(xs: seq<string>, c: char, d: char)
    requires d != c
    requires forall i :: 0 <= i < |xs| ==> d !in xs[i]
    ensures d !in Join(xs, c)
  {
    if |xs| > 1 {
      JoinExcludes(xs[1..], c, d);
    }
  }

  /** Joining trimmed pieces with a non-whitespace separator gives a trimmed string. */
  lemma {:induction false} JoinTrimmed(xs: seq<string>, c: char)
    requires |xs| >= 1
    requires forall i :: 0 <= i < |xs| ==> IsTrimmed(xs[i])
    requires !IsWhitespace(c)
    ensures IsTrimmed(Join(xs, c))
  {
    if |xs| > 1 {
      JoinTrimmed(xs[1..], c);
      var rest := Join(xs[1..], c);
      var j := xs[0] + [c] + rest;
      assert j[0] == if |xs[0]| > 0 then xs[0][0] else c;
      assert j[|j| - 1] == if |rest| > 0 then rest[|rest| - 1] else c;
    }
  }

  /** Every character of `w` is whitespace. */
  predicate IsBlank(w: string) {
    forall i :: 0 <= i < |w| ==> IsWhitespace(w[i])
  }

  /** Blank padding in front of a string that starts with a non-whitespace
      character is exactly what `TrimStart` removes. */
  lemma {:induction false} TrimStartPadded(p: string, t: string)
    requires IsBlank(p) && |t| > 0 && !IsWhitespace(t[0])
    ensures TrimStart(p + t) == t
  {
    if |p| > 0 {
      assert (p + t)[0] == p[0];
      assert (p + t)[1..] == p[1..] + t;
      TrimStartPadded(p[1..], t);
    } else {
      assert p + t == t;
    }
  }

  /** Blank padding after a string that ends with a non-whitespace character is
      exactly what `TrimEnd` removes. */
  lemma {:induction false} TrimEndPadded(t: string, q: string)
    requires IsBlank(q) && |t| > 0 && !IsWhitespace(t[|t| - 1])
    ensures TrimEnd(t + q) == t
  {
    if |q| > 0 {
      var u := t + q;
      assert u[|u| - 1] == q[|q| - 1];
      assert u[..|u| - 1] == t + q[..|q| - 1];
      TrimEndPadded(t, q[..|q| - 1]);
    } else {
      assert t + q == t;
    }
  }

  /** `trim` removes blank padding on both sides of a non-empty trimmed string, and
      nothing else. */
  lemma TrimPadded(p: string, s: string, q: string)
    requires IsBlank(p) && IsBlank(q) && |s| > 0 && IsTrimmed(s)
    ensures Trim(p + s + q) == s
  {
    assert p + s + q == p + (s + q);
    assert (s + q)[0] == s[0];
    TrimStartPadded(p, s + q);
    TrimEndPadded(s, q);
  }

  /** Leading whitespace does not survive `trim`. */
  lemma TrimAfterWhitespace(x: char, s: string)
    requires IsWhitespace(x)
    ensures Trim([x] + s) == Trim(s)
  {
    assert ([x] + s)[1..] == s;
  }
}
