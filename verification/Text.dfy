/** Facts about splitting and joining strings. The cache keys, the pre-hash parameter
    strings, the cursors and the storage keys are all built by joining parts with a
    separator; these lemmas say when the parts can be read back. */
module Text {
  predicate Free(s: string, c: char) {
    forall i :: 0 <= i < |s| ==> s[i] != c
  }

  /** The part before the first separator is determined when it does not contain it. */
  lemma CutFirst(x: string, c: char, a: string, y: string, b: string)
    requires Free(x, c) && Free(y, c)
    requires x + [c] + a == y + [c] + b
    ensures x == y && a == b
  {
    var s, t := x + [c] + a, y + [c] + b;
    assert s[|x|] == c && forall i :: 0 <= i < |x| ==> s[i] == x[i];
    assert t[|y|] == c && forall i :: 0 <= i < |y| ==> t[i] == y[i];
    assert |x| == |y|;
    assert x == s[..|x|] && y == t[..|y|];
    assert a == s[|x| + 1..] && b == t[|y| + 1..];
  }

  /** The part after the last separator is determined when it does not contain it. */
  lemma CutLast(a: string, c: char, x: string, b: string, y: string)
    requires Free(x, c) && Free(y, c)
    requires a + [c] + x == b + [c] + y
    ensures a == b && x == y
  {
    var s, t := a + [c] + x, b + [c] + y;
    assert s[|a|] == c && forall i :: |a| < i < |s| ==> s[i] == x[i - |a| - 1];
    assert t[|b|] == c && forall i :: |b| < i < |t| ==> t[i] == y[i - |b| - 1];
    assert |a| == |b|;
    assert a == s[..|a|] && b == t[..|b|];
    assert x == s[|a| + 1..] && y == t[|b| + 1..];
  }

  lemma CutPrefix(p: string, a: string, b: string)
    requires p + a == p + b
    ensures a == b
  {
    assert a == (p + a)[|p|..] && b == (p + b)[|p|..];
  }

  /** Python's `sep.join(parts)` for a one-character separator. */
  function Join(parts: seq<string>, sep: char): string {
    if parts == [] then ""
    else if |parts| == 1 then parts[0]
    else parts[0] + [sep] + Join(parts[1..], sep)
  }

  predicate Separable(parts: seq<string>, sep: char) {
    forall i :: 0 <= i < |parts| ==> Free(parts[i], sep)
  }

  /** How often a character occurs. */
  function Occurrences(s: string, c: char): nat {
    if s == "" then 0 else (if s[0] == c then 1 else 0) + Occurrences(s[1..], c)
  }

  lemma {:induction false} OccurrencesAdd(a: string, b: string, c: char)
    ensures Occurrences(a + b, c) == Occurrences(a, c) + Occurrences(b, c)
  {
    if a != "" {
      assert (a + b)[1..] == a[1..] + b;
      OccurrencesAdd(a[1..], b, c);
    } else {
      assert a + b == b;
    }
  }

  lemma {:induction false} FreeIsNoOccurrence(s: string, c: char)
    ensures Free(s, c) <==> Occurrences(s, c) == 0
  {
    if s != "" {
      FreeIsNoOccurrence(s[1..], c);
      assert s == [s[0]] + s[1..];
    }
  }

  /** The joined text has one separator fewer than there are parts, and no more exactly if the
      parts have none. */
  lemma {:induction false} SeparatorsOfJoin(parts: seq<string>, sep: char)
    requires parts != []
    ensures Occurrences(Join(parts, sep), sep) >= |parts| - 1
    ensures Occurrences(Join(parts, sep), sep) == |parts| - 1 <==> Separable(parts, sep)
  {
    FreeIsNoOccurrence(parts[0], sep);
    if |parts| > 1 {
      var rest := parts[1..];
      SeparatorsOfJoin(rest, sep);
      OccurrencesAdd(parts[0], [sep] + Join(rest, sep), sep);
      assert Join(parts, sep) == parts[0] + ([sep] + Join(rest, sep));
      assert ([sep] + Join(rest, sep))[1..] == Join(rest, sep);
      assert forall i :: 0 < i < |parts| ==> parts[i] == rest[i - 1];
      assert Separable(parts, sep) <==> Free(parts[0], sep) && Separable(rest, sep);
    }
  }

  /** A join of separator-free parts, at least one, determines the parts. */
  lemma {:induction false} JoinInjective(a: seq<string>, b: seq<string>, sep: char)
    requires Separable(a, sep) && Separable(b, sep) && a != [] && b != []
    requires Join(a, sep) == Join(b, sep)
    ensures a == b
  {
    JoinShape(a, sep);
    JoinShape(b, sep);
    if |a| > 1 && |b| > 1 {
      CutFirst(a[0], sep, Join(a[1..], sep), b[0], Join(b[1..], sep));
      JoinInjective(a[1..], b[1..], sep);
      assert a == [a[0]] + a[1..] && b == [b[0]] + b[1..];
    }
  }

  /** Only a join of two or more such parts contains the separator. */
  lemma JoinShape(parts: seq<string>, sep: char)
    requires Separable(parts, sep)
    ensures Free(Join(parts, sep), sep) <==> |parts| <= 1
    ensures Join(parts, sep) == "" <==> parts == [] || parts == [""]
  {
    if |parts| > 1 {
      assert Join(parts, sep)[|parts[0]|] == sep;
    }
  }

  function Digit(n: nat): char
    requires n < 10
  {
    ('0' as int + n) as char
  }

  /** Python's `str(n)` for n >= 0. */
  function Decimal(n: nat): (s: string)
    ensures s != "" && forall i :: 0 <= i < |s| ==> '0' <= s[i] <= '9'
  {
    if n < 10 then [Digit(n)] else Decimal(n / 10) + [Digit(n % 10)]
  }

  lemma {:induction false} DecimalInjective(m: nat, n: nat)
    requires Decimal(m) == Decimal(n)
    ensures m == n
  {
    var s, t := Decimal(m), Decimal(n);
    assert s[|s| - 1] == Digit(m % 10) && t[|t| - 1] == Digit(n % 10);
    assert m % 10 == n % 10;
    assert m >= 10 <==> |s| > 1;
    assert n >= 10 <==> |t| > 1;
    if m >= 10 {
      assert s[..|s| - 1] == Decimal(m / 10) && t[..|t| - 1] == Decimal(n / 10);
      DecimalInjective(m / 10, n / 10);
    }
  }
}
