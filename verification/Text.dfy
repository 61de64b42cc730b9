/**
 Strings as the source's language has them: sequences of UTF-16 code units, so that lone
 surrogates exist and the order of `sort()` is the order of code units.
 */
module Text {
  import opened Sequences
  import opened Sorting

  type Unit = u: int | 0 <= u < 0x10000
  type Text = seq<Unit>

  const NEWLINE: Unit := 10
  const QUOTE: Unit := 34
  const PLUS: Unit := 43
  const COMMA: Unit := 44
  const MINUS: Unit := 45
  const DOT: Unit := 46
  const SLASH: Unit := 47
  const ZERO: Unit := 48
  const COLON: Unit := 58
  const UNDERSCORE: Unit := 95
  const BACKSLASH: Unit := 92

  /** A literal of the source. */
  function Ascii(s: string): (t: Text)
    ensures |t| == |s|
    ensures forall i | 0 <= i < |s| && s[i] < 128 as char :: t[i] == s[i] as int
  {
    seq(|s|, i requires 0 <= i < |s| => if s[i] < 128 as char then s[i] as int else 0)
  }

  // ----- code-unit order -----

  predicate LexLeq(a: Text, b: Text) {
    a == [] || (b != [] && (a[0] < b[0] || (a[0] == b[0] && LexLeq(a[1..], b[1..]))))
  }

  lemma {:induction false} LexTotal(a: Text, b: Text)
    ensures LexLeq(a, b) || LexLeq(b, a)
  {
    if a != [] && b != [] && a[0] == b[0] {
      LexTotal(a[1..], b[1..]);
    }
  }

  lemma {:induction false} LexTransitive(a: Text, b: Text, c: Text)
    requires LexLeq(a, b) && LexLeq(b, c)
    ensures LexLeq(a, c)
  {
    if a != [] && a[0] == b[0] && b[0] == c[0] {
      LexTransitive(a[1..], b[1..], c[1..]);
    }
  }

  lemma {:induction false} LexAntisymmetric(a: Text, b: Text)
    requires LexLeq(a, b) && LexLeq(b, a)
    ensures a == b
  {
    if a != [] {
      LexAntisymmetric(a[1..], b[1..]);
      assert a == [a[0]] + a[1..] && b == [b[0]] + b[1..];
    }
  }

  lemma LexOrder()
    ensures TotalOrder(LexLeq)
  {
    forall a, b ensures LexLeq(a, b) || LexLeq(b, a) {
      LexTotal(a, b);
    }
    forall a, b, c | LexLeq(a, b) && LexLeq(b, c) ensures LexLeq(a, c) {
      LexTransitive(a, b, c);
    }
  }

  function SortTexts(s: seq<Text>): seq<Text> {
    Sort(s, LexLeq)
  }

  /** Before in code-unit order: at the first place where they differ, `a` has the smaller unit or ends. */
  ghost predicate Precedes(a: Text, b: Text) {
    exists k: nat :: FirstDifference(a, b, k) && (k == |a| || a[k] < b[k])
  }

  ghost predicate FirstDifference(a: Text, b: Text, k: nat) {
    k <= |a| && k < |b| && a[..k] == b[..k] && (k < |a| ==> a[k] != b[k])
  }

  lemma {:induction false} LexMeans(a: Text, b: Text)
    ensures LexLeq(a, b) <==> a == b || Precedes(a, b)
  {
    if a != [] && b != [] && a[0] == b[0] {
      LexMeans(a[1..], b[1..]);
      assert a == [a[0]] + a[1..] && b == [b[0]] + b[1..];
      if Precedes(a[1..], b[1..]) {
        var k: nat :| FirstDifference(a[1..], b[1..], k) && (k == |a[1..]| || a[1..][k] < b[1..][k]);
        assert a[..k + 1] == [a[0]] + a[1..][..k] && b[..k + 1] == [b[0]] + b[1..][..k];
        assert FirstDifference(a, b, k + 1);
      }
      if Precedes(a, b) {
        var k: nat :| FirstDifference(a, b, k) && (k == |a| || a[k] < b[k]);
        assert k > 0;
        assert a[1..][..k - 1] == a[..k][1..] && b[1..][..k - 1] == b[..k][1..];
        assert FirstDifference(a[1..], b[1..], k - 1);
      }
    } else {
      LexHeads(a, b);
    }
  }

  lemma SharedHead(a: Text, b: Text, k: nat)
    requires FirstDifference(a, b, k)
    ensures k > 0 ==> a != [] && a[0] == b[0]
  {
    if k > 0 {
      assert a[..k][0] == a[0] && b[..k][0] == b[0];
    }
  }

  lemma LexHeads(a: Text, b: Text)
    requires a == [] || b == [] || a[0] != b[0]
    ensures LexLeq(a, b) <==> a == b || Precedes(a, b)
  {
    if b != [] && (a == [] || a[0] < b[0]) {
      assert FirstDifference(a, b, 0);
    }
    if Precedes(a, b) && a != [] {
      var k: nat :| FirstDifference(a, b, k) && (k == |a| || a[k] < b[k]);
      SharedHead(a, b, k);
    }
  }

  /** `sort()` on strings leaves them ascending in code-unit order. */
  lemma SortTextsAscends(s: seq<Text>, i: nat, j: nat)
    requires i < j < |s|
    ensures |SortTexts(s)| == |s|
    ensures SortTexts(s)[i] == SortTexts(s)[j] || Precedes(SortTexts(s)[i], SortTexts(s)[j])
  {
    LexOrder();
    SortSorts(s, LexLeq);
    LexMeans(SortTexts(s)[i], SortTexts(s)[j]);
  }

  /** Filtering before or after sorting makes no difference. */
  lemma FilterSortTexts(s: seq<Text>, p: Text -> bool)
    ensures Filter(SortTexts(s), p) == SortTexts(Filter(s, p))
  {
    LexOrder();
    SortSorts(s, LexLeq);
    SortSorts(Filter(s, p), LexLeq);
    FilterSorted(SortTexts(s), LexLeq, p);
    FilterPermutation(SortTexts(s), s, p);
    var a := Filter(SortTexts(s), p);
    forall x, y | x in a && y in a && LexLeq(x, y) && LexLeq(y, x) ensures x == y {
      LexAntisymmetric(x, y);
    }
    SortedUnique(a, SortTexts(Filter(s, p)), LexLeq);
  }

  /** `sort()` on strings depends on what is in the array and on nothing else. */
  lemma SortTextsSame(a: seq<Text>, b: seq<Text>)
    ensures SortTexts(a) == SortTexts(b) <==> multiset(a) == multiset(b)
  {
    LexOrder();
    if multiset(a) == multiset(b) {
      forall x, y | x in a && y in a && LexLeq(x, y) && LexLeq(y, x) ensures x == y {
        LexAntisymmetric(x, y);
      }
      SortOfPermutation(a, b, LexLeq);
    }
    SortSorts(a, LexLeq);
    SortSorts(b, LexLeq);
  }

  // ----- decimal numerals -----

  predicate IsDigit(u: Unit) { ZERO <= u <= 57 }

  predicate AllDigits(t: Text) { forall i | 0 <= i < |t| :: IsDigit(t[i]) }

  function NatText(n: nat): (t: Text)
    ensures t != [] && AllDigits(t)
    ensures t[0] == ZERO <==> n == 0
  {
    if n < 10 then [ZERO + n] else NatText(n / 10) + [ZERO + n % 10]
  }

  function ReadNat(t: Text): nat
    requires AllDigits(t)
  {
    if t == [] then 0 else ReadNat(t[..|t| - 1]) * 10 + (t[|t| - 1] - ZERO)
  }

  lemma {:induction false} ReadNatText(n: nat)
    ensures ReadNat(NatText(n)) == n
  {
    if n < 10 {
      assert NatText(n)[..0] == [];
    } else {
      ReadNatText(n / 10);
      assert NatText(n)[..|NatText(n)| - 1] == NatText(n / 10);
    }
  }

  lemma NatTextInjective(m: nat, n: nat)
    requires NatText(m) == NatText(n)
    ensures m == n
  {
    ReadNatText(m);
    ReadNatText(n);
  }

  // ----- splitting and joining -----

  /** The position of the first `u`, or the length where there is none. */
  function IndexOf(t: Text, u: Unit): (i: nat)
    ensures i <= |t|
    ensures i < |t| ==> t[i] == u
    ensures u !in t[..i]
  {
    if t == [] || t[0] == u then 0
    else
      var i := IndexOf(t[1..], u) + 1;
      assert t[..i] == [t[0]] + t[1..][..i - 1];
      i
  }

  lemma IndexOfAppend(a: Text, u: Unit, b: Text)
    requires u !in a
    ensures IndexOf(a + [u] + b, u) == |a|
  {
    var t := a + [u] + b;
    var i := IndexOf(t, u);
    assert t[|a|] == u && forall k | 0 <= k < |a| :: t[k] != u;
    assert forall k | 0 <= k < i :: t[..i][k] != u;
  }

  lemma IndexOfAbsent(t: Text, u: Unit)
    ensures u !in t <==> IndexOf(t, u) == |t|
  {
    assert t[..|t|] == t;
  }

  function Split(t: Text, sep: Unit): (parts: seq<Text>)
    ensures parts != []
    decreases |t|
  {
    var i := IndexOf(t, sep);
    if i == |t| then [t] else [t[..i]] + Split(t[i + 1..], sep)
  }

  function Join(parts: seq<Text>, sep: Text): Text {
    if parts == [] then []
    else if |parts| == 1 then parts[0]
    else parts[0] + sep + Join(parts[1..], sep)
  }

  lemma SplitHead(a: Text, sep: Unit, b: Text)
    requires sep !in a
    ensures Split(a + [sep] + b, sep) == [a] + Split(b, sep)
  {
    IndexOfAppend(a, sep, b);
    var t := a + [sep] + b;
    assert t[..|a|] == a && t[|a| + 1..] == b;
  }

  /** Parts that hold no separator survive joining. */
  lemma {:induction false} SplitJoin(parts: seq<Text>, sep: Unit)
    requires parts != [] && forall p | p in parts :: sep !in p
    ensures Split(Join(parts, [sep]), sep) == parts
  {
    IndexOfAbsent(parts[0], sep);
    if |parts| > 1 {
      SplitHead(parts[0], sep, Join(parts[1..], [sep]));
      SplitJoin(parts[1..], sep);
    }
  }

  /** Two texts cut at their first separator agree on both sides of it. */
  lemma CutUnique(a: Text, b: Text, c: Text, d: Text, sep: Unit)
    requires sep !in a && sep !in c
    requires a + [sep] + b == c + [sep] + d
    ensures a == c && b == d
  {
    IndexOfAppend(a, sep, b);
    IndexOfAppend(c, sep, d);
    var t := a + [sep] + b;
    assert a == t[..|a|] && c == t[..|c|];
    assert b == t[|a| + 1..] && d == (c + [sep] + d)[|c| + 1..];
  }

  /** A separator that the second parts do not have also cuts in one way. */
  lemma CutLastUnique(a: Text, b: Text, c: Text, d: Text, sep: Unit)
    requires sep !in b && sep !in d
    requires a + [sep] + b == c + [sep] + d
    ensures a == c && b == d
  {
    var t, u := a + [sep] + b, c + [sep] + d;
    assert t[|a|] == sep && u[|c|] == sep;
    assert a == t[..|a|] && c == u[..|c|] && b == t[|a| + 1..] && d == u[|c| + 1..];
  }
}
