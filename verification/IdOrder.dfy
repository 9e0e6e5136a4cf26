/**
 * Transaction ids as text: zero-padded sort keys, and the event ids built from them.
 */
module IdOrder {

  const KEY_WIDTH: nat := 20

  /** Python's `<` on strings. */
  predicate LexLess(a: string, b: string) {
    if b == [] then false
    else if a == [] then true
    else if a[0] != b[0] then a[0] < b[0]
    else LexLess(a[1..], b[1..])
  }

  lemma {:induction false} LexIrreflexive(a: string)
    ensures !LexLess(a, a)
  {
    if a != [] { LexIrreflexive(a[1..]); }
  }

  lemma {:induction false} LexTotal(a: string, b: string)
    ensures a == b || LexLess(a, b) || LexLess(b, a)
  {
    if a != [] && b != [] && a[0] == b[0] {
      LexTotal(a[1..], b[1..]);
      assert a == [a[0]] + a[1..] && b == [b[0]] + b[1..];
    }
  }

  lemma {:induction false} LexTransitive(a: string, b: string, c: string)
    requires LexLess(a, b) && LexLess(b, c)
    ensures LexLess(a, c)
  {
    if a != [] && a[0] == b[0] == c[0] {
      LexTransitive(a[1..], b[1..], c[1..]);
    }
  }

  lemma {:induction false} LexSnoc(a: string, b: string, x: char, y: char)
    requires |a| == |b|
    ensures LexLess(a + [x], b + [y]) <==> LexLess(a, b) || (a == b && x < y)
  {
    if a == [] {
      assert a + [x] == [x] && b + [y] == [y];
      assert [x][1..] == [] && [y][1..] == [];
    } else {
      assert (a + [x])[1..] == a[1..] + [x] && (b + [y])[1..] == b[1..] + [y];
      assert a == [a[0]] + a[1..] && b == [b[0]] + b[1..];
      LexSnoc(a[1..], b[1..], x, y);
    }
  }

  function Digit(d: nat): (c: char)
    requires d < 10
    ensures c != ':'
  {
    (d + 48) as char
  }

  predicate NoColon(s: string) {
    forall i :: 0 <= i < |s| ==> s[i] != ':'
  }

  function Digits(n: nat): (s: string)
    ensures s != [] && NoColon(s)
  {
    if n < 10 then [Digit(n)] else Digits(n / 10) + [Digit(n % 10)]
  }

  function Pow10(k: nat): (p: nat)
    ensures p > 0
  {
    if k == 0 then 1 else 10 * Pow10(k - 1)
  }

  /** The zero-padded rendering `f"{n:020d}"`: at least `width` characters, never truncated. */
  function Padded(n: nat, width: nat): string {
    var digits := Digits(n);
    (if |digits| < width then seq(width - |digits|, _ => '0') else []) + digits
  }

  function SortKey(n: nat): string {
    Padded(n, KEY_WIDTH)
  }

  lemma {:induction false} PaddedUnfolds(n: nat, width: nat)
    requires width > 0 && n < Pow10(width)
    ensures |Padded(n, width)| == width
    ensures Padded(n, width) == (if width == 1 then [] else Padded(n / 10, width - 1)) + [Digit(n % 10)]
  {
    if width > 1 {
      PaddedUnfolds(n / 10, width - 1);
      if n < 10 {
        assert Digits(n / 10) == [Digit(0)];
        assert seq(width - 1, _ => '0') == seq(width - 2, _ => '0') + ['0'];
      } else {
        assert Padded(n, width) == Padded(n / 10, width - 1) + [Digit(n % 10)];
      }
    }
  }

  lemma {:induction false} PaddedOrder(n: nat, m: nat, width: nat)
    requires width > 0 && n < Pow10(width) && m < Pow10(width)
    ensures LexLess(Padded(n, width), Padded(m, width)) <==> n < m
    ensures Padded(n, width) == Padded(m, width) <==> n == m
  {
    PaddedUnfolds(n, width);
    PaddedUnfolds(m, width);
    if width == 1 {
      assert [Digit(n)][0] == Digit(n) && [Digit(m)][0] == Digit(m);
      LexSnoc([], [], Digit(n), Digit(m));
    } else {
      PaddedOrder(n / 10, m / 10, width - 1);
      assert Padded(n, width) == Padded(m, width) ==> Padded(n, width)[..width - 1] == Padded(m, width)[..width - 1];
      assert Padded(n, width) == Padded(m, width) ==> Padded(n, width)[width - 1] == Padded(m, width)[width - 1];
      assert Padded(n, width)[..width - 1] == Padded(n / 10, width - 1);
      assert Padded(m, width)[..width - 1] == Padded(m / 10, width - 1);
      PaddedUnfolds(n / 10, width - 1);
      PaddedUnfolds(m / 10, width - 1);
      LexSnoc(Padded(n / 10, width - 1), Padded(m / 10, width - 1), Digit(n % 10), Digit(m % 10));
    }
  }

  ghost predicate KeysAgreeUpTo(bound: nat) {
    forall n: nat, m: nat :: n <= bound && m <= bound ==> (LexLess(SortKey(n), SortKey(m)) <==> n < m)
  }

  lemma {:induction false} LeadingDigit(d: nat, k: nat)
    requires 0 < d < 10
    ensures Digits(d * Pow10(k))[0] == Digit(d) && |Digits(d * Pow10(k))| == k + 1
  {
    if k > 0 {
      LeadingDigit(d, k - 1);
      TimesTen(d, k);
      OneMoreZero(d * Pow10(k - 1));
    }
  }

  lemma TimesTen(d: nat, k: nat)
    requires k > 0
    ensures d * Pow10(k) == 10 * (d * Pow10(k - 1))
  {
  }

  lemma OneMoreZero(n: nat)
    requires n > 0
    ensures Digits(10 * n) == Digits(n) + [Digit(0)]
  {
    assert (10 * n) / 10 == n;
  }

  /** Comparing padded ids as text is comparing them as numbers exactly while every id fits
      the padding. */
  lemma SortKeysAgreeIffIdsFit(bound: nat)
    ensures KeysAgreeUpTo(bound) <==> bound < Pow10(KEY_WIDTH)
  {
    if bound < Pow10(KEY_WIDTH) {
      forall n: nat, m: nat | n <= bound && m <= bound
        ensures LexLess(SortKey(n), SortKey(m)) <==> n < m
      {
        PaddedOrder(n, m, KEY_WIDTH);
      }
    } else {
      var wide, narrow := 1 * Pow10(KEY_WIDTH), 2 * Pow10(KEY_WIDTH - 1);
      LeadingDigit(1, KEY_WIDTH);
      LeadingDigit(2, KEY_WIDTH - 1);
      assert Pow10(KEY_WIDTH) == 10 * Pow10(KEY_WIDTH - 1);
      assert narrow < wide <= bound;
      assert !LexLess(SortKey(narrow), SortKey(wide));
    }
  }

  /** The stable event id: transaction id, event label and subject joined by colons. */
  function EventId(transactionId: nat, kind: string, subject: string): string {
    Digits(transactionId) + ":" + kind + ":" + subject
  }

  lemma {:induction false} ColonSplit(a: string, b: string, x: string, y: string)
    requires NoColon(a) && NoColon(b)
    requires a + ":" + x == b + ":" + y
    ensures a == b && x == y
  {
    var left, right := a + ":" + x, b + ":" + y;
    assert left[0] == if a == [] then ':' else a[0];
    assert right[0] == if b == [] then ':' else b[0];
    if a == [] {
      assert x == left[1..] == right[1..] == y;
    } else {
      assert left[1..] == a[1..] + ":" + x;
      assert right[1..] == b[1..] + ":" + y;
      ColonSplit(a[1..], b[1..], x, y);
      assert a == [a[0]] + a[1..] && b == [b[0]] + b[1..];
    }
  }

  lemma {:induction false} DigitsInjective(n: nat, m: nat)
    requires Digits(n) == Digits(m)
    ensures n == m
  {
    if n >= 10 && m >= 10 {
      var a, b := Digits(n), Digits(m);
      assert a[..|a| - 1] == Digits(n / 10) && b[..|b| - 1] == Digits(m / 10);
      assert a[|a| - 1] == Digit(n % 10) && b[|b| - 1] == Digit(m % 10);
      DigitsInjective(n / 10, m / 10);
    }
  }

  /** An event id determines the transaction, the label and the subject it was made from. */
  lemma EventIdsAreUnambiguous(t1: nat, l1: string, s1: string, t2: nat, l2: string, s2: string)
    requires NoColon(l1) && NoColon(l2)
    requires EventId(t1, l1, s1) == EventId(t2, l2, s2)
    ensures t1 == t2 && l1 == l2 && s1 == s2
  {
    assert EventId(t1, l1, s1) == Digits(t1) + ":" + (l1 + ":" + s1);
    assert EventId(t2, l2, s2) == Digits(t2) + ":" + (l2 + ":" + s2);
    ColonSplit(Digits(t1), Digits(t2), l1 + ":" + s1, l2 + ":" + s2);
    DigitsInjective(t1, t2);
    ColonSplit(l1, l2, s1, s2);
  }
}
