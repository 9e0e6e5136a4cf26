/** Small shared vocabulary: optional values, texts and exact sums. */
module Basics {

  datatype Option<+T> = None | Some(value: T)

  function Abs(x: real): (r: real)
    ensures r >= 0.0 && (r == x || r == -x)
  {
    if x < 0.0 then -x else x
  }

  predicate IsSpace(c: char) {
    c == ' ' || c == '\t' || c == '\n' || c == '\r'
  }

  function TrimLeft(s: string): string {
    if s != [] && IsSpace(s[0]) then TrimLeft(s[1..]) else s
  }

  function TrimRight(s: string): string {
    if s != [] && IsSpace(s[|s| - 1]) then TrimRight(s[..|s| - 1]) else s
  }

  function Strip(s: string): string {
    TrimRight(TrimLeft(s))
  }

  function Upper(s: string): string {
    seq(|s|, i requires 0 <= i < |s| => if 'a' <= s[i] <= 'z' then (s[i] as int - 32) as char else s[i])
  }

  predicate Blank(s: string) {
    Strip(s) == ""
  }

  function Max(x: real, y: real): real {
    if x < y then y else x
  }

  function Min(x: int, y: int): int {
    if x < y then x else y
  }

  /** The exact sum of a sequence, accumulated from the left as a Python `sum` or `+=` loop does. */
  function Sum(s: seq<real>): real {
    if s == [] then 0.0 else Sum(s[..|s| - 1]) + s[|s| - 1]
  }

  function SumInts(s: seq<int>): int {
    if s == [] then 0 else SumInts(s[..|s| - 1]) + s[|s| - 1]
  }

  lemma SumSnoc(s: seq<real>, x: real)
    ensures Sum(s + [x]) == Sum(s) + x
  {
    assert (s + [x])[..|s|] == s;
  }

  lemma SumIntsSnoc(s: seq<int>, x: int)
    ensures SumInts(s + [x]) == SumInts(s) + x
  {
    assert (s + [x])[..|s|] == s;
  }

  lemma {:induction false} SumConcat(s: seq<real>, t: seq<real>)
    ensures Sum(s + t) == Sum(s) + Sum(t)
  {
    if t == [] {
      assert s + t == s;
    } else {
      var m := |t| - 1;
      assert s + t == (s + t[..m]) + [t[m]];
      SumSnoc(s + t[..m], t[m]);
      SumConcat(s, t[..m]);
    }
  }

  lemma {:induction false} SumScales(xs: seq<real>, ys: seq<real>, rate: real)
    requires |xs| == |ys| && forall i :: 0 <= i < |xs| ==> ys[i] == rate * xs[i]
    ensures Sum(ys) == rate * Sum(xs)
  {
    if xs != [] {
      SumScales(xs[..|xs| - 1], ys[..|ys| - 1], rate);
    }
  }

  lemma {:induction false} SumMonotone(xs: seq<real>, ys: seq<real>)
    requires |xs| == |ys| && forall i :: 0 <= i < |xs| ==> xs[i] <= ys[i]
    ensures Sum(xs) <= Sum(ys)
  {
    if xs != [] {
      SumMonotone(xs[..|xs| - 1], ys[..|ys| - 1]);
    }
  }

  predicate PassesOn(holds: seq<bool>, k: nat)
    requires k + 1 < |holds|
  {
    holds[k] ==> holds[k + 1]
  }

  /** What every step passes on, once true, stays true. */
  lemma {:induction false} Persists(holds: seq<bool>, i: nat, j: nat)
    requires i <= j < |holds| && holds[i] && forall k: nat :: i <= k < j ==> PassesOn(holds, k)
    ensures holds[j]
  {
    if i < j {
      Persists(holds, i, j - 1);
      assert PassesOn(holds, j - 1);
    }
  }

  function Mapped<T, U>(xs: seq<T>, f: T -> U): (ys: seq<U>)
    ensures |ys| == |xs| && forall i :: 0 <= i < |xs| ==> ys[i] == f(xs[i])
  {
    seq(|xs|, i requires 0 <= i < |xs| => f(xs[i]))
  }

  lemma MappedConcat<T, U>(xs: seq<T>, more: seq<T>, f: T -> U)
    ensures Mapped(xs + more, f) == Mapped(xs, f) + Mapped(more, f)
  {
  }

  lemma MappedPrefix<T, U>(xs: seq<T>, n: nat, f: T -> U)
    requires n <= |xs|
    ensures Mapped(xs, f)[..n] == Mapped(xs[..n], f)
  {
  }

  function Products(xs: seq<real>, ws: seq<real>): (products: seq<real>)
    requires |xs| == |ws|
    ensures |products| == |xs| && forall i :: 0 <= i < |xs| ==> products[i] == xs[i] * ws[i]
  {
    seq(|xs|, i requires 0 <= i < |xs| => xs[i] * ws[i])
  }

  function Scaled(ws: seq<real>, factor: real): (scaled: seq<real>)
    ensures |scaled| == |ws| && forall i :: 0 <= i < |ws| ==> scaled[i] == factor * ws[i]
  {
    seq(|ws|, i requires 0 <= i < |ws| => factor * ws[i])
  }

  lemma ProductsAreBetween(xs: seq<real>, ws: seq<real>, lo: real, hi: real)
    requires |xs| == |ws|
    requires forall i :: 0 <= i < |xs| ==> lo <= xs[i] <= hi && ws[i] >= 0.0
    ensures Sum(Scaled(ws, lo)) <= Sum(Products(xs, ws)) <= Sum(Scaled(ws, hi))
  {
    var lows, products, highs := Scaled(ws, lo), Products(xs, ws), Scaled(ws, hi);
    forall i | 0 <= i < |xs| ensures lows[i] <= products[i] <= highs[i] {
      ProductBounds(xs[i], ws[i], lo, hi);
    }
    SumMonotone(lows, products);
    SumMonotone(products, highs);
  }

  lemma ProductsBounds(xs: seq<real>, ws: seq<real>, lo: real, hi: real)
    requires |xs| == |ws|
    requires forall i :: 0 <= i < |xs| ==> lo <= xs[i] <= hi && ws[i] >= 0.0
    ensures lo * Sum(ws) <= Sum(Products(xs, ws)) <= hi * Sum(ws)
  {
    ProductsAreBetween(xs, ws, lo, hi);
    SumScales(ws, Scaled(ws, lo), lo);
    SumScales(ws, Scaled(ws, hi), hi);
  }

  lemma ProductBounds(x: real, w: real, lo: real, hi: real)
    requires w >= 0.0 && lo <= x <= hi
    ensures lo * w <= x * w <= hi * w
  {
  }

  lemma QuotientBounds(sum: real, total: real, lo: real, hi: real)
    requires total > 0.0 && lo * total <= sum <= hi * total
    ensures lo <= sum / total <= hi
  {
    var q := sum / total;
    assert q * total == sum;
  }

  lemma {:induction false} SumOfSizes(sizes: seq<real>)
    requires forall i :: 0 <= i < |sizes| ==> sizes[i] >= 0.0
    ensures Sum(sizes) >= 0.0
  {
    if sizes != [] {
      SumOfSizes(sizes[..|sizes| - 1]);
    }
  }

  lemma AverageBounds(xs: seq<real>, ws: seq<real>, lo: real, hi: real)
    requires |xs| == |ws| && Sum(ws) != 0.0
    requires forall i :: 0 <= i < |xs| ==> lo <= xs[i] <= hi && ws[i] >= 0.0
    ensures lo <= Sum(Products(xs, ws)) / Sum(ws) <= hi
  {
    var sum, total := SumAndTotal(xs, ws, lo, hi);
    QuotientBounds(sum, total, lo, hi);
  }

  lemma SumAndTotal(xs: seq<real>, ws: seq<real>, lo: real, hi: real) returns (sum: real, total: real)
    requires |xs| == |ws| && Sum(ws) != 0.0
    requires forall i :: 0 <= i < |xs| ==> lo <= xs[i] <= hi && ws[i] >= 0.0
    ensures sum == Sum(Products(xs, ws)) && total == Sum(ws) && total > 0.0 && lo * total <= sum <= hi * total
  {
    SumOfSizes(ws);
    ProductsBounds(xs, ws, lo, hi);
    sum, total := Sum(Products(xs, ws)), Sum(ws);
  }
}
