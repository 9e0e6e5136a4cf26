/** Maximum drawdown of a sequence of trade results. */
module Drawdown {
  import opened Basics

  /** The balance after the first i trades, starting from zero. */
  function Balance(pnls: seq<real>, i: nat): real
    requires i <= |pnls|
  {
    Sum(pnls[..i])
  }

  lemma BalanceAfter(pnls: seq<real>, i: nat)
    requires i < |pnls|
    ensures Balance(pnls, i + 1) == Balance(pnls, i) + pnls[i]
  {
    assert pnls[..i + 1][..i] == pnls[..i];
  }

  ghost predicate IsFall(pnls: seq<real>, fall: real) {
    exists i: nat, j: nat :: IsFallBetween(pnls, fall, i, j)
  }

  ghost predicate IsFallBetween(pnls: seq<real>, fall: real, i: nat, j: nat) {
    i <= j <= |pnls| && fall == Balance(pnls, i) - Balance(pnls, j)
  }

  /** No balance up to the n-th is above the peak. */
  ghost predicate NoneAbove(pnls: seq<real>, n: nat, peak: real) {
    n <= |pnls| && forall i: nat :: i <= n ==> Balance(pnls, i) <= peak
  }

  /** No fall that ends by the n-th balance is deeper. */
  ghost predicate NoneDeeper(pnls: seq<real>, n: nat, fall: real) {
    n <= |pnls| && forall i: nat, j: nat :: i <= j <= n ==> Balance(pnls, i) - Balance(pnls, j) <= fall
  }

  lemma OneMoreBalance(pnls: seq<real>, n: nat, peak: real, fall: real, peak': real, fall': real)
    requires n < |pnls| && NoneAbove(pnls, n, peak) && NoneDeeper(pnls, n, fall)
    requires peak <= peak' && Balance(pnls, n + 1) <= peak' && fall <= fall' && peak' - Balance(pnls, n + 1) <= fall'
    ensures NoneAbove(pnls, n + 1, peak') && NoneDeeper(pnls, n + 1, fall')
  {
  }

  /** One pass finds the largest fall of the balance from any earlier point to any later one. */
  method MaxDrawdown(pnls: seq<real>) returns (result: Option<real>)
    ensures result.None? <==> pnls == []
    ensures result.Some? ==> IsFall(pnls, result.value)
    ensures result.Some? ==> forall i: nat, j: nat :: i <= j <= |pnls| ==> Balance(pnls, i) - Balance(pnls, j) <= result.value
  {
    if |pnls| == 0 {
      return None;
    }
    var cumulative, peak, drawdown := 0.0, 0.0, 0.0;
    ghost var top: nat, from: nat, to: nat := 0, 0, 0;
    for n := 0 to |pnls|
      invariant cumulative == Balance(pnls, n)
      invariant top <= n && peak == Balance(pnls, top) && NoneAbove(pnls, n, peak)
      invariant from <= to <= n && drawdown == Balance(pnls, from) - Balance(pnls, to)
      invariant NoneDeeper(pnls, n, drawdown)
    {
      BalanceAfter(pnls, n);
      ghost var lastPeak, lastDrawdown := peak, drawdown;
      cumulative := cumulative + pnls[n];
      if cumulative > peak {
        peak, top := cumulative, n + 1;
      }
      if peak - cumulative > drawdown {
        drawdown, from, to := peak - cumulative, top, n + 1;
      }
      OneMoreBalance(pnls, n, lastPeak, lastDrawdown, peak, drawdown);
    }
    assert IsFallBetween(pnls, drawdown, from, to);
    result := Some(drawdown);
  }
}
