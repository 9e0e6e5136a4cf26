/** The excursion tracker: throttled samples of how far price moved against and for a trade. */
module Excursions {
  import opened Basics

  datatype Trade = Trade(id: string, instrument: string, units: real, openPrice: real)
  datatype Tick = Tick(instrument: string, bid: real, ask: real)
  datatype Sample = Sample(tradeId: string, adverse: real, favorable: real)

  function NonNegative(x: real): real {
    Max(0.0, x)
  }

  function BuildSample(trade: Trade, tick: Tick, pip: real): Sample
    requires pip > 0.0
  {
    if trade.units > 0.0 then
      Sample(trade.id, NonNegative((trade.openPrice - tick.bid) / pip), NonNegative((tick.bid - trade.openPrice) / pip))
    else
      Sample(trade.id, NonNegative((tick.ask - trade.openPrice) / pip), NonNegative((trade.openPrice - tick.ask) / pip))
  }

  /** A sample splits the signed move at the price the trade would close at into its two sides. */
  lemma SampleIsTheSignedMove(trade: Trade, tick: Tick, pip: real)
    requires pip > 0.0
    ensures var s := BuildSample(trade, tick, pip);
            var exit := if trade.units > 0.0 then tick.bid else tick.ask;
            var move := (if trade.units > 0.0 then exit - trade.openPrice else trade.openPrice - exit) / pip;
            s.tradeId == trade.id && s.adverse >= 0.0 && s.favorable >= 0.0 && (s.adverse == 0.0 || s.favorable == 0.0) &&
            s.favorable - s.adverse == move
  {
    var exit := if trade.units > 0.0 then tick.bid else tick.ask;
    OppositeQuotients(exit - trade.openPrice, pip);
    OppositeQuotients(trade.openPrice - exit, pip);
  }

  lemma OppositeQuotients(x: real, pip: real)
    requires pip > 0.0
    ensures (-x) / pip == -(x / pip) && (x >= 0.0 ==> x / pip >= 0.0)
  {
  }

  /** Two samples are close when neither side differs by the minimum move. */
  predicate Close(a: Sample, b: Sample, minMove: real) {
    Abs(a.adverse - b.adverse) < minMove && Abs(a.favorable - b.favorable) < minMove
  }

  function ForTrade(samples: seq<Sample>, id: string): seq<Sample> {
    if samples == [] then []
    else ForTrade(samples[..|samples| - 1], id) + (if samples[|samples| - 1].tradeId == id then [samples[|samples| - 1]] else [])
  }

  lemma {:induction false} ForTradeMember(samples: seq<Sample>, id: string, s: Sample)
    ensures s in ForTrade(samples, id) <==> s in samples && s.tradeId == id
  {
    if samples != [] {
      var n := |samples| - 1;
      ForTradeMember(samples[..n], id, s);
      assert samples == samples[..n] + [samples[n]];
    }
  }

  function WorstAdverse(samples: seq<Sample>): real
    requires samples != []
  {
    var n := |samples| - 1;
    if n == 0 then samples[0].adverse else Max(WorstAdverse(samples[..n]), samples[n].adverse)
  }

  function BestFavorable(samples: seq<Sample>): real
    requires samples != []
  {
    var n := |samples| - 1;
    if n == 0 then samples[0].favorable else Max(BestFavorable(samples[..n]), samples[n].favorable)
  }

  lemma {:induction false} ExtremesAreReached(samples: seq<Sample>) returns (worst: Sample, best: Sample)
    requires samples != []
    ensures worst in samples && worst.adverse == WorstAdverse(samples)
    ensures best in samples && best.favorable == BestFavorable(samples)
  {
    var n := |samples| - 1;
    worst, best := samples[n], samples[n];
    if n > 0 {
      var w, b := ExtremesAreReached(samples[..n]);
      if WorstAdverse(samples) != samples[n].adverse { worst := w; }
      if BestFavorable(samples) != samples[n].favorable { best := b; }
    }
  }

  lemma {:induction false} ExtremesBound(samples: seq<Sample>, s: Sample)
    requires s in samples
    ensures s.adverse <= WorstAdverse(samples) && s.favorable <= BestFavorable(samples)
  {
    var n := |samples| - 1;
    if n > 0 && s in samples[..n] {
      ExtremesBound(samples[..n], s);
    }
  }

  ghost predicate HasShadow(s: Sample, stored: seq<Sample>, minMove: real) {
    exists i :: 0 <= i < |stored| && stored[i].tradeId == s.tradeId && Close(s, stored[i], minMove)
  }

  /** Every sample seen is close to a stored one. */
  ghost predicate Covered(seen: seq<Sample>, stored: seq<Sample>, minMove: real) {
    seen == [] ||
    (HasShadow(seen[|seen| - 1], stored, minMove) && Covered(seen[..|seen| - 1], stored, minMove))
  }

  /** What is stored was seen, in the same order. */
  ghost predicate Subsequence(stored: seq<Sample>, seen: seq<Sample>) {
    if seen == [] then stored == []
    else
      var n := |seen| - 1;
      Subsequence(stored, seen[..n]) ||
      (stored != [] && stored[|stored| - 1] == seen[n] && Subsequence(stored[..|stored| - 1], seen[..n]))
  }

  ghost predicate Shadowed(seen: seq<Sample>, stored: seq<Sample>, minMove: real) {
    Subsequence(stored, seen) && Covered(seen, stored, minMove)
  }

  lemma {:induction false} SubsequenceMember(stored: seq<Sample>, seen: seq<Sample>, s: Sample)
    requires Subsequence(stored, seen) && s in stored
    ensures s in seen
  {
    var n := |seen| - 1;
    if Subsequence(stored, seen[..n]) {
      SubsequenceMember(stored, seen[..n], s);
    } else if s != seen[n] {
      SubsequenceMember(stored[..|stored| - 1], seen[..n], s);
    }
  }

  lemma {:induction false} CoveredStays(seen: seq<Sample>, stored: seq<Sample>, sample: Sample, minMove: real)
    requires Covered(seen, stored, minMove)
    ensures Covered(seen, stored + [sample], minMove)
  {
    if seen != [] {
      ShadowsStay(seen[|seen| - 1], stored, sample, minMove);
      CoveredStays(seen[..|seen| - 1], stored, sample, minMove);
    }
  }

  lemma SeenGrows(seen: seq<Sample>, stored: seq<Sample>, sample: Sample, minMove: real)
    requires Covered(seen, stored, minMove) && HasShadow(sample, stored, minMove)
    ensures Covered(seen + [sample], stored, minMove)
  {
    assert (seen + [sample])[..|seen|] == seen;
  }

  lemma SubsequenceGrows(stored: seq<Sample>, seen: seq<Sample>, sample: Sample)
    requires Subsequence(stored, seen)
    ensures Subsequence(stored, seen + [sample]) && Subsequence(stored + [sample], seen + [sample])
  {
    assert (seen + [sample])[..|seen|] == seen;
    assert (stored + [sample])[..|stored|] == stored;
  }

  /** The stored extremes understate the true ones by less than the minimum move. */
  lemma ThrottlingLosesLessThanOneMove(seen: seq<Sample>, stored: seq<Sample>, minMove: real, id: string)
    requires Shadowed(seen, stored, minMove) && ForTrade(seen, id) != []
    ensures ForTrade(stored, id) != []
    ensures WorstAdverse(ForTrade(stored, id)) <= WorstAdverse(ForTrade(seen, id)) < WorstAdverse(ForTrade(stored, id)) + minMove
    ensures BestFavorable(ForTrade(stored, id)) <= BestFavorable(ForTrade(seen, id)) < BestFavorable(ForTrade(stored, id)) + minMove
  {
    var all, kept := ForTrade(seen, id), ForTrade(stored, id);
    var worst, best := ExtremesAreReached(all);
    KeptNear(seen, stored, minMove, id, worst);
    KeptNear(seen, stored, minMove, id, best);
    var w, f := ExtremesAreReached(kept);
    StoredIsSeen(seen, stored, minMove, id, w);
    StoredIsSeen(seen, stored, minMove, id, f);
  }

  /** Some kept sample is close to a seen one, so the kept extremes are. */
  lemma KeptNear(seen: seq<Sample>, stored: seq<Sample>, minMove: real, id: string, s: Sample)
    requires Shadowed(seen, stored, minMove) && s in ForTrade(seen, id)
    ensures ForTrade(stored, id) != []
    ensures s.adverse < WorstAdverse(ForTrade(stored, id)) + minMove && s.favorable < BestFavorable(ForTrade(stored, id)) + minMove
  {
    ForTradeMember(seen, id, s);
    var near := ShadowOf(seen, stored, minMove, s);
    ForTradeMember(stored, id, near);
    ExtremesBound(ForTrade(stored, id), near);
  }

  lemma StoredIsSeen(seen: seq<Sample>, stored: seq<Sample>, minMove: real, id: string, s: Sample)
    requires Shadowed(seen, stored, minMove) && s in ForTrade(stored, id)
    ensures s in ForTrade(seen, id)
    ensures s.adverse <= WorstAdverse(ForTrade(seen, id)) && s.favorable <= BestFavorable(ForTrade(seen, id))
  {
    ForTradeMember(stored, id, s);
    SubsequenceMember(stored, seen, s);
    ForTradeMember(seen, id, s);
    ExtremesBound(ForTrade(seen, id), s);
  }

  lemma {:induction false} ShadowOf(seen: seq<Sample>, stored: seq<Sample>, minMove: real, s: Sample) returns (near: Sample)
    requires Covered(seen, stored, minMove) && s in seen
    ensures near in stored && near.tradeId == s.tradeId && Close(s, near, minMove)
  {
    if s == seen[|seen| - 1] {
      var i :| 0 <= i < |stored| && stored[i].tradeId == s.tradeId && Close(s, stored[i], minMove);
      near := stored[i];
    } else {
      near := ShadowOf(seen[..|seen| - 1], stored, minMove, s);
    }
  }

  class ExcursionTracker {
    const minMove: real
    const pips: map<string, real>
    var lastWritten: map<string, Sample>
    var stored: seq<Sample>
    /** Every sample of every tick the tracker got through, stored or not. */
    ghost var seen: seq<Sample>

    ghost predicate Valid()
      reads this
    {
      minMove > 0.0 && (forall i :: i in pips ==> pips[i] > 0.0) && Shadowed(seen, stored, minMove) &&
      forall id :: id in lastWritten ==> lastWritten[id] in stored && lastWritten[id].tradeId == id
    }

    constructor (minMove: real, pips: map<string, real>)
      requires minMove > 0.0 && forall i :: i in pips ==> pips[i] > 0.0
      ensures Valid() && stored == [] && seen == [] && this.minMove == minMove && this.pips == pips
    {
      this.minMove, this.pips, lastWritten, stored, seen := minMove, pips, map[], [], [];
    }

    predicate ShouldWrite(sample: Sample)
      reads this
    {
      sample.tradeId !in lastWritten ||
      Abs(sample.adverse - lastWritten[sample.tradeId].adverse) >= minMove ||
      Abs(sample.favorable - lastWritten[sample.tradeId].favorable) >= minMove
    }

    /** Handles a tick for one open trade of its instrument. */
    method ProcessTrade(trade: Trade, tick: Tick, canWrite: bool) returns (ok: bool, written: Option<Sample>)
      requires Valid() && trade.instrument in pips
      modifies this
      ensures Valid()
      ensures stored == old(stored) + (if written.Some? then [written.value] else [])
      ensures seen == old(seen) + (if ok then [BuildSample(trade, tick, pips[trade.instrument])] else [])
      ensures (written.Some? ==> ok && canWrite) && (!ok ==> !canWrite)
      ensures var sample, last := BuildSample(trade, tick, pips[trade.instrument]), old(lastWritten);
              (!ok || written.Some? <==> trade.id !in last || !Close(sample, last[trade.id], minMove)) &&
              lastWritten == (if written.Some? then last[trade.id := sample] else last) &&
              (written.Some? ==> written == Some(sample))
    {
      var sample := BuildSample(trade, tick, pips[trade.instrument]);
      ok, written := true, None;
      if ShouldWrite(sample) {
        if !canWrite {
          return false, None;
        }
        StoreOne(seen, stored, sample, minMove);
        stored, seen := stored + [sample], seen + [sample];
        lastWritten := lastWritten[trade.id := sample];
        written := Some(sample);
      } else {
        SkipOne(seen, stored, sample, lastWritten[trade.id], minMove);
        seen := seen + [sample];
      }
    }

    /** Handles a tick for every open trade of its instrument; `writesLeft` inserts succeed
        before the store raises. */
    method ProcessTick(open: seq<Trade>, tick: Tick, writesLeft: nat) returns (ok: bool, written: seq<Sample>)
      requires Valid()
      modifies this
      ensures Valid()
      ensures stored == old(stored) + written && |written| <= writesLeft
      ensures exists n :: 0 <= n <= |open| && (ok ==> n == |open|) && seen == old(seen) + SamplesOf(open, tick, n)
      ensures !ok ==> |written| == writesLeft || tick.instrument !in pips
    {
      ok, written := true, [];
      for i := 0 to |open|
        invariant Valid() && stored == old(stored) + written && |written| <= writesLeft
        invariant seen == old(seen) + SamplesOf(open, tick, i)
      {
        var trade := open[i];
        if trade.instrument == tick.instrument {
          if trade.instrument !in pips {
            ok := false;
            return;
          }
          var one;
          ok, one := ProcessTrade(trade, tick, |written| < writesLeft);
          if !ok {
            return;
          }
          if one.Some? {
            written := written + [one.value];
          }
        }
      }
      ok := true;
    }

    /** The samples of the first n open trades a tick concerns. */
    ghost function SamplesOf(open: seq<Trade>, tick: Tick, n: nat): seq<Sample>
      requires n <= |open| && forall i :: i in pips ==> pips[i] > 0.0
    {
      if n == 0 then []
      else
        var trade := open[n - 1];
        SamplesOf(open, tick, n - 1) +
        (if trade.instrument == tick.instrument && trade.instrument in pips then [BuildSample(trade, tick, pips[trade.instrument])] else [])
    }

    /** A restart forgets what was last written, and nothing else. */
    method Restart()
      requires Valid()
      modifies this`lastWritten
      ensures Valid() && lastWritten == map[]
    {
      lastWritten := map[];
    }

    method GetTradeMaeMfe(id: string) returns (summary: Option<(real, real)>)
      requires Valid()
      ensures summary.None? <==> ForTrade(seen, id) == []
      ensures summary.Some? ==>
                summary.value.0 <= WorstAdverse(ForTrade(seen, id)) < summary.value.0 + minMove &&
                summary.value.1 <= BestFavorable(ForTrade(seen, id)) < summary.value.1 + minMove
    {
      var samples := ForTrade(stored, id);
      if samples == [] {
        NothingStoredNothingSeen(seen, stored, minMove, id);
        return None;
      }
      StoredIsSeen(seen, stored, minMove, id, samples[0]);
      ThrottlingLosesLessThanOneMove(seen, stored, minMove, id);
      summary := Some((WorstAdverse(samples), BestFavorable(samples)));
    }
  }

  lemma NothingStoredNothingSeen(seen: seq<Sample>, stored: seq<Sample>, minMove: real, id: string)
    requires Shadowed(seen, stored, minMove) && ForTrade(stored, id) == []
    ensures ForTrade(seen, id) == []
  {
    if ForTrade(seen, id) != [] {
      ThrottlingLosesLessThanOneMove(seen, stored, minMove, id);
    }
  }

  lemma ShadowsStay(s: Sample, stored: seq<Sample>, sample: Sample, minMove: real)
    requires HasShadow(s, stored, minMove)
    ensures HasShadow(s, stored + [sample], minMove)
  {
    var i :| 0 <= i < |stored| && stored[i].tradeId == s.tradeId && Close(s, stored[i], minMove);
    assert (stored + [sample])[i] == stored[i];
  }

  lemma NewestShadowsItself(stored: seq<Sample>, sample: Sample, minMove: real)
    requires minMove > 0.0
    ensures HasShadow(sample, stored + [sample], minMove)
  {
    assert (stored + [sample])[|stored|] == sample && Close(sample, sample, minMove);
  }

  lemma StoreOne(seen: seq<Sample>, stored: seq<Sample>, sample: Sample, minMove: real)
    requires minMove > 0.0 && Shadowed(seen, stored, minMove)
    ensures Shadowed(seen + [sample], stored + [sample], minMove)
  {
    SubsequenceGrows(stored, seen, sample);
    CoveredStays(seen, stored, sample, minMove);
    NewestShadowsItself(stored, sample, minMove);
    SeenGrows(seen, stored + [sample], sample, minMove);
  }

  lemma SkipOne(seen: seq<Sample>, stored: seq<Sample>, sample: Sample, last: Sample, minMove: real)
    requires Shadowed(seen, stored, minMove) && last in stored && last.tradeId == sample.tradeId && Close(sample, last, minMove)
    ensures Shadowed(seen + [sample], stored, minMove)
  {
    var i :| 0 <= i < |stored| && stored[i] == last;
    assert HasShadow(sample, stored, minMove);
    SubsequenceGrows(stored, seen, sample);
    SeenGrows(seen, stored, sample, minMove);
  }
}
