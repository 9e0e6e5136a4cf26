/** Trade records, and the projection of a trade's event legs onto its record. */
module TradeProjection {
  import opened Basics
  import opened Transactions
  import opened CloseReasons
  import opened EventTable
  import TradeNormalizer

  /** The fields only a CLOSED record has. */
  datatype Closing = Closing(price: real, reason: CloseReason, pips: real, pnl: real, closedAt: int)

  /** A record is OPEN exactly when it has no closing. */
  datatype TradeRecord = TradeRecord(
    tradeId: string, instrument: string, units: real, openPrice: real,
    slPrice: Option<real>, tpPrice: Option<real>, gsloPrice: Option<real>,
    openedAt: int, notes: Option<string>, closing: Option<Closing>)
  {
    predicate Closed() {
      closing.Some?
    }

    /** What record validation accepts. */
    predicate Valid() {
      !Blank(tradeId) && ValidSymbol(instrument) && units != 0.0 && openPrice > 0.0 &&
      Positive(slPrice) && Positive(tpPrice) && Positive(gsloPrice) &&
      (closing.Some? ==> closing.value.price > 0.0 && closing.value.closedAt >= openedAt)
    }
  }

  /** The same trade, opened alike. */
  predicate SameOpening(a: TradeRecord, b: TradeRecord) {
    a.tradeId == b.tradeId && a.instrument == b.instrument && a.units == b.units && a.openPrice == b.openPrice &&
    a.openedAt == b.openedAt && a.notes == b.notes
  }

  predicate SameStops(a: TradeRecord, b: TradeRecord) {
    a.slPrice == b.slPrice && a.tpPrice == b.tpPrice && a.gsloPrice == b.gsloPrice
  }

  predicate Positive(price: Option<real>) {
    price.Some? ==> price.value > 0.0
  }

  // ---- Pips ----------------------------------------------------------------------------

  predicate StartsWith(s: string, prefix: string) {
    prefix <= s
  }

  /** The currency after the first underscore, if there is one. */
  function QuoteCurrency(instrument: string): Option<string> {
    if instrument == "" then None
    else if instrument[0] == '_' then Some(instrument[1..])
    else QuoteCurrency(instrument[1..])
  }

  /** The registered pip size, else the convention for the instrument's currencies. */
  function PipSize(registry: map<string, real>, instrument: string): Option<real> {
    if instrument in registry then Some(registry[instrument])
    else
      match QuoteCurrency(instrument)
      case None => None
      case Some(quote) =>
        if StartsWith(instrument, "XAU_") then Some(0.01)
        else if StartsWith(instrument, "XAG_") then Some(0.0001)
        else if quote in {"JPY", "HUF"} then Some(0.01)
        else Some(0.0001)
  }

  predicate NoUnderscore(s: string) {
    forall i :: 0 <= i < |s| ==> s[i] != '_'
  }

  /** The pip size of a pair of currencies that is not registered: gold and yen or forint quotes
      have a hundredth, everything else a ten-thousandth.  What is no pair has none. */
  lemma PipSizeSays(registry: map<string, real>, base: string, quote: string, symbol: string)
    requires NoUnderscore(base)
    ensures base + "_" + quote !in registry ==>
              PipSize(registry, base + "_" + quote) == Some(
                if base == "XAU" then 0.01 else if base == "XAG" then 0.0001
                else if quote == "JPY" || quote == "HUF" then 0.01 else 0.0001)
    ensures symbol in registry ==> PipSize(registry, symbol) == Some(registry[symbol])
    ensures symbol !in registry ==> (PipSize(registry, symbol).None? <==> NoUnderscore(symbol))
  {
    QuoteIsWhatFollows(base, quote);
    PrefixIsTheBase(base, quote, "XAU");
    PrefixIsTheBase(base, quote, "XAG");
    PairsHaveAnUnderscore(symbol);
  }

  lemma {:induction false} QuoteIsWhatFollows(base: string, quote: string)
    requires NoUnderscore(base)
    ensures QuoteCurrency(base + "_" + quote) == Some(quote)
  {
    var symbol := base + "_" + quote;
    if base == "" {
      assert symbol[1..] == quote;
    } else {
      assert symbol[1..] == base[1..] + "_" + quote;
      QuoteIsWhatFollows(base[1..], quote);
    }
  }

  lemma {:induction false} PrefixIsTheBase(base: string, quote: string, metal: string)
    requires NoUnderscore(base) && NoUnderscore(metal)
    ensures StartsWith(base + "_" + quote, metal + "_") <==> base == metal
  {
    var symbol, prefix := base + "_" + quote, metal + "_";
    if base == "" || metal == "" {
      assert symbol[0] == (if base == "" then '_' else base[0]) && prefix[0] == if metal == "" then '_' else metal[0];
    } else {
      var symbol', prefix' := base[1..] + "_" + quote, metal[1..] + "_";
      PrefixIsTheBase(base[1..], quote, metal[1..]);
      assert symbol == [base[0]] + symbol' && prefix == [metal[0]] + prefix';
      assert base == [base[0]] + base[1..] && metal == [metal[0]] + metal[1..];
      assert prefix <= symbol ==> symbol[1..|prefix|] == prefix[1..];
    }
  }

  lemma {:induction false} PairsHaveAnUnderscore(symbol: string)
    ensures QuoteCurrency(symbol).None? <==> NoUnderscore(symbol)
  {
    if symbol != "" && symbol[0] != '_' {
      PairsHaveAnUnderscore(symbol[1..]);
      assert symbol == [symbol[0]] + symbol[1..];
    }
  }

  function ClosePrice(leg: Event, openPrice: real): real
    requires leg.TradeEvent?
  {
    TradeNormalizer.PriceOr(leg.price, Some(openPrice)).value
  }

  function ClosedUnits(legs: seq<Event>): (sizes: seq<real>)
    requires forall e <- legs :: e.TradeEvent?
    ensures |sizes| == |legs| && forall i :: 0 <= i < |legs| ==> sizes[i] == Abs(legs[i].units)
  {
    seq(|legs|, i requires 0 <= i < |legs| => Abs(legs[i].units))
  }

  function LegPips(leg: Event, openPrice: real, long: bool, pip: real): real
    requires leg.TradeEvent? && pip != 0.0
  {
    (ClosePrice(leg, openPrice) - openPrice) / pip * (if long then 1.0 else -1.0)
  }

  function EachLegPips(legs: seq<Event>, openPrice: real, long: bool, pip: real): (pips: seq<real>)
    requires pip != 0.0 && forall e <- legs :: e.TradeEvent?
    ensures |pips| == |legs| && forall i :: 0 <= i < |legs| ==> pips[i] == LegPips(legs[i], openPrice, long, pip)
  {
    seq(|legs|, i requires 0 <= i < |legs| => LegPips(legs[i], openPrice, long, pip))
  }

  function LegTerm(leg: Event, openPrice: real, long: bool, pip: real): real
    requires leg.TradeEvent? && pip != 0.0
  {
    LegPips(leg, openPrice, long, pip) * Abs(leg.units)
  }

  function LegTerms(legs: seq<Event>, openPrice: real, long: bool, pip: real): (terms: seq<real>)
    requires pip != 0.0 && forall e <- legs :: e.TradeEvent?
    ensures |terms| == |legs| && forall i :: 0 <= i < |legs| ==> terms[i] == LegTerm(legs[i], openPrice, long, pip)
  {
    seq(|legs|, i requires 0 <= i < |legs| => LegTerm(legs[i], openPrice, long, pip))
  }

  /** The close pips of a trade: the average over its closing legs, weighted by their units. */
  function WeightedPips(legs: seq<Event>, openPrice: real, long: bool, pip: Option<real>): Option<real>
    requires forall e <- legs :: e.TradeEvent?
  {
    if pip.None? || pip.value == 0.0 then None
    else
      var total := Sum(ClosedUnits(legs));
      if total == 0.0 then Some(0.0)
      else Some(Sum(LegTerms(legs, openPrice, long, pip.value)) / total)
  }

  method ComputeWeightedClosePips(legs: seq<Event>, openPrice: real, long: bool, pip: Option<real>)
    returns (pips: Option<real>)
    requires forall e <- legs :: e.TradeEvent?
    ensures pips == WeightedPips(legs, openPrice, long, pip)
  {
    if pip.None? || pip.value == 0.0 {
      return None;
    }
    var total := Sum(ClosedUnits(legs));
    if total == 0.0 {
      return Some(0.0);
    }
    ghost var terms := LegTerms(legs, openPrice, long, pip.value);
    var sum := 0.0;
    for i := 0 to |legs|
      invariant sum == Sum(terms[..i])
    {
      assert terms[..i + 1][..i] == terms[..i];
      sum := sum + LegTerm(legs[i], openPrice, long, pip.value);
    }
    assert terms[..|legs|] == terms;
    pips := Some(sum / total);
  }

  /** The weighted close pips lie between the pips of the worst and the best leg. */
  lemma WeightedPipsIsAnAverage(legs: seq<Event>, openPrice: real, long: bool, pip: real, lo: real, hi: real)
    requires pip != 0.0 && forall e <- legs :: e.TradeEvent?
    requires Sum(ClosedUnits(legs)) != 0.0
    requires forall i :: 0 <= i < |legs| ==> lo <= EachLegPips(legs, openPrice, long, pip)[i] <= hi
    ensures lo <= WeightedPips(legs, openPrice, long, Some(pip)).value <= hi
  {
    TermsAreProducts(legs, openPrice, long, pip);
    AverageBounds(EachLegPips(legs, openPrice, long, pip), ClosedUnits(legs), lo, hi);
  }

  lemma TermsAreProducts(legs: seq<Event>, openPrice: real, long: bool, pip: real)
    requires pip != 0.0 && forall e <- legs :: e.TradeEvent?
    ensures LegTerms(legs, openPrice, long, pip) == Products(EachLegPips(legs, openPrice, long, pip), ClosedUnits(legs))
  {
    var each, sizes := EachLegPips(legs, openPrice, long, pip), ClosedUnits(legs);
    forall i | 0 <= i < |legs| ensures LegTerms(legs, openPrice, long, pip)[i] == Products(each, sizes)[i] {
      assert each[i] == LegPips(legs[i], openPrice, long, pip) && sizes[i] == Abs(legs[i].units);
    }
  }

  // ---- Projection ----------------------------------------------------------------------

  /** The trade's events in listing order. */
  function LegsOf(docs: seq<Event>, trade: string): (legs: seq<Event>)
    ensures forall e <- legs :: e.TradeEvent? && e.tradeId == trade
  {
    var query := Query(None, None, None, Some(trade), {});
    LegsMatch(docs, query);
    Listing(docs, query)
  }

  lemma LegsMatch(docs: seq<Event>, query: Query)
    ensures forall e <- Listing(docs, query) :: e in docs && query.Matches(e)
  {
    SortingIsSorting(Matching(docs, query));
    forall e | e in Listing(docs, query) ensures e in Matching(docs, query) {
      assert e in multiset(Listing(docs, query));
    }
  }

  function ClosingLegs(legs: seq<Event>): (closing: seq<Event>)
    requires forall e <- legs :: e.TradeEvent?
    ensures forall e :: e in closing <==> e in legs && e.kind.Closes()
  {
    if legs == [] then []
    else
      var n := |legs| - 1;
      assert legs == legs[..n] + [legs[n]];
      ClosingLegs(legs[..n]) + (if legs[n].kind.Closes() then [legs[n]] else [])
  }

  function OpeningLeg(legs: seq<Event>): Option<Event>
    requires forall e <- legs :: e.TradeEvent?
  {
    if legs == [] then None else if legs[0].kind.Open? then Some(legs[0]) else OpeningLeg(legs[1..])
  }

  function NetSum(legs: seq<Event>): real
    requires forall e <- legs :: e.TradeEvent?
  {
    if legs == [] then 0.0 else NetSum(legs[..|legs| - 1]) + legs[|legs| - 1].netRealizedPL
  }

  predicate FullyClosed(legs: seq<Event>)
    requires forall e <- legs :: e.TradeEvent?
  {
    exists e <- legs :: e.kind.Close?
  }

  /** `Skip` leaves the record alone; `Invalid` is the validation error the record raises. */
  datatype Projection = Skip | Invalid | Write(record: TradeRecord)

  function Checked(record: TradeRecord): Projection {
    if record.Valid() then Write(record) else Invalid
  }

  /** The record without a closing that a trade is projected from: the stored one, or the
      opening leg. */
  function Base(existing: Option<TradeRecord>, legs: seq<Event>, trade: string): Option<TradeRecord>
    requires forall e <- legs :: e.TradeEvent?
  {
    if existing.Some? then Some(existing.value.(tradeId := trade, closing := None))
    else
      match OpeningLeg(legs)
      case None => None
      case Some(leg) =>
        if leg.TradeEvent? && leg.price.Some? then
          Some(TradeRecord(trade, leg.instrument, leg.units, leg.price.value, None, None, None, leg.time, None, None))
        else None
  }

  function FinalReason(base: TradeRecord, leg: Event, price: real): CloseReason
    requires leg.TradeEvent?
  {
    InferCloseReason(price, base.slPrice, base.tpPrice, leg.reason, [Encoded(leg.raw)])
  }

  function Project(registry: map<string, real>, existing: Option<TradeRecord>, legs: seq<Event>, trade: string): Projection
    requires forall e <- legs :: e.TradeEvent?
  {
    if legs == [] then Skip
    else
      match Base(existing, legs, trade)
      case None => Skip
      case Some(base) =>
        if !FullyClosed(legs) then Checked(base)
        else
          var closing := ClosingLegs(legs);
          var last := closing[|closing| - 1];
          var price := ClosePrice(last, base.openPrice);
          match WeightedPips(closing, base.openPrice, base.units > 0.0, PipSize(registry, base.instrument))
          case None => Invalid
          case Some(pips) =>
            Checked(base.(closing := Some(Closing(price, FinalReason(base, last, price), pips, NetSum(closing), last.time))))
  }

  /** Projecting a projected record changes nothing. */
  lemma ProjectionIsAFixedPoint(registry: map<string, real>, existing: Option<TradeRecord>, legs: seq<Event>, trade: string)
    requires forall e <- legs :: e.TradeEvent?
    requires Project(registry, existing, legs, trade).Write?
    ensures var record := Project(registry, existing, legs, trade).record;
            Project(registry, Some(record), legs, trade) == Write(record)
  {
    var base := Base(existing, legs, trade).value;
    var record := Project(registry, existing, legs, trade).record;
    assert Base(Some(record), legs, trade) == Some(base);
  }

  /** A projected record is CLOSED exactly when the trade has a CLOSE leg. */
  lemma ProjectedStateFollowsTheLegs(registry: map<string, real>, existing: Option<TradeRecord>, legs: seq<Event>, trade: string)
    requires forall e <- legs :: e.TradeEvent?
    requires Project(registry, existing, legs, trade).Write?
    ensures Project(registry, existing, legs, trade).record.Closed() <==> FullyClosed(legs)
    ensures Project(registry, existing, legs, trade).record.tradeId == trade
  {
  }

  /** Without a CLOSE leg, projection reopens even a CLOSED record. */
  lemma ProjectionReopensWithoutACloseLeg(registry: map<string, real>, existing: TradeRecord, legs: seq<Event>)
    requires forall e <- legs :: e.TradeEvent?
    requires legs != [] && existing.Closed() && existing.Valid() && !FullyClosed(legs)
    ensures Project(registry, Some(existing), legs, existing.tradeId) == Write(existing.(closing := None))
  {
  }
}
