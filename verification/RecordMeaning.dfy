/**
 * What a projected record says, in the fields of the events it was projected from.
 */
module RecordMeaning {
  import opened Basics
  import opened Transactions
  import opened CloseReasons
  import opened EventTable
  import opened TradeProjection
  import opened TradeStores
  import opened BrokerLog
  import opened TradeHistory
  import opened TradePollers
  import opened JournalRuns
  import opened JournalSettlement
  import opened ProfitAndLoss

  predicate IsClosingOf(e: Event, trade: string) {
    e.TradeEvent? && e.tradeId == trade && e.kind.Closes()
  }

  predicate IsOpeningOf(e: Event, trade: string) {
    e.TradeEvent? && e.tradeId == trade && e.kind.Open?
  }

  /** The trade's closing event that comes after all its others. */
  ghost predicate LastClosing(docs: seq<Event>, trade: string, e: Event) {
    e in docs && IsClosingOf(e, trade) && forall other <- docs :: IsClosingOf(other, trade) && other != e ==> Before(other, e)
  }

  /** The trade's opening event that comes before all its others. */
  ghost predicate FirstOpening(docs: seq<Event>, trade: string, e: Event) {
    e in docs && IsOpeningOf(e, trade) && forall other <- docs :: IsOpeningOf(other, trade) && other != e ==> Before(e, other)
  }

  // ---- The legs in order ---------------------------------------------------------------

  lemma {:induction false} ClosingLegsInOrder(legs: seq<Event>)
    requires InOrder(legs) && forall e <- legs :: e.TradeEvent?
    ensures InOrder(ClosingLegs(legs))
  {
    if legs != [] {
      var n := |legs| - 1;
      var before := ClosingLegs(legs[..n]);
      ClosingLegsInOrder(legs[..n]);
      forall i | 0 <= i < |before| ensures Before(before[i], legs[n]) {
        assert before[i] in legs[..n];
      }
    }
  }

  lemma LegsInOrder(docs: seq<Event>, trade: string)
    requires DistinctIds(docs)
    ensures InOrder(LegsOf(docs, trade))
    ensures forall e :: e in LegsOf(docs, trade) <==> e in docs && e.TradeEvent? && e.tradeId == trade
  {
    ListingIsTheMatchesInOrder(docs, Query(None, None, None, Some(trade), {}));
  }

  lemma LastComesAfterTheOthers(s: seq<Event>, e: Event)
    requires InOrder(s) && s != []
    ensures e == s[|s| - 1] <==> e in s && forall other <- s :: other != e ==> Before(other, e)
  {
    var last := s[|s| - 1];
    forall other | other in s && other != last ensures Before(other, last) {
      var k :| 0 <= k < |s| && s[k] == other;
    }
    if e in s && e != last {
      assert last in s && Before(e, last);
      BeforeIsStrictOrder(e, last, e);
    }
  }

  lemma ClosingLegsAre(docs: seq<Event>, trade: string)
    requires DistinctIds(docs)
    ensures InOrder(ClosingLegs(LegsOf(docs, trade)))
    ensures forall e :: e in ClosingLegs(LegsOf(docs, trade)) <==> e in docs && IsClosingOf(e, trade)
  {
    LegsInOrder(docs, trade);
    ClosingLegsInOrder(LegsOf(docs, trade));
  }

  /** The last closing leg is the last closing event, and the only one. */
  lemma LastLegIsLastClosing(docs: seq<Event>, trade: string, e: Event)
    requires DistinctIds(docs)
    ensures var closing := ClosingLegs(LegsOf(docs, trade));
            LastClosing(docs, trade, e) <==> closing != [] && e == closing[|closing| - 1]
  {
    ClosingLegsAre(docs, trade);
    LatestClosing(docs, trade, ClosingLegs(LegsOf(docs, trade)), e);
  }

  lemma LatestClosing(docs: seq<Event>, trade: string, closing: seq<Event>, e: Event)
    requires InOrder(closing) && forall x :: x in closing <==> x in docs && IsClosingOf(x, trade)
    ensures LastClosing(docs, trade, e) <==> closing != [] && e == closing[|closing| - 1]
  {
    if closing != [] {
      LastComesAfterTheOthers(closing, e);
    }
  }

  lemma {:induction false} OpeningLegIsFirst(legs: seq<Event>)
    requires InOrder(legs) && forall e <- legs :: e.TradeEvent?
    ensures OpeningLeg(legs).None? <==> forall e <- legs :: !e.kind.Open?
    ensures OpeningLeg(legs).Some? ==>
              var first := OpeningLeg(legs).value;
              first in legs && first.kind.Open? && forall e <- legs :: e.kind.Open? && e != first ==> Before(first, e)
  {
    if legs != [] {
      OpeningLegIsFirst(legs[1..]);
      assert legs == [legs[0]] + legs[1..];
      forall e | e in legs[1..] ensures Before(legs[0], e) {
        var k :| 0 <= k < |legs[1..]| && legs[1..][k] == e;
        assert legs[k + 1] == e;
      }
    }
  }

  lemma FirstLegIsFirstOpening(docs: seq<Event>, trade: string, e: Event)
    requires DistinctIds(docs)
    ensures FirstOpening(docs, trade, e) <==> OpeningLeg(LegsOf(docs, trade)) == Some(e)
  {
    var legs := LegsOf(docs, trade);
    LegsInOrder(docs, trade);
    OpeningLegIsFirst(legs);
    if OpeningLeg(legs).Some? && FirstOpening(docs, trade, e) && e != OpeningLeg(legs).value {
      BeforeIsStrictOrder(e, OpeningLeg(legs).value, e);
      assert false;
    }
  }

  // ---- Pips ----------------------------------------------------------------------------

  /** How far a closing event's price moved from the opening price in the trade's direction, in
      pips, times the units it closed; an event without a price, or with a zero one, counts as not
      having moved. */
  function MoveFor(trade: string, openPrice: real, long: bool, pip: real): Event -> real
    requires pip != 0.0
  {
    (e: Event) =>
      if !IsClosingOf(e, trade) || e.price.None? || e.price.value == 0.0 then 0.0
      else if long then (e.price.value - openPrice) / pip * Abs(e.units)
      else (openPrice - e.price.value) / pip * Abs(e.units)
  }

  function SizeFor(trade: string): Event -> real {
    (e: Event) => if IsClosingOf(e, trade) then Abs(e.units) else 0.0
  }

  lemma TermIsTheMove(leg: Event, trade: string, openPrice: real, long: bool, pip: real)
    requires IsClosingOf(leg, trade) && pip != 0.0
    ensures LegTerm(leg, openPrice, long, pip) == MoveFor(trade, openPrice, long, pip)(leg)
  {
    var move := ClosePrice(leg, openPrice) - openPrice;
    assert LegPips(leg, openPrice, long, pip) == if long then move / pip else (openPrice - ClosePrice(leg, openPrice)) / pip;
  }

  lemma {:induction false} TermsTotal(xs: seq<Event>, f: Event -> real, terms: seq<real>)
    requires |terms| == |xs| && forall i :: 0 <= i < |xs| ==> terms[i] == f(xs[i])
    ensures Sum(terms) == Total(xs, f)
  {
    if xs != [] {
      TermsTotal(xs[..|xs| - 1], f, terms[..|xs| - 1]);
    }
  }

  lemma {:induction false} OnlyClosingLegsCount(legs: seq<Event>, f: Event -> real)
    requires forall e <- legs :: e.TradeEvent? && (!e.kind.Closes() ==> f(e) == 0.0)
    ensures Total(ClosingLegs(legs), f) == Total(legs, f)
  {
    if legs != [] {
      var n := |legs| - 1;
      assert legs[n] in legs;
      OnlyClosingLegsCount(legs[..n], f);
      if legs[n].kind.Closes() {
        TotalSnoc(ClosingLegs(legs[..n]), legs[n], f);
      } else {
        assert ClosingLegs(legs) == ClosingLegs(legs[..n]);
      }
    }
  }

  lemma MovesTotal(closing: seq<Event>, trade: string, openPrice: real, long: bool, pip: real)
    requires pip != 0.0 && forall e <- closing :: e.TradeEvent? && IsClosingOf(e, trade)
    ensures Sum(LegTerms(closing, openPrice, long, pip)) == Total(closing, MoveFor(trade, openPrice, long, pip))
  {
    var terms, f := LegTerms(closing, openPrice, long, pip), MoveFor(trade, openPrice, long, pip);
    forall i | 0 <= i < |closing| ensures terms[i] == f(closing[i]) {
      assert closing[i] in closing;
      TermIsTheMove(closing[i], trade, openPrice, long, pip);
    }
    TermsTotal(closing, f, terms);
  }

  lemma SizesTotal(closing: seq<Event>, trade: string)
    requires forall e <- closing :: e.TradeEvent? && IsClosingOf(e, trade)
    ensures Sum(ClosedUnits(closing)) == Total(closing, SizeFor(trade))
  {
    var sizes := ClosedUnits(closing);
    forall i | 0 <= i < |closing| ensures sizes[i] == SizeFor(trade)(closing[i]) {
      assert closing[i] in closing;
    }
    TermsTotal(closing, SizeFor(trade), sizes);
  }

  lemma ClosingTotal(docs: seq<Event>, trade: string, f: Event -> real)
    requires forall e: Event :: !IsClosingOf(e, trade) ==> f(e) == 0.0
    ensures Total(ClosingLegs(LegsOf(docs, trade)), f) == Total(docs, f)
  {
    OnlyClosingLegsCount(LegsOf(docs, trade), f);
    LegsTotal(docs, trade, f);
  }

  /** Pips are an average: times the size of what they are counted over, they are its moves. */
  predicate IsAverage(pips: real, moved: real, size: real) {
    if size == 0.0 then pips == 0.0 else pips * size == moved
  }

  lemma PipsSay(docs: seq<Event>, closing: seq<Event>, trade: string, openPrice: real, long: bool, pip: Option<real>, pips: real)
    requires closing == ClosingLegs(LegsOf(docs, trade)) && WeightedPips(closing, openPrice, long, pip) == Some(pips)
    ensures pip.Some? && pip.value != 0.0
    ensures IsAverage(pips, Total(docs, MoveFor(trade, openPrice, long, pip.value)), Total(docs, SizeFor(trade)))
  {
    UndoWeighting(closing, openPrice, long, pip, pips);
    ClosingSums(docs, closing, trade, openPrice, long, pip.value);
  }

  lemma ClosingSums(docs: seq<Event>, closing: seq<Event>, trade: string, openPrice: real, long: bool, pip: real)
    requires pip != 0.0 && closing == ClosingLegs(LegsOf(docs, trade))
    ensures Sum(LegTerms(closing, openPrice, long, pip)) == Total(docs, MoveFor(trade, openPrice, long, pip))
    ensures Sum(ClosedUnits(closing)) == Total(docs, SizeFor(trade))
  {
    MovesTotal(closing, trade, openPrice, long, pip);
    SizesTotal(closing, trade);
    ClosingTotal(docs, trade, MoveFor(trade, openPrice, long, pip));
    ClosingTotal(docs, trade, SizeFor(trade));
  }

  lemma UndoWeighting(closing: seq<Event>, openPrice: real, long: bool, pip: Option<real>, pips: real)
    requires (forall e <- closing :: e.TradeEvent?) && WeightedPips(closing, openPrice, long, pip) == Some(pips)
    ensures pip.Some? && pip.value != 0.0
    ensures IsAverage(pips, Sum(LegTerms(closing, openPrice, long, pip.value)), Sum(ClosedUnits(closing)))
  {
    var size := Sum(ClosedUnits(closing));
    if size != 0.0 {
      Undivided(Sum(LegTerms(closing, openPrice, long, pip.value)), size);
    }
  }

  lemma Undivided(sum: real, size: real)
    requires size != 0.0
    ensures sum / size * size == sum
  {
  }

  // ---- What projection writes ----------------------------------------------------------

  /** The event's price, or the trade's opening price where it has none, or a zero one. */
  predicate ClosesAt(price: real, e: Event, openPrice: real)
    requires e.TradeEvent?
  {
    (e.price.Some? && e.price.value != 0.0 ==> price == e.price.value) &&
    (e.price.None? || e.price.value == 0.0 ==> price == openPrice)
  }

  /** The record is closed as its last closing event says: at its price and time, for what it says
      or its price hits, with the pips and the profit of all closing events. */
  ghost predicate ClosedBy(registry: Registry, docs: seq<Event>, record: TradeRecord, e: Event)
    requires e.TradeEvent?
  {
    record.closing.Some? && PipSize(registry, record.instrument) !in {None, Some(0.0)} &&
    var closing, pip := record.closing.value, PipSize(registry, record.instrument).value;
    ClosesAt(closing.price, e, record.openPrice) && closing.closedAt == e.time &&
    ReasonIs(closing.reason, closing.price, record.slPrice, record.tpPrice, e.reason, [Encoded(e.raw)]) &&
    IsAverage(closing.pips, Total(docs, MoveFor(e.tradeId, record.openPrice, record.units > 0.0, pip)), Total(docs, SizeFor(e.tradeId))) &&
    closing.pnl == Total(docs, ClosedNetFor(e.tradeId))
  }

  /** What a projection to a close is made of. */
  lemma ProjectedClose(registry: Registry, existing: Option<TradeRecord>, legs: seq<Event>, trade: string, closing: seq<Event>, base: TradeRecord)
    requires (forall e <- legs :: e.TradeEvent?) && FullyClosed(legs) && closing == ClosingLegs(legs)
    requires Base(existing, legs, trade) == Some(base)
    ensures closing != []
    ensures var last := closing[|closing| - 1];
            var price := ClosePrice(last, base.openPrice);
            var pips := WeightedPips(closing, base.openPrice, base.units > 0.0, PipSize(registry, base.instrument));
            Project(registry, existing, legs, trade) ==
            if pips.None? then Invalid
            else Checked(base.(closing := Some(Closing(price, FinalReason(base, last, price), pips.value, NetSum(closing), last.time))))
  {
  }

  lemma ProjectedCloseSays(registry: Registry, existing: Option<TradeRecord>, docs: seq<Event>, trade: string, e: Event)
    requires DistinctIds(docs) && LastClosing(docs, trade, e) && FullyClosed(LegsOf(docs, trade))
    requires Project(registry, existing, LegsOf(docs, trade), trade).Write?
    ensures ClosedBy(registry, docs, Project(registry, existing, LegsOf(docs, trade), trade).record, e)
  {
    var legs := LegsOf(docs, trade);
    var base, closing := Base(existing, legs, trade).value, ClosingLegs(legs);
    LastLegIsLastClosing(docs, trade, e);
    ProjectedClose(registry, existing, legs, trade, closing, base);
    ClosingLegsNet(legs, trade);
    LegsTotal(docs, trade, ClosedNetFor(trade));
    CloseSays(registry, docs, closing, trade, base, e, Project(registry, existing, legs, trade).record);
  }

  lemma CloseSays(registry: Registry, docs: seq<Event>, closing: seq<Event>, trade: string, base: TradeRecord, e: Event, record: TradeRecord)
    requires closing == ClosingLegs(LegsOf(docs, trade)) && IsClosingOf(e, trade)
    requires var price := ClosePrice(e, base.openPrice);
             var pips := WeightedPips(closing, base.openPrice, base.units > 0.0, PipSize(registry, base.instrument));
             pips.Some? && record == base.(closing :=
               Some(Closing(price, FinalReason(base, e, price), pips.value, Total(docs, ClosedNetFor(trade)), e.time)))
    ensures ClosedBy(registry, docs, record, e)
  {
    var pip, pips := PipSize(registry, base.instrument), record.closing.value.pips;
    PipsSay(docs, closing, trade, base.openPrice, base.units > 0.0, pip, pips);
    ReasonFollowsWhatIsSaid(ClosePrice(e, base.openPrice), base.slPrice, base.tpPrice, e.reason, [Encoded(e.raw)]);
  }

  /** The record is opened as the event says, without stops and notes. */
  predicate OpenedBy(record: TradeRecord, o: Event)
    requires o.TradeEvent?
  {
    record.tradeId == o.tradeId && record.instrument == o.instrument && record.units == o.units && Some(record.openPrice) == o.price &&
    record.openedAt == o.time && record.slPrice == None == record.tpPrice && record.gsloPrice == None && record.notes == None
  }

  /** Projection changes nothing but the closing of a stored record; one that it makes is opened
      as the trade's first opening event says. */
  ghost predicate KeepsOpening(docs: seq<Event>, before: Option<TradeRecord>, after: Option<TradeRecord>, trade: string) {
    (before.Some? ==> after.Some? && SameOpening(after.value, before.value) && SameStops(after.value, before.value)) &&
    (before.None? && after.Some? ==> exists o :: FirstOpening(docs, trade, o) && OpenedBy(after.value, o))
  }

  lemma ProjectionKeepsOpening(registry: Registry, existing: Option<TradeRecord>, docs: seq<Event>, trade: string)
    requires DistinctIds(docs) && (existing.Some? ==> existing.value.tradeId == trade)
    requires Project(registry, existing, LegsOf(docs, trade), trade).Write?
    ensures KeepsOpening(docs, existing, Some(Project(registry, existing, LegsOf(docs, trade), trade).record), trade)
  {
    if existing.None? {
      FirstLegIsFirstOpening(docs, trade, OpeningLeg(LegsOf(docs, trade)).value);
    }
  }

  // ---- When projection writes ----------------------------------------------------------

  /** A trade is passed over exactly when it has no events, or neither a record nor an opening event
      that gives a price. */
  lemma SkipsIff(registry: Registry, existing: Option<TradeRecord>, docs: seq<Event>, trade: string)
    requires DistinctIds(docs)
    ensures Project(registry, existing, LegsOf(docs, trade), trade).Skip? <==>
            (forall e <- docs :: !(e.TradeEvent? && e.tradeId == trade)) ||
            (existing.None? && !exists o :: FirstOpening(docs, trade, o) && o.price.Some?)
  {
    NoLegsIff(docs, trade);
    forall o ensures FirstOpening(docs, trade, o) <==> OpeningLeg(LegsOf(docs, trade)) == Some(o) {
      FirstLegIsFirstOpening(docs, trade, o);
    }
    SkippedLegs(registry, existing, LegsOf(docs, trade), trade);
  }

  lemma NoLegsIff(docs: seq<Event>, trade: string)
    requires DistinctIds(docs)
    ensures LegsOf(docs, trade) == [] <==> forall e <- docs :: !(e.TradeEvent? && e.tradeId == trade)
  {
    LegsInOrder(docs, trade);
    assert LegsOf(docs, trade) != [] ==> LegsOf(docs, trade)[0] in LegsOf(docs, trade);
  }

  lemma SkippedLegs(registry: Registry, existing: Option<TradeRecord>, legs: seq<Event>, trade: string)
    requires forall e <- legs :: e.TradeEvent?
    ensures Project(registry, existing, legs, trade).Skip? <==>
            legs == [] || (existing.None? && (OpeningLeg(legs).None? || !OpeningLeg(legs).value.TradeEvent? || OpeningLeg(legs).value.price.None?))
  {
  }

  /** The last closing event cannot close a trade: no pip size, a negative price, or a time before
      the trade was opened. */
  predicate RefusesClose(registry: Registry, instrument: string, openedAt: int, e: Event)
    requires e.TradeEvent?
  {
    PipSize(registry, instrument) in {None, Some(0.0)} || (e.price.Some? && e.price.value < 0.0) || e.time < openedAt
  }

  /** Exactly when projecting a trade with a stored record raises. */
  lemma RaisesIff(registry: Registry, record: TradeRecord, docs: seq<Event>, trade: string)
    requires DistinctIds(docs) && record.Valid() && record.tradeId == trade
    ensures Project(registry, Some(record), LegsOf(docs, trade), trade).Invalid? <==>
            (exists e <- docs :: e.ClosesTrade(trade)) &&
            exists e :: LastClosing(docs, trade, e) && RefusesClose(registry, record.instrument, record.openedAt, e)
  {
    ClosedIff(docs, trade);
    CloseRaisesIff(registry, record.(closing := None), docs, trade);
  }

  predicate AcceptedOpening(o: Event)
    requires o.TradeEvent?
  {
    !Blank(o.tradeId) && ValidSymbol(o.instrument) && o.units != 0.0 && o.price.Some? && o.price.value > 0.0
  }

  /** And one without. */
  lemma NewRecordRaisesIff(registry: Registry, docs: seq<Event>, trade: string, o: Event)
    requires DistinctIds(docs) && FirstOpening(docs, trade, o) && o.price.Some?
    ensures Project(registry, None, LegsOf(docs, trade), trade).Invalid? <==>
            !AcceptedOpening(o) ||
            ((exists e <- docs :: e.ClosesTrade(trade)) &&
             exists e :: LastClosing(docs, trade, e) && RefusesClose(registry, o.instrument, o.time, e))
  {
    var base := TradeRecord(trade, o.instrument, o.units, o.price.value, None, None, None, o.time, None, None);
    FirstLegIsFirstOpening(docs, trade, o);
    ClosedIff(docs, trade);
    ProjectsItsBase(registry, None, LegsOf(docs, trade), trade, base);
    if AcceptedOpening(o) {
      CloseRaisesIff(registry, base, docs, trade);
    }
  }

  lemma ProjectsItsBase(registry: Registry, existing: Option<TradeRecord>, legs: seq<Event>, trade: string, base: TradeRecord)
    requires (forall e <- legs :: e.TradeEvent?) && legs != [] && Base(existing, legs, trade) == Some(base)
    ensures Project(registry, existing, legs, trade) == Project(registry, Some(base), legs, trade)
    ensures !base.Valid() ==> Project(registry, existing, legs, trade).Invalid?
  {
    assert Base(Some(base), legs, trade) == Some(base);
  }

  lemma ClosedIff(docs: seq<Event>, trade: string)
    requires DistinctIds(docs)
    ensures FullyClosed(LegsOf(docs, trade)) <==> exists e <- docs :: e.ClosesTrade(trade)
  {
    LegsInOrder(docs, trade);
    forall e | e in docs && e.ClosesTrade(trade) ensures e in LegsOf(docs, trade) {
    }
  }

  lemma CloseRaisesIff(registry: Registry, base: TradeRecord, docs: seq<Event>, trade: string)
    requires DistinctIds(docs) && base.Valid() && base.tradeId == trade && base.closing == None
    ensures Project(registry, Some(base), LegsOf(docs, trade), trade).Invalid? <==>
            FullyClosed(LegsOf(docs, trade)) &&
            exists e :: LastClosing(docs, trade, e) && RefusesClose(registry, base.instrument, base.openedAt, e)
  {
    if FullyClosed(LegsOf(docs, trade)) {
      var closing := ClosingLegs(LegsOf(docs, trade));
      LastLegDecides(registry, base, LegsOf(docs, trade), trade);
      LastLegIsLastClosing(docs, trade, closing[|closing| - 1]);
      forall e | LastClosing(docs, trade, e) ensures e == closing[|closing| - 1] {
        LastLegIsLastClosing(docs, trade, e);
      }
    }
  }

  lemma LastLegDecides(registry: Registry, base: TradeRecord, legs: seq<Event>, trade: string)
    requires (forall e <- legs :: e.TradeEvent?) && FullyClosed(legs)
    requires base.Valid() && base.tradeId == trade && base.closing == None
    ensures ClosingLegs(legs) != []
    ensures Project(registry, Some(base), legs, trade).Invalid? <==>
            RefusesClose(registry, base.instrument, base.openedAt, ClosingLegs(legs)[|ClosingLegs(legs)| - 1])
  {
    ProjectedClose(registry, Some(base), legs, trade, ClosingLegs(legs), base);
    PipsNeedASize(ClosingLegs(legs), base.openPrice, base.units > 0.0, PipSize(registry, base.instrument));
  }

  lemma PipsNeedASize(closing: seq<Event>, openPrice: real, long: bool, pip: Option<real>)
    requires forall e <- closing :: e.TradeEvent?
    ensures WeightedPips(closing, openPrice, long, pip).None? <==> pip in {None, Some(0.0)}
  {
  }

  // ---- Settled records, imports and runs -----------------------------------------------

  /** The record of a settled trade with a CLOSE event says what its closing events say. */
  lemma SettledRecordSays(registry: Registry, s: Journal, trade: string, e: Event)
    requires DistinctIds(s.events) && SettledClose(registry, s, trade) && LastClosing(s.events, trade, e)
    ensures ClosedBy(registry, s.events, s.trades[trade], e)
  {
    CloseLegMeansFullyClosed(s, trade);
    ClosedLegsProject(registry, s.trades[trade], LegsOf(s.events, trade), trade);
    ProjectedCloseSays(registry, s.Trade(trade), s.events, trade, e);
  }

  /** There is such an event, and only one. */
  lemma OneLastClosing(s: Journal, trade: string) returns (e: Event)
    requires DistinctIds(s.events) && HasCloseLeg(s, trade)
    ensures LastClosing(s.events, trade, e)
    ensures forall other :: LastClosing(s.events, trade, other) ==> other == e
  {
    var closing := ClosingLegs(LegsOf(s.events, trade));
    CloseLegMeansClosing(s, trade);
    e := closing[|closing| - 1];
    LastLegIsLastClosing(s.events, trade, e);
    OnlyOneLastClosing(s.events, trade, e);
  }

  lemma CloseLegMeansClosing(s: Journal, trade: string)
    requires DistinctIds(s.events) && HasCloseLeg(s, trade)
    ensures ClosingLegs(LegsOf(s.events, trade)) != []
  {
    ClosingLegsAre(s.events, trade);
    var close :| close in s.events && close.ClosesTrade(trade);
    assert close in ClosingLegs(LegsOf(s.events, trade));
  }

  lemma OnlyOneLastClosing(docs: seq<Event>, trade: string, e: Event)
    requires LastClosing(docs, trade, e)
    ensures forall other :: LastClosing(docs, trade, other) ==> other == e
  {
    forall other | LastClosing(docs, trade, other) ensures other == e {
      BeforeIsStrictOrder(e, other, e);
    }
  }

  /** A closed record is repaired exactly when it requests MANUAL while the trade's last closing
      event reads as market-if-touched at the record's price. */
  lemma RepairableIff(s: Journal, trade: string)
    requires DistinctIds(s.events)
    ensures Repairable(s, trade) <==>
            trade in s.trades && s.trades[trade].closing.Some? && s.trades[trade].closing.value.reason == Manual &&
            exists e :: LastClosing(s.events, trade, e) && ReadsAsMit(s.trades[trade], e)
  {
    if trade in s.trades && s.trades[trade].closing.Some? {
      var legs := LegsOf(s.events, trade);
      forall e | LastClosing(s.events, trade, e)
        ensures ReadsMit(s.trades[trade], legs) <==> s.trades[trade].closing.value.reason == Manual && ReadsAsMit(s.trades[trade], e)
      {
        LastLegIsLastClosing(s.events, trade, e);
        LastLegReads(s.trades[trade], legs, e);
      }
      if ReadsMit(s.trades[trade], legs) {
        LastLegIsLastClosing(s.events, trade, ClosingLegs(legs)[|ClosingLegs(legs)| - 1]);
      }
    }
  }

  lemma LastLegReads(record: TradeRecord, legs: seq<Event>, last: Event)
    requires record.closing.Some? && forall e <- legs :: e.TradeEvent?
    requires ClosingLegs(legs) != [] && last == ClosingLegs(legs)[|ClosingLegs(legs)| - 1]
    ensures ReadsMit(record, legs) <==> record.closing.value.reason == Manual && ReadsAsMit(record, last)
  {
    assert last in ClosingLegs(legs);
    ReasonFollowsWhatIsSaid(record.closing.value.price, record.slPrice, record.tpPrice, last.reason, [Encoded(last.raw)]);
  }

  ghost predicate ReadsAsMit(record: TradeRecord, e: Event)
    requires record.closing.Some?
  {
    e.TradeEvent? && ReasonIs(Mit, record.closing.value.price, record.slPrice, record.tpPrice, e.reason, [Encoded(e.raw)])
  }

  /** An import, finished or not, changes nothing about how a recorded trade was opened. */
  lemma ImportKeepsOpening(
    registry: Registry, log: seq<Transaction>, s: Journal, s': Journal, txs: seq<Transaction>, done: bool, trade: string)
    requires Sound(log, s) && KeyedById(s) && (forall tx <- txs :: tx in log) && Imported(registry, s, s', txs, done)
    ensures KeepsOpening(s'.events, s.Trade(trade), s'.Trade(trade), trade)
  {
    ImportExtends(registry, log, s, s', txs, done);
    if s'.Trade(trade) != s.Trade(trade) {
      assert LeftOrProjected(registry, s, s', trade);
      ProjectionKeepsOpening(registry, s.Trade(trade), s'.events, trade);
    }
  }

  /** How a recorded trade was opened, and its stops. */
  ghost predicate OpenedAlike(before: Option<TradeRecord>, after: Option<TradeRecord>) {
    before.Some? && after.Some? && SameOpening(after.value, before.value) && SameStops(after.value, before.value)
  }

  lemma {:induction false} ChunksKeepOpening(
    registry: Registry, log: seq<Transaction>, s: Journal, s': Journal, requests: seq<Request>, done: bool, trade: string)
    requires Sound(log, s) && KeyedById(s) && RequestedFrom(log, requests) && ImportedChunks(registry, requests, s, s', done)
    requires trade in s.trades
    ensures OpenedAlike(s.Trade(trade), s'.Trade(trade))
    decreases |requests|
  {
    if requests != [] {
      var n := |requests| - 1;
      var m :| ImportedChunks(registry, requests[..n], s, m, true) && Imported(registry, m, s', requests[n].Answer(), done);
      FirstRequests(log, requests);
      ChunksKeepOpening(registry, log, s, m, requests[..n], true, trade);
      ChunksExtend(registry, log, s, m, requests[..n], true);
      ImportKeepsOpening(registry, log, m, s', requests[n].Answer(), done, trade);
    }
  }

  lemma SyncKeepsOpening(registry: Registry, c: Config, c': Config, ok: bool, trade: string)
    requires Good(c, false) && Next(registry, c, c', Sync(ok)) && trade in c.s.trades
    ensures OpenedAlike(c.s.Trade(trade), c'.s.Trade(trade))
  {
    if c.s.watermark.Some? {
      var m, mark := c'.s.(watermark := c.s.watermark), c.s.watermark.value;
      var done :| (ok ==> done) && Imported(registry, c.s, m, Since(c.log, mark), done);
      SinceMembers(c.log, mark);
      ImportKeepsOpening(registry, c.log, c.s, m, Since(c.log, mark), done, trade);
    }
  }

  lemma BackfillKeepsOpening(
    registry: Registry, log: seq<Transaction>, s: Journal, s': Journal, requests: seq<Request>, ok: bool, trade: string)
    requires Sound(log, s) && KeyedById(s) && RequestedFrom(log, requests) && Backfilled(registry, requests, s, s', ok)
    requires trade in s.trades
    ensures OpenedAlike(s.Trade(trade), s'.Trade(trade))
  {
    var n, m, done :|
      0 <= n <= |requests| && (ok ==> done && n == |requests|) && ImportedChunks(registry, requests[..n], s, m, done) &&
      s' == m.(watermark := if ok then Advanced(s.watermark, LargestId(Answers(requests))) else s.watermark);
    ChunksKeepOpening(registry, log, s, m, requests[..n], done, trade);
  }

  lemma StepKeepsOpening(registry: Registry, c: Config, c': Config, action: Action, trade: string)
    requires Good(c, false) && Next(registry, c, c', action) && !Lists(action, trade) && trade in c.s.trades
    ensures OpenedAlike(c.s.Trade(trade), c'.s.Trade(trade))
  {
    match action
    case Grow =>
    case Sync(ok) => SyncKeepsOpening(registry, c, c', ok, trade);
    case Backfill(requests, _, _, ok) =>
      GrowthKeepsSound(c.log, c'.log, c.s);
      BackfillKeepsOpening(registry, c'.log, c.s, c'.s, requests, ok, trade);
    case Poll(view, now, done) => PolledFollows(registry, view, now, c.s, c'.s, done, trade);
  }

  ghost function OpenedAlikeAlong(run: seq<Config>, record: TradeRecord, trade: string): (holds: seq<bool>)
    ensures |holds| == |run| && forall k :: 0 <= k < |run| ==> holds[k] == OpenedAlike(Some(record), run[k].s.Trade(trade))
  {
    seq(|run|, k requires 0 <= k < |run| => OpenedAlike(Some(record), run[k].s.Trade(trade)))
  }

  /** Along every run, a recorded trade keeps its instrument, units, opening price and time, notes
      and stops as long as no poll lists it. */
  lemma RunsKeepOpenings(registry: Registry, run: seq<Config>, actions: seq<Action>, i: nat, j: nat, trade: string)
    requires IsRun(registry, run, actions) && i <= j < |run| && trade in run[i].s.trades
    requires forall k: nat :: i <= k < j ==> !Lists(actions[k], trade)
    ensures OpenedAlike(run[i].s.Trade(trade), run[j].s.Trade(trade))
  {
    var holds := OpenedAlikeAlong(run, run[i].s.trades[trade], trade);
    forall k: nat | i <= k < j ensures PassesOn(holds, k) {
      if holds[k] {
        EveryRunStaysGood(registry, run, actions, k);
        assert StepAt(registry, run, actions, k);
        StepKeepsOpening(registry, run[k], run[k + 1], actions[k], trade);
      }
    }
    Persists(holds, i, j);
  }

  /** In every run, the record of a trade that a finished import settled says what its closing
      events say, and goes on saying it as long as no step can unsettle it. */
  lemma ClosedRecordsSay(registry: Registry, run: seq<Config>, actions: seq<Action>, j: nat, trade: string, e: Event)
    requires IsRun(registry, run, actions) && j < |run| && SettledSince(registry, run, actions, j, trade)
    requires LastClosing(run[j].s.events, trade, e)
    ensures trade in run[j].s.trades && ClosedBy(registry, run[j].s.events, run[j].s.trades[trade], e)
  {
    var i: nat :| i <= j && SettledAndLeft(registry, run, actions, i, j, trade);
    SettledStaysSettled(registry, run, actions, i, j, trade);
    EveryRunStaysGood(registry, run, actions, j);
    SettledRecordSays(registry, run[j].s, trade, e);
  }
}
