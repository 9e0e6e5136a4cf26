/** Normalization of broker transactions into journal events. */
module TradeNormalizer {
  import opened Basics
  import opened Commission
  import opened IdOrder
  import opened Transactions

  /** `Rejected` is the validation error the source raises. */
  datatype Result<+T> = Ok(value: T) | Rejected

  datatype Leg = Leg(
    kind: Kind, tradeId: string, units: real, price: Option<real>, realizedPL: real, financing: real)
  {
    /** An event needs a trade id and nonzero units. */
    predicate Accepted() {
      !Blank(tradeId) && units != 0.0
    }
  }

  /** Python's `value or fallback`: a zero price counts as missing. */
  function PriceOr(price: Option<real>, fallback: Option<real>): Option<real> {
    if price.Some? && price.value != 0.0 then price else fallback
  }

  function OpenLeg(trade: OpenedTrade, tx: Transaction): Leg
    requires tx.OrderFill?
  {
    Leg(Open, trade.tradeId, if trade.units.Some? then trade.units.value else tx.units,
        PriceOr(trade.price, tx.price), 0.0, 0.0)
  }

  function CloseLeg(kind: Kind, closed: ClosedTrade, tx: Transaction): Leg
    requires tx.OrderFill?
  {
    Leg(kind, closed.tradeId, closed.units, PriceOr(closed.price, tx.price), closed.realizedPL, closed.financing)
  }

  function ClosedLegs(tx: Transaction, n: nat): (legs: seq<Leg>)
    requires tx.OrderFill? && n <= |tx.tradesClosed|
    ensures |legs| == n
  {
    seq(n, i requires 0 <= i < n => CloseLeg(Close, tx.tradesClosed[i], tx))
  }

  /** The opened leg, one leg per closed trade, then the reduced leg. */
  function Legs(tx: Transaction): seq<Leg>
    requires tx.OrderFill?
  {
    (if tx.tradeOpened.Some? then [OpenLeg(tx.tradeOpened.value, tx)] else [])
    + ClosedLegs(tx, |tx.tradesClosed|)
    + (if tx.tradeReduced.Some? then [CloseLeg(PartialClose, tx.tradeReduced.value, tx)] else [])
  }

  function LegUnits(legs: seq<Leg>): (units: seq<real>)
    ensures |units| == |legs|
  {
    seq(|legs|, i requires 0 <= i < |legs| => legs[i].units)
  }

  function SideOf(units: real, fallback: real): Side {
    if (if units != 0.0 then units else fallback) > 0.0 then Long else Short
  }

  function LegEvent(tx: Transaction, leg: Leg, part: int): Event
    requires tx.OrderFill?
  {
    var commission := Value(Decimal(part, tx.commission.scale));
    TradeEvent(EventId(tx.id, leg.kind.Name(), leg.tradeId), tx.id, leg.kind, tx.instrument, leg.tradeId, leg.units,
               SideOf(leg.units, tx.units), leg.price, leg.realizedPL, leg.financing, commission,
               leg.realizedPL + leg.financing - commission, tx.time, tx.reason, tx.raw)
  }

  function LegEvents(tx: Transaction, legs: seq<Leg>, parts: seq<int>, n: nat): (events: seq<Event>)
    requires tx.OrderFill? && n <= |legs| == |parts|
    ensures |events| == n
  {
    seq(n, i requires 0 <= i < n => LegEvent(tx, legs[i], parts[i]))
  }

  function FillEvents(tx: Transaction): (events: seq<Event>)
    requires tx.OrderFill?
  {
    var legs := Legs(tx);
    LegEvents(tx, legs, Allocation(tx.commission.digits, LegUnits(legs)), |legs|)
  }

  /** A fill must name its account and instrument and give its time; the instrument's form is
      only looked at when there is a leg to record. */
  predicate FillAccepted(tx: Transaction)
    requires tx.OrderFill?
  {
    tx.dated && !Blank(tx.account) && !Blank(tx.instrument) &&
    (Legs(tx) != [] ==> ValidSymbol(tx.instrument)) && forall leg <- Legs(tx) :: leg.Accepted()
  }

  function Named(instrument: Option<string>): Option<string> {
    if instrument.Some? && !Blank(instrument.value) then Some(Strip(instrument.value)) else None
  }

  predicate FinancingAccepted(tx: Transaction)
    requires tx.DailyFinancing?
  {
    tx.dated && !Blank(tx.account) &&
    forall position <- tx.positions :: Named(position.instrument).Some? ==> ValidSymbol(Named(position.instrument).value)
  }

  function PositionEvent(tx: Transaction, position: PositionFinancing): Event
    requires tx.DailyFinancing?
  {
    var about := Named(position.instrument);
    var subject := if about.Some? then about.value else "ACCOUNT";
    FinancingEvent(EventId(tx.id, "DAILY_FINANCING", subject), tx.id, about, position.financing, tx.time)
  }

  function FinancingEvents(tx: Transaction): seq<Event>
    requires tx.DailyFinancing?
  {
    if tx.positions != [] then seq(|tx.positions|, i requires 0 <= i < |tx.positions| => PositionEvent(tx, tx.positions[i]))
    else [PositionEvent(tx, PositionFinancing(None, tx.financing))]
  }

  /** What one transaction contributes to the journal. */
  function Normalized(tx: Transaction): Result<seq<Event>> {
    match tx
    case OrderFill(_, _, _, _, _, _, _, _, _, _, _, _, _) => if FillAccepted(tx) then Ok(FillEvents(tx)) else Rejected
    case DailyFinancing(_, _, _, _, _, _) => if FinancingAccepted(tx) then Ok(FinancingEvents(tx)) else Rejected
    case OtherTransaction(_, _) => Ok([])
  }

  function Joined<T>(a: Result<seq<T>>, b: Result<seq<T>>): Result<seq<T>> {
    if a.Ok? && b.Ok? then Ok(a.value + b.value) else Rejected
  }

  /** The parts in order, or a rejection if there is one among them. */
  function Flattened<T>(parts: seq<Result<seq<T>>>): Result<seq<T>> {
    if parts == [] then Ok([]) else Joined(Flattened(parts[..|parts| - 1]), parts[|parts| - 1])
  }

  function NormalizedEach(txs: seq<Transaction>): (parts: seq<Result<seq<Event>>>)
    ensures |parts| == |txs| && forall i :: 0 <= i < |txs| ==> parts[i] == Normalized(txs[i])
  {
    Mapped(txs, Normalized)
  }

  /** A batch is rejected as a whole when any transaction in it is. */
  function NormalizedAll(txs: seq<Transaction>): Result<seq<Event>> {
    Flattened(NormalizedEach(txs))
  }

  method BuildLegs(tx: Transaction) returns (legs: seq<Leg>)
    requires tx.OrderFill?
    ensures legs == Legs(tx)
  {
    legs := [];
    if tx.tradeOpened.Some? {
      legs := [OpenLeg(tx.tradeOpened.value, tx)];
    }
    ghost var before := legs;
    for i := 0 to |tx.tradesClosed|
      invariant legs == before + ClosedLegs(tx, i)
    {
      assert ClosedLegs(tx, i + 1) == ClosedLegs(tx, i) + [CloseLeg(Close, tx.tradesClosed[i], tx)];
      legs := legs + [CloseLeg(Close, tx.tradesClosed[i], tx)];
    }
    if tx.tradeReduced.Some? {
      legs := legs + [CloseLeg(PartialClose, tx.tradeReduced.value, tx)];
    }
  }

  method NormalizeOrderFill(tx: Transaction) returns (result: Result<seq<Event>>)
    requires tx.OrderFill?
    ensures result == Normalized(tx)
  {
    if !tx.dated || Blank(tx.account) || Blank(tx.instrument) {
      return Rejected;
    }
    var legs := BuildLegs(tx);
    var parts := AllocateCommission(tx.commission.digits, LegUnits(legs));
    result := MakeEvents(tx, legs, parts);
  }

  /** The second loop: one event for each leg, or the first validation error. */
  method MakeEvents(tx: Transaction, legs: seq<Leg>, parts: seq<int>) returns (result: Result<seq<Event>>)
    requires tx.OrderFill? && |parts| == |legs|
    ensures result == if legs != [] && (!ValidSymbol(tx.instrument) || exists leg <- legs :: !leg.Accepted()) then Rejected
                      else Ok(LegEvents(tx, legs, parts, |legs|))
  {
    var events: seq<Event> := [];
    for i := 0 to |legs|
      invariant forall j :: 0 <= j < i ==> legs[j].Accepted()
      invariant i > 0 ==> ValidSymbol(tx.instrument)
      invariant events == LegEvents(tx, legs, parts, i)
    {
      if !ValidSymbol(tx.instrument) || !legs[i].Accepted() {
        return Rejected;
      }
      OneMoreEvent(tx, legs, parts, i);
      events := events + [LegEvent(tx, legs[i], parts[i])];
    }
    result := Ok(events);
  }

  lemma OneMoreEvent(tx: Transaction, legs: seq<Leg>, parts: seq<int>, i: nat)
    requires tx.OrderFill? && i < |legs| == |parts|
    ensures LegEvents(tx, legs, parts, i + 1) == LegEvents(tx, legs, parts, i) + [LegEvent(tx, legs[i], parts[i])]
  {
  }

  method NormalizeDailyFinancing(tx: Transaction) returns (result: Result<seq<Event>>)
    requires tx.DailyFinancing?
    ensures result == Normalized(tx)
  {
    if !tx.dated || Blank(tx.account) {
      return Rejected;
    }
    if tx.positions == [] {
      return Ok([PositionEvent(tx, PositionFinancing(None, tx.financing))]);
    }
    var events: seq<Event> := [];
    for i := 0 to |tx.positions|
      invariant events == seq(i, j requires 0 <= j < i => PositionEvent(tx, tx.positions[j]))
      invariant forall j :: 0 <= j < i ==> var about := Named(tx.positions[j].instrument); about.Some? ==> ValidSymbol(about.value)
    {
      var about := Named(tx.positions[i].instrument);
      if about.Some? && !ValidSymbol(about.value) {
        assert tx.positions[i] in tx.positions;
        return Rejected;
      }
      events := events + [PositionEvent(tx, tx.positions[i])];
    }
    result := Ok(events);
  }

  method NormalizeTransactions(txs: seq<Transaction>) returns (result: Result<seq<Event>>)
    ensures result == NormalizedAll(txs)
  {
    ghost var parts := NormalizedEach(txs);
    var events: seq<Event> := [];
    for i := 0 to |txs|
      invariant Flattened(parts[..i]) == Ok(events)
    {
      var one: Result<seq<Event>>;
      match txs[i] {
        case OrderFill(_, _, _, _, _, _, _, _, _, _, _, _, _) => one := NormalizeOrderFill(txs[i]);
        case DailyFinancing(_, _, _, _, _, _) => one := NormalizeDailyFinancing(txs[i]);
        case OtherTransaction(_, _) => one := Ok([]);
      }
      assert parts[..i + 1][..i] == parts[..i];
      if one.Rejected? {
        RejectionSpreads(parts, i + 1);
        return Rejected;
      }
      events := events + one.value;
    }
    assert parts[..|txs|] == parts;
    result := Ok(events);
  }

  lemma {:induction false} RejectionSpreads<T>(parts: seq<Result<seq<T>>>, n: nat)
    requires n <= |parts| && Flattened(parts[..n]).Rejected?
    ensures Flattened(parts).Rejected?
    decreases |parts| - n
  {
    if n < |parts| {
      assert parts[..n + 1][..n] == parts[..n];
      RejectionSpreads(parts, n + 1);
    } else {
      assert parts[..n] == parts;
    }
  }

  lemma {:induction false} FlattenedConcat<T>(parts: seq<Result<seq<T>>>, more: seq<Result<seq<T>>>)
    ensures Flattened(parts + more) == Joined(Flattened(parts), Flattened(more))
  {
    if more == [] {
      assert parts + more == parts;
      assert Flattened(parts).Ok? ==> Flattened(parts).value + [] == Flattened(parts).value;
    } else {
      var n := |more| - 1;
      FlattenedConcat(parts, more[..n]);
      assert (parts + more)[..|parts + more| - 1] == parts + more[..n];
      JoinedAssociative(Flattened(parts), Flattened(more[..n]), more[n]);
    }
  }

  lemma JoinedAssociative<T>(a: Result<seq<T>>, b: Result<seq<T>>, c: Result<seq<T>>)
    ensures Joined(Joined(a, b), c) == Joined(a, Joined(b, c))
  {
    if a.Ok? && b.Ok? && c.Ok? {
      assert a.value + b.value + c.value == a.value + (b.value + c.value);
    }
  }

  /** Normalizing batch by batch gives the same events as normalizing everything at once. */
  lemma NormalizedAllConcat(txs: seq<Transaction>, more: seq<Transaction>)
    ensures NormalizedAll(txs + more) == Joined(NormalizedAll(txs), NormalizedAll(more))
  {
    MappedConcat(txs, more, Normalized);
    FlattenedConcat(NormalizedEach(txs), NormalizedEach(more));
  }

  /** A batch normalizes exactly when each of its parts does. */
  lemma {:induction false} FlattenedOk<T>(parts: seq<Result<seq<T>>>)
    ensures Flattened(parts).Ok? <==> forall i :: 0 <= i < |parts| ==> parts[i].Ok?
  {
    if parts != [] {
      FlattenedOk(parts[..|parts| - 1]);
    }
  }

  lemma {:induction false} FlattenedSource<T>(parts: seq<Result<seq<T>>>, x: T) returns (i: nat)
    requires Flattened(parts).Ok? && x in Flattened(parts).value
    ensures i < |parts| && parts[i].Ok? && x in parts[i].value
  {
    var n := |parts| - 1;
    if x in parts[n].value {
      i := n;
    } else {
      i := FlattenedSource(parts[..n], x);
    }
  }

  lemma {:induction false} FlattenedHolds<T>(parts: seq<Result<seq<T>>>, i: nat, x: T)
    requires Flattened(parts).Ok? && i < |parts| && parts[i].Ok? && x in parts[i].value
    ensures x in Flattened(parts).value
  {
    var n := |parts| - 1;
    if i < n {
      FlattenedHolds(parts[..n], i, x);
    }
  }

  predicate Makes(tx: Transaction, e: Event) {
    Normalized(tx).Ok? && e in Normalized(tx).value
  }

  /** A batch is accepted exactly when all its transactions are, and then holds exactly their events. */
  lemma BatchIsItsTransactions(txs: seq<Transaction>)
    ensures NormalizedAll(txs).Ok? <==> forall i :: 0 <= i < |txs| ==> Normalized(txs[i]).Ok?
    ensures NormalizedAll(txs).Ok? ==>
              forall e :: e in NormalizedAll(txs).value <==> exists i :: 0 <= i < |txs| && Makes(txs[i], e)
  {
    var parts := NormalizedEach(txs);
    FlattenedOk(parts);
    if Flattened(parts).Ok? {
      forall e | e in Flattened(parts).value ensures exists i :: 0 <= i < |txs| && Makes(txs[i], e) {
        var i := FlattenedSource(parts, e);
        assert Makes(txs[i], e);
      }
      forall i, e | 0 <= i < |txs| && Makes(txs[i], e) ensures e in Flattened(parts).value {
        FlattenedHolds(parts, i, e);
      }
    }
  }

  // ---- What is accepted, and what is recorded, in the broker's own fields ---------------

  predicate Identified(tradeId: string, units: real) {
    !Blank(tradeId) && units != 0.0
  }

  /** Exactly which transactions are accepted. */
  lemma AcceptedIff(tx: Transaction)
    ensures tx.OtherTransaction? ==> Normalized(tx).Ok?
    ensures tx.OrderFill? ==>
              (Normalized(tx).Ok? <==>
               tx.dated && !Blank(tx.account) && !Blank(tx.instrument) &&
               (tx.tradeOpened.Some? || tx.tradesClosed != [] || tx.tradeReduced.Some? ==> ValidSymbol(tx.instrument)) &&
               (tx.tradeOpened.Some? ==> Identified(tx.tradeOpened.value.tradeId, OpenedUnits(tx))) &&
               (forall closed <- tx.tradesClosed :: Identified(closed.tradeId, closed.units)) &&
               (tx.tradeReduced.Some? ==> Identified(tx.tradeReduced.value.tradeId, tx.tradeReduced.value.units)))
    ensures tx.DailyFinancing? ==>
              (Normalized(tx).Ok? <==>
               tx.dated && !Blank(tx.account) &&
               forall position <- tx.positions ::
                 position.instrument.None? || Blank(position.instrument.value) || ValidSymbol(position.instrument.value))
  {
    if tx.OrderFill? {
      FillAcceptedIff(tx);
    } else if tx.DailyFinancing? {
      forall position: PositionFinancing | position.instrument.Some?
        ensures ValidSymbol(Strip(position.instrument.value)) == ValidSymbol(position.instrument.value)
      {
        StripTwice(position.instrument.value);
      }
    }
  }

  /** The units of an opened trade, or the fill's where it gives none. */
  function OpenedUnits(tx: Transaction): real
    requires tx.OrderFill? && tx.tradeOpened.Some?
  {
    var trade := tx.tradeOpened.value;
    if trade.units.Some? then trade.units.value else tx.units
  }

  lemma FillAcceptedIff(tx: Transaction)
    requires tx.OrderFill?
    ensures Legs(tx) == [] <==> tx.tradeOpened.None? && tx.tradesClosed == [] && tx.tradeReduced.None?
    ensures (forall leg <- Legs(tx) :: leg.Accepted()) <==>
            (tx.tradeOpened.Some? ==> Identified(tx.tradeOpened.value.tradeId, OpenedUnits(tx))) &&
            (forall closed <- tx.tradesClosed :: Identified(closed.tradeId, closed.units)) &&
            (tx.tradeReduced.Some? ==> Identified(tx.tradeReduced.value.tradeId, tx.tradeReduced.value.units))
  {
    ClosedAcceptedIff(tx);
    var opening := if tx.tradeOpened.Some? then [OpenLeg(tx.tradeOpened.value, tx)] else [];
    var reducing := if tx.tradeReduced.Some? then [CloseLeg(PartialClose, tx.tradeReduced.value, tx)] else [];
    forall leg: Leg
      ensures leg in Legs(tx) <==> leg in opening || leg in ClosedLegs(tx, |tx.tradesClosed|) || leg in reducing
    {
    }
    assert tx.tradeOpened.Some? ==> opening[0] in opening;
    assert tx.tradeReduced.Some? ==> reducing[0] in reducing;
  }

  lemma ClosedAcceptedIff(tx: Transaction)
    requires tx.OrderFill?
    ensures (forall leg <- ClosedLegs(tx, |tx.tradesClosed|) :: leg.Accepted()) <==>
            (forall closed <- tx.tradesClosed :: Identified(closed.tradeId, closed.units))
  {
    var closing := ClosedLegs(tx, |tx.tradesClosed|);
    forall i | 0 <= i < |closing| ensures closing[i] in closing && tx.tradesClosed[i] in tx.tradesClosed {
    }
  }

  /** Stripping again changes nothing. */
  lemma StripTwice(s: string)
    ensures Strip(Strip(s)) == Strip(s)
  {
    TrimLeftStops(s);
    TrimRightStops(TrimLeft(s));
  }

  lemma {:induction false} TrimLeftStops(s: string)
    ensures TrimLeft(s) == [] || !IsSpace(TrimLeft(s)[0])
  {
    if s != [] { TrimLeftStops(s[1..]); }
  }

  lemma {:induction false} TrimRightStops(s: string)
    ensures TrimRight(TrimRight(s)) == TrimRight(s)
    ensures s == [] || !IsSpace(s[0]) ==> TrimLeft(TrimRight(s)) == TrimRight(s)
  {
    if s != [] && IsSpace(s[|s| - 1]) { TrimRightStops(s[..|s| - 1]); }
  }

  function EventUnits(events: seq<Event>): (units: seq<real>)
    ensures |units| == |events|
    ensures forall i :: 0 <= i < |events| && events[i].TradeEvent? ==> units[i] == events[i].units
  {
    seq(|events|, i requires 0 <= i < |events| => if events[i].TradeEvent? then events[i].units else 0.0)
  }

  /** A trade event of the fill: what it says about the trade, at the trade's own price unless
      that is missing or zero. */
  predicate Records(e: Event, tx: Transaction, kind: Kind, tradeId: string, units: real, price: Option<real>)
    requires tx.OrderFill?
  {
    e.TradeEvent? && e.kind == kind && e.tradeId == tradeId && e.units == units && e.side == (if units > 0.0 then Long else Short) &&
    (price.Some? && price.value != 0.0 ==> e.price == price) && (price.None? || price.value == 0.0 ==> e.price == tx.price) &&
    e.transactionId == tx.id && e.time == tx.time && e.instrument == tx.instrument && e.reason == tx.reason && e.raw == tx.raw
  }

  /** The event's money is the closed trade's own. */
  predicate Carries(e: Event, closed: ClosedTrade) {
    e.TradeEvent? && e.realizedPL == closed.realizedPL && e.financing == closed.financing
  }

  /** The events of a fill in its own fields: one for the trade it opened, one for each trade it
      closed, one for the trade it reduced, and no others. */
  ghost predicate FillSays(tx: Transaction, events: seq<Event>)
    requires tx.OrderFill?
  {
    var first := if tx.tradeOpened.Some? then 1 else 0;
    |events| == first + |tx.tradesClosed| + (if tx.tradeReduced.Some? then 1 else 0) &&
    (tx.tradeOpened.Some? ==>
       Records(events[0], tx, Open, tx.tradeOpened.value.tradeId, OpenedUnits(tx), tx.tradeOpened.value.price) &&
       events[0].realizedPL == 0.0 == events[0].financing) &&
    (forall i :: 0 <= i < |tx.tradesClosed| ==>
       var e, closed := events[first + i], tx.tradesClosed[i];
       Records(e, tx, Close, closed.tradeId, closed.units, closed.price) && Carries(e, closed)) &&
    (tx.tradeReduced.Some? ==>
       var e, reduced := events[|events| - 1], tx.tradeReduced.value;
       Records(e, tx, PartialClose, reduced.tradeId, reduced.units, reduced.price) && Carries(e, reduced))
  }

  lemma FillEventsSay(tx: Transaction)
    requires tx.OrderFill? && Normalized(tx).Ok?
    ensures FillSays(tx, Normalized(tx).value)
  {
    LegsByPosition(tx);
    if tx.tradeOpened.Some? {
      var part := EventIsItsLeg(tx, 0);
      OpenLegSays(tx, part);
    }
    forall i | 0 <= i < |tx.tradesClosed| {
      ClosedEventSays(tx, i);
    }
    if tx.tradeReduced.Some? {
      var part := EventIsItsLeg(tx, |Legs(tx)| - 1);
      CloseLegSays(tx, PartialClose, tx.tradeReduced.value, part);
    }
  }

  lemma ClosedEventSays(tx: Transaction, i: nat)
    requires tx.OrderFill? && Normalized(tx).Ok? && i < |tx.tradesClosed|
    ensures |Normalized(tx).value| == |Legs(tx)|
    ensures var first, closed := if tx.tradeOpened.Some? then 1 else 0, tx.tradesClosed[i];
            first + i < |Legs(tx)| && Records(Normalized(tx).value[first + i], tx, Close, closed.tradeId, closed.units, closed.price) &&
            Carries(Normalized(tx).value[first + i], closed)
  {
    LegsByPosition(tx);
    var part := EventIsItsLeg(tx, if tx.tradeOpened.Some? then 1 + i else i);
    CloseLegSays(tx, Close, tx.tradesClosed[i], part);
  }

  lemma EventIsItsLeg(tx: Transaction, i: nat) returns (part: int)
    requires tx.OrderFill? && Normalized(tx).Ok? && i < |Legs(tx)|
    ensures |Normalized(tx).value| == |Legs(tx)| && Normalized(tx).value[i] == LegEvent(tx, Legs(tx)[i], part)
    ensures Legs(tx)[i].units != 0.0
  {
    part := Allocation(tx.commission.digits, LegUnits(Legs(tx)))[i];
    assert Legs(tx)[i] in Legs(tx);
  }

  lemma LegsByPosition(tx: Transaction)
    requires tx.OrderFill?
    ensures var legs, first := Legs(tx), if tx.tradeOpened.Some? then 1 else 0;
            |legs| == first + |tx.tradesClosed| + (if tx.tradeReduced.Some? then 1 else 0) &&
            (tx.tradeOpened.Some? ==> legs[0] == OpenLeg(tx.tradeOpened.value, tx)) &&
            (forall i :: 0 <= i < |tx.tradesClosed| ==> legs[first + i] == CloseLeg(Close, tx.tradesClosed[i], tx)) &&
            (tx.tradeReduced.Some? ==> legs[|legs| - 1] == CloseLeg(PartialClose, tx.tradeReduced.value, tx))
  {
  }

  lemma OpenLegSays(tx: Transaction, part: int)
    requires tx.OrderFill? && tx.tradeOpened.Some? && OpenedUnits(tx) != 0.0
    ensures var trade := tx.tradeOpened.value;
            var e := LegEvent(tx, OpenLeg(trade, tx), part);
            Records(e, tx, Open, trade.tradeId, OpenedUnits(tx), trade.price) && e.realizedPL == 0.0 == e.financing
  {
  }

  lemma CloseLegSays(tx: Transaction, kind: Kind, closed: ClosedTrade, part: int)
    requires tx.OrderFill? && closed.units != 0.0
    ensures var e := LegEvent(tx, CloseLeg(kind, closed, tx), part);
            Records(e, tx, kind, closed.tradeId, closed.units, closed.price) && Carries(e, closed)
  {
  }

  /** The commission of an accepted fill is allocated over the units its events record, and each
      event nets its own money. */
  lemma FillEventsShareTheCommission(tx: Transaction, i: nat)
    requires tx.OrderFill? && Normalized(tx).Ok? && i < |Normalized(tx).value|
    ensures var events := Normalized(tx).value;
            var parts := Allocation(tx.commission.digits, EventUnits(events));
            events[i].TradeEvent? && events[i].commission == Value(Decimal(parts[i], tx.commission.scale)) &&
            events[i].netRealizedPL == events[i].realizedPL + events[i].financing - events[i].commission
  {
    assert EventUnits(Normalized(tx).value) == LegUnits(Legs(tx));
  }

  /** The events of financing in its own fields: one for each position, or one for the account. */
  ghost predicate FinancingSays(tx: Transaction, events: seq<Event>)
    requires tx.DailyFinancing?
  {
    if tx.positions == [] then |events| == 1 && RecordsFinancing(events[0], tx, None, tx.financing)
    else
      |events| == |tx.positions| &&
      forall i :: 0 <= i < |events| ==> RecordsFinancing(events[i], tx, tx.positions[i].instrument, tx.positions[i].financing)
  }

  lemma FinancingEventsSay(tx: Transaction)
    requires tx.DailyFinancing? && Normalized(tx).Ok?
    ensures FinancingSays(tx, Normalized(tx).value)
  {
  }

  /** Money about an instrument, or about the account where the name is missing or blank. */
  predicate RecordsFinancing(e: Event, tx: Transaction, instrument: Option<string>, financing: real)
    requires tx.DailyFinancing?
  {
    e.FinancingEvent? && e.financing == financing && e.transactionId == tx.id && e.time == tx.time &&
    (instrument.Some? && !Blank(instrument.value) ==> e.about == Some(Strip(instrument.value))) &&
    (instrument.None? || Blank(instrument.value) ==> e.about == None)
  }

  function SubjectOf(e: Event): string {
    if e.TradeEvent? then e.tradeId else if e.about.Some? then e.about.value else "ACCOUNT"
  }

  /** An event of a fill is that of one of its legs, with that leg's part of the commission. */
  lemma EventOfALeg(tx: Transaction, e: Event) returns (i: nat)
    requires tx.OrderFill? && Makes(tx, e)
    ensures i < |Legs(tx)| && e == LegEvent(tx, Legs(tx)[i], Allocation(tx.commission.digits, LegUnits(Legs(tx)))[i])
  {
    i :| i < |Legs(tx)| && e == FillEvents(tx)[i];
  }

  /** Every event carries its transaction's id and time, and its event id spells out the
      transaction, the kind of event and the trade or instrument it is about. */
  lemma EventIdSaysWhatItIs(tx: Transaction, e: Event)
    requires Makes(tx, e)
    ensures e.transactionId == tx.id && e.time == tx.time
    ensures NoColon(e.Label()) && e.id == EventId(tx.id, e.Label(), SubjectOf(e))
  {
    if tx.OrderFill? {
      var i := EventOfALeg(tx, e);
    } else {
      FinancingEventSaysWhatItIs(tx, e);
    }
  }

  lemma FinancingEventSaysWhatItIs(tx: Transaction, e: Event)
    requires tx.DailyFinancing? && e in FinancingEvents(tx)
    ensures e.transactionId == tx.id && e.time == tx.time
    ensures NoColon(e.Label()) && e.id == EventId(tx.id, e.Label(), SubjectOf(e))
  {
    var events := FinancingEvents(tx);
    var i :| 0 <= i < |events| && e == events[i];
  }

  /** Events of different transactions never share an id. */
  lemma EventIdsSeparateTransactions(a: Transaction, b: Transaction, e: Event, f: Event)
    requires Makes(a, e) && Makes(b, f) && e.id == f.id
    ensures a.id == b.id && e.Label() == f.Label() && SubjectOf(e) == SubjectOf(f)
  {
    EventIdSaysWhatItIs(a, e);
    EventIdSaysWhatItIs(b, f);
    EventIdsAreUnambiguous(a.id, e.Label(), SubjectOf(e), b.id, f.Label(), SubjectOf(f));
  }
}
