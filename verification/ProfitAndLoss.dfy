/** Realized profit and loss over the event table, and what it has to do with the broker's log
    and with the projected records. */
module ProfitAndLoss {
  import opened Basics
  import opened Commission
  import opened Transactions
  import opened TradeNormalizer
  import opened EventTable
  import opened TradeProjection
  import opened TradeStores
  import opened BrokerLog
  import opened TradeHistory
  import opened JournalRuns
  import opened JournalSettlement

  /** A quantity summed over events, or over what the broker sent. */
  function Total<T>(xs: seq<T>, f: T -> real): real {
    if xs == [] then 0.0 else Total(xs[..|xs| - 1], f) + f(xs[|xs| - 1])
  }

  function GrossOf(e: Event): real {
    if e.TradeEvent? && e.kind.Closes() then e.realizedPL else 0.0
  }

  function FinancingOf(e: Event): real {
    if e.FinancingEvent? || e.kind.Closes() then e.financing else 0.0
  }

  function CommissionOf(e: Event): real {
    if e.TradeEvent? then e.commission else 0.0
  }

  function NetOf(e: Event): real {
    GrossOf(e) + FinancingOf(e) - CommissionOf(e)
  }

  /** The half-open window listing a summary is computed from. */
  function InPeriod(docs: seq<Event>, start: Option<int>, end: Option<int>, instrument: Option<string>): seq<Event> {
    Listing(docs, Query(start, end, instrument, None, {}))
  }

  method ComputeRealizedPnl(docs: seq<Event>, start: Option<int>, end: Option<int>, instrument: Option<string>)
    returns (gross: real, financing: real, commission: real, net: real)
    ensures var records := InPeriod(docs, start, end, instrument);
            gross == Total(records, GrossOf) && financing == Total(records, FinancingOf) &&
            commission == Total(records, CommissionOf) && net == Total(records, NetOf)
  {
    var records := ListRecords(docs, Query(start, end, instrument, None, {}), false);
    gross, financing, commission := 0.0, 0.0, 0.0;
    for i := 0 to |records|
      invariant gross == Total(records[..i], GrossOf)
      invariant financing == Total(records[..i], FinancingOf)
      invariant commission == Total(records[..i], CommissionOf)
    {
      assert records[..i + 1][..i] == records[..i];
      var e := records[i];
      if e.TradeEvent? {
        commission := commission + e.commission;
        if e.kind.Closes() {
          gross := gross + e.realizedPL;
          financing := financing + e.financing;
        }
      } else {
        financing := financing + e.financing;
      }
    }
    assert records[..|records|] == records;
    NetIsGrossPlusFinancingMinusCommission(records);
    net := gross + financing - commission;
  }

  lemma {:induction false} NetIsGrossPlusFinancingMinusCommission(es: seq<Event>)
    ensures Total(es, NetOf) == Total(es, GrossOf) + Total(es, FinancingOf) - Total(es, CommissionOf)
  {
    if es != [] {
      NetIsGrossPlusFinancingMinusCommission(es[..|es| - 1]);
    }
  }

  // ---- Sums do not depend on order -----------------------------------------------------

  lemma {:induction false} TotalOfConcat<T>(xs: seq<T>, more: seq<T>, f: T -> real)
    ensures Total(xs + more, f) == Total(xs, f) + Total(more, f)
  {
    if more == [] {
      assert xs + more == xs;
    } else {
      var n := |more| - 1;
      TotalOfConcat(xs, more[..n], f);
      assert (xs + more)[..|xs + more| - 1] == xs + more[..n];
    }
  }

  lemma TotalSnoc<T>(xs: seq<T>, x: T, f: T -> real)
    ensures Total(xs + [x], f) == Total(xs, f) + f(x)
  {
    assert (xs + [x])[..|xs|] == xs;
  }

  lemma {:induction false} TotalsMatch<T, U>(xs: seq<T>, f: T -> real, ys: seq<U>, g: U -> real)
    requires |xs| == |ys| && forall i :: 0 <= i < |xs| ==> f(xs[i]) == g(ys[i])
    ensures Total(xs, f) == Total(ys, g)
  {
    if xs != [] {
      TotalsMatch(xs[..|xs| - 1], f, ys[..|ys| - 1], g);
    }
  }

  lemma TotalWithout(a: seq<Event>, e: Event, b: seq<Event>, f: Event -> real)
    ensures Total(a + [e] + b, f) == Total(a + b, f) + f(e)
  {
    TotalOfConcat(a, b, f);
    TotalOfConcat(a + [e], b, f);
    TotalSnoc(a, e, f);
  }

  lemma {:induction false} TotalOfPermutation(a: seq<Event>, b: seq<Event>, f: Event -> real)
    requires multiset(a) == multiset(b)
    ensures Total(a, f) == Total(b, f)
  {
    if a == [] {
      assert |multiset(b)| == 0;
    } else {
      var n := |a| - 1;
      assert a == a[..n] + [a[n]];
      assert a[n] in multiset(b);
      var i :| 0 <= i < |b| && b[i] == a[n];
      assert b == b[..i] + [a[n]] + b[i + 1..];
      assert multiset(a[..n]) == multiset(a) - multiset{a[n]};
      assert multiset(b[..i] + b[i + 1..]) == multiset(b) - multiset{a[n]};
      TotalOfPermutation(a[..n], b[..i] + b[i + 1..], f);
      TotalWithout(b[..i], a[n], b[i + 1..], f);
    }
  }

  ghost predicate NoRepeats(es: seq<Event>) {
    forall i, j :: 0 <= i < j < |es| ==> es[i] != es[j]
  }

  lemma {:induction false} SameMembersSameMultiset(a: seq<Event>, b: seq<Event>)
    requires NoRepeats(a) && NoRepeats(b) && forall e :: e in a <==> e in b
    ensures multiset(a) == multiset(b)
  {
    forall e ensures multiset(a)[e] == multiset(b)[e] {
      CountOnce(a, e);
      CountOnce(b, e);
    }
  }

  lemma {:induction false} CountOnce(a: seq<Event>, e: Event)
    requires NoRepeats(a)
    ensures multiset(a)[e] == if e in a then 1 else 0
  {
    if a != [] {
      var n := |a| - 1;
      CountOnce(a[..n], e);
      assert a == a[..n] + [a[n]];
    }
  }

  lemma DistinctIdsNoRepeats(es: seq<Event>)
    requires DistinctIds(es)
    ensures NoRepeats(es)
  {
  }

  lemma ListingTotal(docs: seq<Event>, query: Query, f: Event -> real)
    ensures Total(Listing(docs, query), f) == Total(Matching(docs, query), f)
  {
    SortingIsSorting(Matching(docs, query));
    TotalOfPermutation(Listing(docs, query), Matching(docs, query), f);
  }

  lemma {:induction false} EverythingMatches(docs: seq<Event>)
    ensures Matching(docs, Query(None, None, None, None, {})) == docs
  {
    if docs != [] {
      var n := |docs| - 1;
      EverythingMatches(docs[..n]);
      assert docs == docs[..n] + [docs[n]];
    }
  }

  // ---- Additivity ----------------------------------------------------------------------

  /** The listing of a window is the listings of its two halves, one after the other. */
  lemma PeriodsJoin(docs: seq<Event>, start: Option<int>, mid: int, end: Option<int>, instrument: Option<string>)
    requires DistinctIds(docs)
    requires (start.Some? ==> start.value <= mid) && (end.Some? ==> mid <= end.value)
    ensures InPeriod(docs, start, end, instrument) ==
            InPeriod(docs, start, Some(mid), instrument) + InPeriod(docs, Some(mid), end, instrument)
  {
    var whole := InPeriod(docs, start, end, instrument);
    var a, b := InPeriod(docs, start, Some(mid), instrument), InPeriod(docs, Some(mid), end, instrument);
    PeriodHolds(docs, start, end, instrument);
    PeriodHolds(docs, start, Some(mid), instrument);
    PeriodHolds(docs, Some(mid), end, instrument);
    OrderedJoin(a, b, mid);
    forall e ensures e in whole <==> e in a + b {
      PeriodSplits(start, mid, end, instrument, e);
    }
    OrderIsUnique(whole, a + b);
  }

  lemma PeriodSplits(start: Option<int>, mid: int, end: Option<int>, instrument: Option<string>, e: Event)
    requires (start.Some? ==> start.value <= mid) && (end.Some? ==> mid <= end.value)
    ensures Query(start, end, instrument, None, {}).Matches(e) <==>
            Query(start, Some(mid), instrument, None, {}).Matches(e) || Query(Some(mid), end, instrument, None, {}).Matches(e)
  {
  }

  lemma PeriodHolds(docs: seq<Event>, start: Option<int>, end: Option<int>, instrument: Option<string>)
    requires DistinctIds(docs)
    ensures InOrder(InPeriod(docs, start, end, instrument))
    ensures forall e :: e in InPeriod(docs, start, end, instrument) <==>
                        e in docs && Query(start, end, instrument, None, {}).Matches(e)
  {
    ListingIsTheMatchesInOrder(docs, Query(start, end, instrument, None, {}));
  }

  lemma OrderedJoin(a: seq<Event>, b: seq<Event>, mid: int)
    requires InOrder(a) && InOrder(b) && (forall e <- a :: e.time < mid) && (forall e <- b :: mid <= e.time)
    ensures InOrder(a + b)
  {
    forall i, j | 0 <= i < j < |a + b| ensures Before((a + b)[i], (a + b)[j]) {
      if i < |a| <= j {
        assert a[i] in a && b[j - |a|] in b;
      }
    }
  }

  /** Net profit is additive over adjacent half-open windows. */
  lemma NetIsAdditive(docs: seq<Event>, start: Option<int>, mid: int, end: Option<int>, instrument: Option<string>)
    requires DistinctIds(docs)
    requires (start.Some? ==> start.value <= mid) && (end.Some? ==> mid <= end.value)
    ensures Total(InPeriod(docs, start, end, instrument), NetOf) ==
            Total(InPeriod(docs, start, Some(mid), instrument), NetOf) + Total(InPeriod(docs, Some(mid), end, instrument), NetOf)
  {
    PeriodsJoin(docs, start, mid, end, instrument);
    TotalOfConcat(InPeriod(docs, start, Some(mid), instrument), InPeriod(docs, Some(mid), end, instrument), NetOf);
  }

  // ---- Conservation --------------------------------------------------------------------

  function ProfitOf(closed: ClosedTrade): real {
    closed.realizedPL
  }

  function CarryOf(closed: ClosedTrade): real {
    closed.financing
  }

  function PositionOf(position: PositionFinancing): real {
    position.financing
  }

  /** The trades a fill closed, and the one it reduced. */
  function Settling(tx: Transaction): seq<ClosedTrade>
    requires tx.OrderFill?
  {
    tx.tradesClosed + (if tx.tradeReduced.Some? then [tx.tradeReduced.value] else [])
  }

  /** What one transaction did to the account, read off the broker's own fields. */
  function BrokerGross(tx: Transaction): real {
    if tx.OrderFill? then Total(Settling(tx), ProfitOf) else 0.0
  }

  function BrokerFinancing(tx: Transaction): real {
    if tx.OrderFill? then Total(Settling(tx), CarryOf)
    else if tx.OtherTransaction? then 0.0
    else if tx.positions == [] then tx.financing else Total(tx.positions, PositionOf)
  }

  function BrokerCommission(tx: Transaction): real {
    if tx.OrderFill? then Value(tx.commission) else 0.0
  }

  function BrokerNet(tx: Transaction): real {
    BrokerGross(tx) + BrokerFinancing(tx) - BrokerCommission(tx)
  }

  function PartsValue(parts: seq<int>, scale: nat): real {
    if parts == [] then 0.0 else PartsValue(parts[..|parts| - 1], scale) + Value(Decimal(parts[|parts| - 1], scale))
  }

  lemma {:induction false} PartsValueIsTheWhole(parts: seq<int>, scale: nat)
    ensures PartsValue(parts, scale) == Value(Decimal(SumInts(parts), scale))
  {
    if parts != [] {
      PartsValueIsTheWhole(parts[..|parts| - 1], scale);
      Distribute(SumInts(parts[..|parts| - 1]), parts[|parts| - 1], Quantum(scale));
    }
  }

  lemma Distribute(a: int, b: int, q: real)
    ensures (a + b) as real * q == a as real * q + b as real * q
  {
  }

  lemma {:induction false} PartsAreCharged(events: seq<Event>, parts: seq<int>, scale: nat)
    requires |events| == |parts|
    requires forall i :: 0 <= i < |parts| ==> events[i].TradeEvent? && events[i].commission == Value(Decimal(parts[i], scale))
    ensures Total(events, CommissionOf) == PartsValue(parts, scale)
  {
    if parts != [] {
      PartsAreCharged(events[..|events| - 1], parts[..|parts| - 1], scale);
    }
  }

  /** The events of an accepted fill that close or reduce carry the closed trades' own money, and
      the event of an opened trade none. */
  lemma FillCarries(tx: Transaction, events: seq<Event>, f: Event -> real, g: ClosedTrade -> real)
    requires tx.OrderFill? && FillSays(tx, events)
    requires forall e: Event :: e.TradeEvent? && e.kind.Open? && e.financing == 0.0 ==> f(e) == 0.0
    requires forall e: Event, closed: ClosedTrade :: e.TradeEvent? && e.kind.Closes() && Carries(e, closed) ==> f(e) == g(closed)
    ensures Total(events, f) == Total(Settling(tx), g)
  {
    var first := if tx.tradeOpened.Some? then 1 else 0;
    forall i | 0 <= i < |Settling(tx)| ensures f(events[first + i]) == g(Settling(tx)[i]) {
      if i < |tx.tradesClosed| {
        assert Carries(events[first + i], tx.tradesClosed[i]);
      } else {
        assert first + i == |events| - 1 && Carries(events[first + i], tx.tradeReduced.value);
      }
    }
    LastOnesMatch(events, first, f, Settling(tx), g);
  }

  lemma {:induction false} LastOnesMatch<T, U>(xs: seq<T>, first: nat, f: T -> real, ys: seq<U>, g: U -> real)
    requires first <= 1 && |xs| == first + |ys| && (first == 1 ==> f(xs[0]) == 0.0)
    requires forall i :: 0 <= i < |ys| ==> f(xs[first + i]) == g(ys[i])
    ensures Total(xs, f) == Total(ys, g)
  {
    if ys != [] {
      LastOnesMatch(xs[..|xs| - 1], first, f, ys[..|ys| - 1], g);
    } else if first == 1 {
      assert xs[..0] == [];
    }
  }

  lemma FillFigures(tx: Transaction)
    requires tx.OrderFill? && Normalized(tx).Ok?
    ensures Total(Normalized(tx).value, GrossOf) == BrokerGross(tx)
    ensures Total(Normalized(tx).value, FinancingOf) == BrokerFinancing(tx)
    ensures var units := EventUnits(Normalized(tx).value);
            Total(Normalized(tx).value, CommissionOf) == Value(Decimal(SumInts(Allocation(tx.commission.digits, units)), tx.commission.scale))
  {
    var events := Normalized(tx).value;
    var parts := Allocation(tx.commission.digits, EventUnits(events));
    FillEventsSay(tx);
    FillCarries(tx, events, GrossOf, ProfitOf);
    FillCarries(tx, events, FinancingOf, CarryOf);
    forall i | 0 <= i < |parts|
      ensures events[i].TradeEvent? && events[i].commission == Value(Decimal(parts[i], tx.commission.scale))
    {
      FillEventsShareTheCommission(tx, i);
    }
    PartsAreCharged(events, parts, tx.commission.scale);
    PartsValueIsTheWhole(parts, tx.commission.scale);
  }

  predicate HasLegs(tx: Transaction)
    requires tx.OrderFill?
  {
    tx.tradeOpened.Some? || tx.tradesClosed != [] || tx.tradeReduced.Some?
  }

  /** The events of a fill carry its commission to the last digit exactly when there is a leg to
      charge it to, or no commission. */
  lemma FillChargesItsCommissionIff(tx: Transaction)
    requires tx.OrderFill? && Normalized(tx).Ok?
    ensures Total(Normalized(tx).value, CommissionOf) == BrokerCommission(tx) <==> HasLegs(tx) || tx.commission.digits == 0
  {
    var units := EventUnits(Normalized(tx).value);
    FillFigures(tx);
    FillEventsSay(tx);
    if HasLegs(tx) {
      AcceptedUnits(tx);
      NonZeroTotal(units);
      AllocationIsExact(tx.commission.digits, units);
    } else {
      ZeroValue(tx.commission);
      ZeroValue(Decimal(0, tx.commission.scale));
    }
  }

  lemma AcceptedUnits(tx: Transaction)
    requires tx.OrderFill? && Normalized(tx).Ok?
    ensures NonZero(EventUnits(Normalized(tx).value))
  {
    forall i | 0 <= i < |Normalized(tx).value| ensures EventUnits(Normalized(tx).value)[i] != 0.0 {
      var part := EventIsItsLeg(tx, i);
    }
  }

  /** So they carry its result exactly then. */
  lemma FillConservesMoneyIff(tx: Transaction)
    requires tx.OrderFill? && Normalized(tx).Ok?
    ensures Total(Normalized(tx).value, NetOf) == BrokerNet(tx) <==> HasLegs(tx) || tx.commission.digits == 0
  {
    FillFigures(tx);
    FillChargesItsCommissionIff(tx);
    NetIsGrossPlusFinancingMinusCommission(Normalized(tx).value);
  }

  /** A fill that opened, closed and reduced nothing: its commission is in no event. */
  lemma FillWithoutLegsLosesItsCommission()
    ensures var tx := OrderFill(5, 0, "A", true, "EUR_USD", None, 1.0, None, Decimal(1, 0), None, [], None, Null);
            Normalized(tx) == Ok([]) && BrokerNet(tx) == -1.0 && Total([], NetOf) == 0.0
  {
    var tx := OrderFill(5, 0, "A", true, "EUR_USD", None, 1.0, None, Decimal(1, 0), None, [], None, Null);
    assert Strip("A") == "A" && Strip("EUR_USD") == "EUR_USD";
    assert Legs(tx) == [] && Settling(tx) == [];
    assert FillEvents(tx) == [];
  }

  lemma ZeroValue(d: Decimal)
    ensures Value(d) == 0.0 <==> d.digits == 0
  {
    NonZeroProduct(d.digits as real, Quantum(d.scale));
  }

  lemma NonZeroProduct(a: real, q: real)
    requires q > 0.0
    ensures a * q == 0.0 <==> a == 0.0
  {
  }

  ghost predicate Chargeable(tx: Transaction) {
    Normalized(tx).Ok? && DistinctIds(Normalized(tx).value) && (tx.OrderFill? ==> HasLegs(tx) || tx.commission.digits == 0)
  }

  /** What the events of an accepted transaction add up to: the broker's own profit, financing and
      commission. */
  lemma TransactionConservesMoney(tx: Transaction)
    requires Chargeable(tx)
    ensures Total(Normalized(tx).value, GrossOf) == BrokerGross(tx)
    ensures Total(Normalized(tx).value, FinancingOf) == BrokerFinancing(tx)
    ensures Total(Normalized(tx).value, CommissionOf) == BrokerCommission(tx)
    ensures Total(Normalized(tx).value, NetOf) == BrokerNet(tx)
  {
    NetIsGrossPlusFinancingMinusCommission(Normalized(tx).value);
    if tx.OrderFill? {
      FillFigures(tx);
      FillChargesItsCommissionIff(tx);
    } else if tx.DailyFinancing? {
      FinancingEventsSay(tx);
      FinancingFigures(tx, Normalized(tx).value);
    }
  }

  lemma FinancingFigures(tx: Transaction, events: seq<Event>)
    requires tx.DailyFinancing? && FinancingSays(tx, events)
    ensures Total(events, GrossOf) == 0.0 == Total(events, CommissionOf) && Total(events, FinancingOf) == BrokerFinancing(tx)
  {
    TotalOfNothing(events, GrossOf);
    TotalOfNothing(events, CommissionOf);
    if tx.positions != [] {
      TotalsMatch(events, FinancingOf, tx.positions, PositionOf);
    } else {
      assert events == [] + [events[0]];
      TotalSnoc([], events[0], FinancingOf);
    }
  }

  lemma {:induction false} TotalOfNothing(es: seq<Event>, f: Event -> real)
    requires forall i :: 0 <= i < |es| ==> f(es[i]) == 0.0
    ensures Total(es, f) == 0.0
  {
    if es != [] {
      TotalOfNothing(es[..|es| - 1], f);
    }
  }

  /** What the broker's own fields of a log add up to. */
  function LogNet(log: seq<Transaction>): real {
    Total(log, BrokerNet)
  }

  lemma {:induction false} LogEvents(log: seq<Transaction>)
    requires WellFormed(log) && forall tx <- log :: Chargeable(tx)
    ensures NormalizedAll(log).Ok? && DistinctIds(NormalizedAll(log).value)
  {
    if log != [] {
      var n := |log| - 1;
      assert Chargeable(log[n]) by { assert log[n] in log; }
      LogEvents(log[..n]);
      var es, last := NormalizedAll(log[..n]).value, Normalized(log[n]).value;
      MappedPrefix(log, n, Normalized);
      assert NormalizedAll(log) == Ok(es + last);
      forall e, f | e in es && f in last ensures e.id != f.id {
        NewIdsOnly(log, n, e, f);
      }
      DistinctConcat(es, last);
    }
  }

  /** The events of a transaction add up to a quantity of the transaction. */
  ghost predicate AddsUp(tx: Transaction, f: Event -> real, g: Transaction -> real) {
    Normalized(tx).Ok? && Total(Normalized(tx).value, f) == g(tx)
  }

  lemma {:induction false} LogAddsUp(log: seq<Transaction>, f: Event -> real, g: Transaction -> real)
    requires forall tx <- log :: AddsUp(tx, f, g)
    ensures NormalizedAll(log).Ok? && Total(NormalizedAll(log).value, f) == Total(log, g)
  {
    if log != [] {
      var n := |log| - 1;
      assert AddsUp(log[n], f, g) by { assert log[n] in log; }
      LogAddsUp(log[..n], f, g);
      var es, last := NormalizedAll(log[..n]).value, Normalized(log[n]).value;
      MappedPrefix(log, n, Normalized);
      assert NormalizedAll(log) == Ok(es + last);
      TotalOfConcat(es, last, f);
    }
  }

  lemma DistinctConcat(a: seq<Event>, b: seq<Event>)
    requires DistinctIds(a) && DistinctIds(b) && forall e, f | e in a && f in b :: e.id != f.id
    ensures DistinctIds(a + b)
  {
  }

  lemma NewIdsOnly(log: seq<Transaction>, n: nat, e: Event, f: Event)
    requires WellFormed(log) && n < |log| && NormalizedAll(log[..n]).Ok?
    requires e in NormalizedAll(log[..n]).value && Makes(log[n], f)
    ensures e.id != f.id
  {
    BatchIsItsTransactions(log[..n]);
    var i :| 0 <= i < n && Makes(log[..n][i], e);
    if e.id == f.id {
      EventIdsSeparateTransactions(log[i], log[n], e, f);
    }
  }

  lemma {:induction false} WindowIsWellFormed(log: seq<Transaction>, start: int, end: int)
    requires WellFormed(log)
    ensures WellFormed(Window(log, start, end, false))
  {
    if log != [] {
      var n := |log| - 1;
      WindowIsWellFormed(log[..n], start, end);
      WindowMembers(log[..n], start, end, false);
      var before := Window(log[..n], start, end, false);
      forall i | 0 <= i < |before| ensures before[i].id < log[n].id && before[i].time <= log[n].time {
        assert before[i] in log[..n];
      }
    }
  }

  /** What a table of covered transactions holds for a period: the events of the broker's
      transactions in it. */
  lemma PeriodHoldsItsWindow(log: seq<Transaction>, s: Journal, start: int, end: int, e: Event)
    requires WellFormed(log) && Sound(log, s)
    requires forall tx <- Window(log, start, end, false) :: Covered(s, tx) && Unambiguous(tx)
    ensures (exists tx :: tx in Window(log, start, end, false) && Makes(tx, e)) <==> e in s.events && start <= e.time < end
  {
    WindowMembers(log, start, end, false);
    if tx :| tx in Window(log, start, end, false) && Makes(tx, e) {
      EventIdSaysWhatItIs(tx, e);
      CoveredEventsAreStored(log, s, tx, e);
    }
    if e in s.events && start <= e.time < end {
      var i :| 0 <= i < |log| && Makes(log[i], e);
      EventIdSaysWhatItIs(log[i], e);
      assert log[i] in log && log[i].Requested();
    }
  }

  lemma WindowEventsArePeriod(log: seq<Transaction>, s: Journal, start: int, end: int, es: seq<Event>)
    requires WellFormed(log) && Sound(log, s)
    requires forall tx <- Window(log, start, end, false) :: Covered(s, tx) && Unambiguous(tx)
    requires NormalizedAll(Window(log, start, end, false)) == Ok(es)
    ensures forall e :: e in es <==> e in s.events && start <= e.time < end
  {
    var txs := Window(log, start, end, false);
    BatchIsItsTransactions(txs);
    forall e ensures e in es <==> e in s.events && start <= e.time < end {
      PeriodHoldsItsWindow(log, s, start, end, e);
      if tx :| tx in txs && Makes(tx, e) {
        var i :| 0 <= i < |txs| && txs[i] == tx;
        assert Makes(txs[i], e);
      }
    }
  }

  /** What a period's listing adds up to, when its transactions are in the journal. */
  lemma PeriodAddsUp(log: seq<Transaction>, s: Journal, start: int, end: int, f: Event -> real, g: Transaction -> real)
    requires WellFormed(log) && Sound(log, s)
    requires forall tx <- Window(log, start, end, false) :: Covered(s, tx) && Chargeable(tx) && AddsUp(tx, f, g)
    ensures Total(InPeriod(s.events, Some(start), Some(end), None), f) == Total(Window(log, start, end, false), g)
  {
    var txs, query := Window(log, start, end, false), Query(Some(start), Some(end), None, None, {});
    WindowIsWellFormed(log, start, end);
    LogEvents(txs);
    LogAddsUp(txs, f, g);
    var es := NormalizedAll(txs).value;
    forall tx | tx in txs ensures Unambiguous(tx) {
      assert Chargeable(tx);
    }
    WindowEventsArePeriod(log, s, start, end, es);
    SumOfTheMatches(s.events, query, es, f);
  }

  /** The same events in another order have the same total. */
  lemma SumOfTheMatches(docs: seq<Event>, query: Query, es: seq<Event>, f: Event -> real)
    requires DistinctIds(docs) && DistinctIds(es) && forall e :: e in es <==> e in docs && query.Matches(e)
    ensures Total(Listing(docs, query), f) == Total(es, f)
  {
    var found := Matching(docs, query);
    ListingTotal(docs, query, f);
    MatchingKeepsIdsDistinct(docs, query);
    DistinctIdsNoRepeats(found);
    DistinctIdsNoRepeats(es);
    SameMembersSameMultiset(found, es);
    TotalOfPermutation(found, es, f);
  }

  /** Money is conserved end to end, for every period the service can be asked for: when the
      transactions of the period are in the journal, its gross profit, its financing, its
      commission and its net profit are each what the broker's own fields of those transactions
      add up to. */
  lemma PeriodConservesMoney(log: seq<Transaction>, s: Journal, start: int, end: int)
    requires WellFormed(log) && Sound(log, s)
    requires forall tx <- Window(log, start, end, false) :: Covered(s, tx) && Chargeable(tx)
    ensures var records, txs := InPeriod(s.events, Some(start), Some(end), None), Window(log, start, end, false);
            Total(records, GrossOf) == Total(txs, BrokerGross) && Total(records, FinancingOf) == Total(txs, BrokerFinancing) &&
            Total(records, CommissionOf) == Total(txs, BrokerCommission) && Total(records, NetOf) == LogNet(txs)
  {
    forall tx | tx in Window(log, start, end, false)
      ensures AddsUp(tx, GrossOf, BrokerGross) && AddsUp(tx, FinancingOf, BrokerFinancing)
      ensures AddsUp(tx, CommissionOf, BrokerCommission) && AddsUp(tx, NetOf, BrokerNet)
    {
      TransactionConservesMoney(tx);
    }
    PeriodAddsUp(log, s, start, end, GrossOf, BrokerGross);
    PeriodAddsUp(log, s, start, end, FinancingOf, BrokerFinancing);
    PeriodAddsUp(log, s, start, end, CommissionOf, BrokerCommission);
    PeriodAddsUp(log, s, start, end, NetOf, BrokerNet);
  }

  /** In every run: a period shows what the broker booked in it, as soon as the run has reached
      its transactions, by watermark or by backfill. */
  lemma MoneyIsConserved(registry: Registry, run: seq<Config>, actions: seq<Action>, j: nat, start: int, end: int)
    requires IsRun(registry, run, actions) && j < |run|
    requires forall tx <- Window(run[j].log, start, end, false) :: Reached(run, actions, j, tx) && Chargeable(tx)
    ensures var records, txs := InPeriod(run[j].s.events, Some(start), Some(end), None), Window(run[j].log, start, end, false);
            Total(records, GrossOf) == Total(txs, BrokerGross) && Total(records, FinancingOf) == Total(txs, BrokerFinancing) &&
            Total(records, CommissionOf) == Total(txs, BrokerCommission) && Total(records, NetOf) == LogNet(txs)
  {
    EveryRunStaysGood(registry, run, actions, j);
    forall tx | tx in Window(run[j].log, start, end, false) ensures Covered(run[j].s, tx) {
      EveryReachedTransactionIsCovered(registry, run, actions, j, tx);
    }
    PeriodConservesMoney(run[j].log, run[j].s, start, end);
  }

  lemma AllTimeAddsUp(log: seq<Transaction>, s: Journal, f: Event -> real, g: Transaction -> real)
    requires WellFormed(log) && Sound(log, s) && Complete(log, s)
    requires forall tx <- log :: Chargeable(tx) && AddsUp(tx, f, g)
    ensures Total(InPeriod(s.events, None, None, None), f) == Total(log, g)
  {
    LogEvents(log);
    LogAddsUp(log, f, g);
    BatchIsItsTransactions(log);
    var es := NormalizedAll(log).value;
    forall tx | tx in log ensures Unambiguous(tx) {
      assert Chargeable(tx);
    }
    forall e ensures e in es <==> e in s.events {
      TableIsTheNormalizedLog(log, s, e);
    }
    SumOfTheMatches(s.events, Query(None, None, None, None, {}), es, f);
  }

  /** All time: once every requested transaction is covered, the four figures are what the whole
      log adds up to. */
  lemma AllTimeConservesMoney(log: seq<Transaction>, s: Journal)
    requires WellFormed(log) && Sound(log, s) && Complete(log, s) && forall tx <- log :: Chargeable(tx)
    ensures var records := InPeriod(s.events, None, None, None);
            Total(records, GrossOf) == Total(log, BrokerGross) && Total(records, FinancingOf) == Total(log, BrokerFinancing) &&
            Total(records, CommissionOf) == Total(log, BrokerCommission) && Total(records, NetOf) == LogNet(log)
  {
    forall tx | tx in log
      ensures AddsUp(tx, GrossOf, BrokerGross) && AddsUp(tx, FinancingOf, BrokerFinancing)
      ensures AddsUp(tx, CommissionOf, BrokerCommission) && AddsUp(tx, NetOf, BrokerNet)
    {
      TransactionConservesMoney(tx);
    }
    AllTimeAddsUp(log, s, GrossOf, BrokerGross);
    AllTimeAddsUp(log, s, FinancingOf, BrokerFinancing);
    AllTimeAddsUp(log, s, CommissionOf, BrokerCommission);
    AllTimeAddsUp(log, s, NetOf, BrokerNet);
  }

  // ---- Reconciliation with the records -------------------------------------------------

  function ClosedNetOf(e: Event): real {
    if e.TradeEvent? && e.kind.Closes() then e.netRealizedPL else 0.0
  }

  function ClosedNetFor(trade: string): Event -> real {
    (e: Event) => if e.TradeEvent? && e.tradeId == trade then ClosedNetOf(e) else 0.0
  }

  function OpenCommissionOf(e: Event): real {
    if e.TradeEvent? && e.kind.Open? then e.commission else 0.0
  }

  function DailyFinancingOf(e: Event): real {
    if e.FinancingEvent? then e.financing else 0.0
  }

  /** The projected account profit of the named trades. */
  function RecordedPnl(s: Journal, ids: seq<string>): real {
    if ids == [] then 0.0
    else
      var id := ids[|ids| - 1];
      RecordedPnl(s, ids[..|ids| - 1])
      + (if id in s.trades && s.trades[id].Closed() then s.trades[id].closing.value.pnl else 0.0)
  }

  /** The closing legs' net of the named trades, read off the table. */
  function TableNet(docs: seq<Event>, ids: seq<string>): real {
    if ids == [] then 0.0 else TableNet(docs, ids[..|ids| - 1]) + Total(docs, ClosedNetFor(ids[|ids| - 1]))
  }

  /** The stored net of an event is made of its other fields. */
  predicate Netted(e: Event) {
    e.TradeEvent? ==> e.netRealizedPL == e.realizedPL + e.financing - e.commission
  }

  lemma NetIsRecorded(log: seq<Transaction>, e: Event)
    requires MadeBy(log, e)
    ensures NetOf(e) == ClosedNetOf(e) + DailyFinancingOf(e) - OpenCommissionOf(e)
  {
    MadeIsNetted(log, e);
  }

  lemma MadeIsNetted(log: seq<Transaction>, e: Event)
    requires MadeBy(log, e)
    ensures Netted(e)
  {
    forall i | 0 <= i < |log| && Makes(log[i], e) ensures Netted(e) {
      EventIsNetted(log[i], e);
    }
  }

  lemma EventIsNetted(tx: Transaction, e: Event)
    requires Makes(tx, e)
    ensures Netted(e)
  {
    if tx.OrderFill? {
      var i := EventOfALeg(tx, e);
    }
  }

  lemma {:induction false} NetSplits(log: seq<Transaction>, docs: seq<Event>)
    requires forall e <- docs :: MadeBy(log, e)
    ensures Total(docs, NetOf) == Total(docs, ClosedNetOf) + Total(docs, DailyFinancingOf) - Total(docs, OpenCommissionOf)
  {
    if docs != [] {
      NetSplits(log, docs[..|docs| - 1]);
      NetIsRecorded(log, docs[|docs| - 1]);
    }
  }

  lemma {:induction false} ClosingLegsNet(legs: seq<Event>, trade: string)
    requires forall e <- legs :: e.TradeEvent? && e.tradeId == trade
    ensures NetSum(ClosingLegs(legs)) == Total(legs, ClosedNetFor(trade))
  {
    if legs != [] {
      var n := |legs| - 1;
      ClosingLegsNet(legs[..n], trade);
      var before := ClosingLegs(legs[..n]);
      assert legs[n] in legs;
      if legs[n].kind.Closes() {
        assert (before + [legs[n]])[..|before|] == before;
      } else {
        assert before + [] == before;
      }
    }
  }

  /** What only the trade's own events add to is the same over its legs as over the table. */
  lemma {:induction false} OtherTradesAddNothing(docs: seq<Event>, trade: string, f: Event -> real)
    requires forall e: Event :: !Query(None, None, None, Some(trade), {}).Matches(e) ==> f(e) == 0.0
    ensures Total(Matching(docs, Query(None, None, None, Some(trade), {})), f) == Total(docs, f)
  {
    if docs != [] {
      var n, query := |docs| - 1, Query(None, None, None, Some(trade), {});
      OtherTradesAddNothing(docs[..n], trade, f);
      if query.Matches(docs[n]) {
        TotalSnoc(Matching(docs[..n], query), docs[n], f);
      } else {
        assert Matching(docs[..n], query) + [] == Matching(docs[..n], query);
      }
    }
  }

  lemma LegsTotal(docs: seq<Event>, trade: string, f: Event -> real)
    requires forall e: Event :: !Query(None, None, None, Some(trade), {}).Matches(e) ==> f(e) == 0.0
    ensures Total(LegsOf(docs, trade), f) == Total(docs, f)
  {
    ListingTotal(docs, Query(None, None, None, Some(trade), {}), f);
    OtherTradesAddNothing(docs, trade, f);
  }

  lemma SettledRecordNetsItsLegs(registry: Registry, s: Journal, trade: string)
    requires DistinctIds(s.events) && Settled(registry, s, trade) && HasCloseLeg(s, trade) && trade in s.trades
    ensures s.trades[trade].Closed() && s.trades[trade].closing.value.pnl == NetSum(ClosingLegs(LegsOf(s.events, trade)))
  {
    CloseLegMeansFullyClosed(s, trade);
    SettledWithACloseLegIsClosed(registry, s, trade);
  }

  /** The recorded profit of a settled closed trade is the net of its closing legs. */
  lemma RecordedPnlOfOne(registry: Registry, s: Journal, trade: string)
    requires DistinctIds(s.events) && Settled(registry, s, trade) && HasCloseLeg(s, trade) && trade in s.trades
    ensures s.trades[trade].Closed() && s.trades[trade].closing.value.pnl == Total(s.events, ClosedNetFor(trade))
  {
    var legs := LegsOf(s.events, trade);
    SettledRecordNetsItsLegs(registry, s, trade);
    ClosingLegsNet(legs, trade);
    LegsTotal(s.events, trade, ClosedNetFor(trade));
  }

  lemma {:induction false} RecordsMatchTheTable(registry: Registry, s: Journal, ids: seq<string>)
    requires DistinctIds(s.events)
    requires forall id <- ids :: id in s.trades && Settled(registry, s, id) && HasCloseLeg(s, id)
    ensures RecordedPnl(s, ids) == TableNet(s.events, ids)
  {
    if ids != [] {
      assert ids[|ids| - 1] in ids;
      RecordsMatchTheTable(registry, s, ids[..|ids| - 1]);
      RecordedPnlOfOne(registry, s, ids[|ids| - 1]);
    }
  }

  function ShareOfEvent(ids: seq<string>, e: Event): real {
    if ids == [] then 0.0 else ShareOfEvent(ids[..|ids| - 1], e) + ClosedNetFor(ids[|ids| - 1])(e)
  }

  lemma {:induction false} TableNetSnoc(docs: seq<Event>, ids: seq<string>)
    requires docs != []
    ensures TableNet(docs, ids) == TableNet(docs[..|docs| - 1], ids) + ShareOfEvent(ids, docs[|docs| - 1])
  {
    if ids != [] {
      TableNetSnoc(docs, ids[..|ids| - 1]);
    }
  }

  lemma {:induction false} TableNetOfNothing(ids: seq<string>)
    ensures TableNet([], ids) == 0.0
  {
    if ids != [] {
      TableNetOfNothing(ids[..|ids| - 1]);
    }
  }

  ghost predicate AllDifferent(ids: seq<string>) {
    forall i, j :: 0 <= i < j < |ids| ==> ids[i] != ids[j]
  }

  /** Every closing event belongs to exactly one of the trades. */
  lemma {:induction false} EachEventOnce(ids: seq<string>, e: Event)
    requires AllDifferent(ids)
    ensures ShareOfEvent(ids, e) == if e.TradeEvent? && e.tradeId in ids then ClosedNetOf(e) else 0.0
  {
    if ids != [] {
      var n := |ids| - 1;
      EachEventOnce(ids[..n], e);
      assert ids == ids[..n] + [ids[n]];
      assert forall i :: 0 <= i < n ==> ids[..n][i] != ids[n];
    }
  }

  lemma {:induction false} TradesPartitionTheTable(docs: seq<Event>, ids: seq<string>)
    requires AllDifferent(ids) && forall e <- docs :: e.TradeEvent? && e.kind.Closes() ==> e.tradeId in ids
    ensures TableNet(docs, ids) == Total(docs, ClosedNetOf)
  {
    if docs == [] {
      TableNetOfNothing(ids);
    } else {
      var n := |docs| - 1;
      TradesPartitionTheTable(docs[..n], ids);
      TableNetSnoc(docs, ids);
      EachEventOnce(ids, docs[n]);
      assert docs[n] in docs;
    }
  }

  /** When every trade with a closing leg is fully closed and settled, the records and the
      event table tell the same story: recorded account profit is all-time net profit without
      daily financing and without the commission charged on opening legs. */
  lemma RecordsReconcile(registry: Registry, log: seq<Transaction>, s: Journal, ids: seq<string>)
    requires Sound(log, s) && AllDifferent(ids)
    requires forall e <- s.events :: e.TradeEvent? && e.kind.Closes() ==> e.tradeId in ids
    requires forall id <- ids :: id in s.trades && Settled(registry, s, id) && HasCloseLeg(s, id)
    ensures var all := InPeriod(s.events, None, None, None);
            RecordedPnl(s, ids) == Total(all, NetOf) - Total(all, DailyFinancingOf) + Total(all, OpenCommissionOf)
  {
    var everything := Query(None, None, None, None, {});
    RecordsMatchTheTable(registry, s, ids);
    TradesPartitionTheTable(s.events, ids);
    NetSplits(log, s.events);
    EverythingMatches(s.events);
    ListingTotal(s.events, everything, NetOf);
    ListingTotal(s.events, everything, DailyFinancingOf);
    ListingTotal(s.events, everything, OpenCommissionOf);
  }

  /** At some point of the run the trade was settled next to its CLOSE leg, and no step since
      then could unsettle it. */
  ghost predicate SettledSince(registry: Registry, run: seq<Config>, actions: seq<Action>, j: nat, trade: string)
    requires |run| == |actions| + 1 && j < |run|
  {
    exists i: nat :: i <= j && SettledAndLeft(registry, run, actions, i, j, trade)
  }

  ghost predicate SettledAndLeft(registry: Registry, run: seq<Config>, actions: seq<Action>, i: nat, j: nat, trade: string)
    requires |run| == |actions| + 1 && i <= j < |run|
  {
    SettledClose(registry, run[i].s, trade) && forall k: nat :: i <= k < j ==> Harmless(run[k], actions[k], run[k + 1], trade)
  }

  /** Along runs the records and the table tell the same story: it takes a finished import that
      took each trade's close, and no stale poll or interrupted import of new legs since. */
  lemma RunsReconcile(registry: Registry, run: seq<Config>, actions: seq<Action>, j: nat, ids: seq<string>)
    requires IsRun(registry, run, actions) && j < |run| && AllDifferent(ids)
    requires forall e <- run[j].s.events :: e.TradeEvent? && e.kind.Closes() ==> e.tradeId in ids
    requires forall id <- ids :: SettledSince(registry, run, actions, j, id)
    ensures var s := run[j].s;
            var all := InPeriod(s.events, None, None, None);
            RecordedPnl(s, ids) == Total(all, NetOf) - Total(all, DailyFinancingOf) + Total(all, OpenCommissionOf)
  {
    EveryRunStaysGood(registry, run, actions, j);
    forall id | id in ids ensures SettledClose(registry, run[j].s, id) {
      var i: nat :| i <= j && SettledAndLeft(registry, run, actions, i, j, id);
      SettledStaysSettled(registry, run, actions, i, j, id);
    }
    RecordsReconcile(registry, run[j].log, run[j].s, ids);
  }
}
