/** How records come to agree with the event table, and that they go on agreeing. */
module JournalSettlement {
  import opened Basics
  import opened Transactions
  import opened TradeNormalizer
  import opened EventTable
  import opened TradeProjection
  import opened TradeStores
  import opened BrokerLog
  import opened TradeHistory
  import opened TradePollers
  import opened JournalRuns

  predicate Concerns(e: Event, trade: string) {
    e.TradeEvent? && e.tradeId == trade
  }

  /** Every event the log makes for the trade is in the table. */
  ghost predicate AllLegsIn(log: seq<Transaction>, docs: seq<Event>, trade: string) {
    forall e :: MadeBy(log, e) && Concerns(e, trade) ==> e in docs
  }

  // ---- Deliveries that leave a trade's legs alone --------------------------------------

  lemma SameIdSameTrade(log: seq<Transaction>, e: Event, f: Event, trade: string)
    requires MadeBy(log, e) && MadeBy(log, f) && e.id == f.id && Concerns(e, trade)
    ensures Concerns(f, trade)
  {
    SameIdSameSubject(log, e, f);
    assert f.Label() != "DAILY_FINANCING";
  }

  lemma UpsertOfAnotherTrade(log: seq<Transaction>, docs: seq<Event>, e: Event, trade: string, x: Event)
    requires DistinctIds(docs) && (forall d <- docs :: MadeBy(log, d)) && MadeBy(log, e)
    requires Concerns(e, trade) ==> e in docs
    ensures Concerns(x, trade) ==> (x in Upsert(docs, e) <==> x in docs)
  {
    var i := Position(docs, e.id);
    if Concerns(e, trade) {
      var k :| 0 <= k < |docs| && docs[k] == e;
      LookupFinds(docs, k);
      StoredEventIsQuiet(docs, e);
    } else if Concerns(x, trade) && i < |docs| {
      if x == docs[i] {
        SameIdSameTrade(log, x, e, trade);
      }
      if x in docs {
        var k :| 0 <= k < |docs| && docs[k] == x;
        assert Upsert(docs, e)[k] == x;
      }
    }
  }

  /** When each delivered event of a trade is stored already, the trade's events stay. */
  lemma {:induction false} QuietDelivery(log: seq<Transaction>, docs: seq<Event>, es: seq<Event>, trade: string)
    requires DistinctIds(docs) && (forall d <- docs :: MadeBy(log, d)) && (forall e <- es :: MadeBy(log, e))
    requires forall e <- es :: Concerns(e, trade) ==> e in docs
    ensures forall x :: Concerns(x, trade) ==> (x in UpsertAll(docs, es) <==> x in docs)
  {
    if es != [] {
      var n := |es| - 1;
      var before := UpsertAll(docs, es[..n]);
      QuietDelivery(log, docs, es[..n], trade);
      DeliveryStaysSound(log, docs, es[..n]);
      assert es[n] in es;
      forall x | Concerns(x, trade) ensures x in UpsertAll(docs, es) <==> x in docs {
        UpsertOfAnotherTrade(log, before, es[n], trade, x);
      }
    }
  }

  lemma SameEventsSameLegs(a: seq<Event>, b: seq<Event>, trade: string)
    requires DistinctIds(a) && DistinctIds(b) && forall x :: Concerns(x, trade) ==> (x in a <==> x in b)
    ensures LegsOf(a, trade) == LegsOf(b, trade)
  {
    var query := Query(None, None, None, Some(trade), {});
    ListingIsTheMatchesInOrder(a, query);
    ListingIsTheMatchesInOrder(b, query);
    forall x ensures x in LegsOf(a, trade) <==> x in LegsOf(b, trade) {
      assert query.Matches(x) <==> Concerns(x, trade);
    }
    OrderIsUnique(LegsOf(a, trade), LegsOf(b, trade));
  }

  // ---- Imports -------------------------------------------------------------------------

  lemma SameLegsStaySettled(registry: Registry, s: Journal, s': Journal, trade: string)
    requires Settled(registry, s, trade) && LeftOrProjected(registry, s, s', trade)
    requires LegsOf(s.events, trade) == LegsOf(s'.events, trade)
    ensures Settled(registry, s', trade)
  {
    if s'.Trade(trade) != s.Trade(trade) {
      ProjectionIsAFixedPoint(registry, s.Trade(trade), LegsOf(s.events, trade), trade);
    }
  }

  lemma ImportedLegs(registry: Registry, log: seq<Transaction>, s: Journal, s': Journal, txs: seq<Transaction>, done: bool, trade: string)
    requires Sound(log, s) && (forall tx <- txs :: tx in log) && Imported(registry, s, s', txs, done) && NormalizedAll(txs).Ok?
    requires AllLegsIn(log, s.events, trade) || trade !in TradeIds(NormalizedAll(txs).value)
    ensures LegsOf(s.events, trade) == LegsOf(s'.events, trade)
    ensures AllLegsIn(log, s.events, trade) ==> AllLegsIn(log, s'.events, trade)
  {
    var es := NormalizedAll(txs).value;
    var k :| 0 <= k <= |es| && s'.events == UpsertAll(s.events, es[..k]);
    forall e | e in es[..k] ensures MadeBy(log, e) && (Concerns(e, trade) ==> e in s.events) {
      assert e in es;
      BatchEventsAreMade(log, txs, e);
      assert Concerns(e, trade) ==> e.tradeId in TradeIds(es);
    }
    DeliveryStaysSound(log, s.events, es[..k]);
    QuietDelivery(log, s.events, es[..k], trade);
    SameEventsSameLegs(s.events, s'.events, trade);
  }

  /** A settled trade stays settled through every finished import, and through an interrupted
      one when it brings nothing new about the trade. */
  lemma ImportKeepsSettled(
    registry: Registry, log: seq<Transaction>, s: Journal, s': Journal, txs: seq<Transaction>, done: bool, trade: string)
    requires Sound(log, s) && (forall tx <- txs :: tx in log) && Imported(registry, s, s', txs, done)
    requires Settled(registry, s, trade) && (done || AllLegsIn(log, s.events, trade))
    ensures Settled(registry, s', trade)
    ensures AllLegsIn(log, s.events, trade) ==> AllLegsIn(log, s'.events, trade)
  {
    if NormalizedAll(txs).Ok? {
      if AllLegsIn(log, s.events, trade) || trade !in TradeIds(NormalizedAll(txs).value) {
        ImportedLegs(registry, log, s, s', txs, done, trade);
        SameLegsStaySettled(registry, s, s', trade);
      }
    }
  }

  ghost predicate Touches(tx: Transaction, trade: string) {
    exists e :: Makes(tx, e) && Concerns(e, trade)
  }

  lemma ClosingTouches(tx: Transaction, trade: string)
    requires Finishes(tx, trade)
    ensures Touches(tx, trade)
  {
    var e :| Makes(tx, e) && e.ClosesTrade(trade);
    assert Concerns(e, trade);
  }

  lemma TouchedIsInTheBatch(txs: seq<Transaction>, tx: Transaction, trade: string)
    requires tx in txs && Touches(tx, trade) && NormalizedAll(txs).Ok?
    ensures trade in TradeIds(NormalizedAll(txs).value)
  {
    var e :| Makes(tx, e) && Concerns(e, trade);
    BatchHolds(txs, tx, e);
    assert e.tradeId in TradeIds(NormalizedAll(txs).value);
  }

  /** A finished import settles every trade it brings an event of. */
  lemma ImportSettles(registry: Registry, s: Journal, s': Journal, txs: seq<Transaction>, tx: Transaction, trade: string)
    requires Imported(registry, s, s', txs, true) && tx in txs && Touches(tx, trade)
    ensures Settled(registry, s', trade)
  {
    TouchedIsInTheBatch(txs, tx, trade);
  }

  lemma {:induction false} ChunksKeepSettled(
    registry: Registry, log: seq<Transaction>, s: Journal, s': Journal, requests: seq<Request>, done: bool, trade: string)
    requires Sound(log, s) && KeyedById(s) && RequestedFrom(log, requests) && ImportedChunks(registry, requests, s, s', done)
    requires Settled(registry, s, trade) && (done || AllLegsIn(log, s.events, trade))
    ensures Settled(registry, s', trade)
    ensures AllLegsIn(log, s.events, trade) ==> AllLegsIn(log, s'.events, trade)
    decreases |requests|
  {
    if requests != [] {
      var n := |requests| - 1;
      var txs := requests[n].Answer();
      var m :| ImportedChunks(registry, requests[..n], s, m, true) && Imported(registry, m, s', txs, done);
      FirstRequests(log, requests);
      ChunksKeepSettled(registry, log, s, m, requests[..n], true, trade);
      ChunksExtend(registry, log, s, m, requests[..n], true);
      ImportKeepsSettled(registry, log, m, s', txs, done, trade);
    }
  }

  lemma {:induction false} ChunksSettle(
    registry: Registry, log: seq<Transaction>, s: Journal, s': Journal, requests: seq<Request>, tx: Transaction, trade: string)
    requires Sound(log, s) && KeyedById(s) && RequestedFrom(log, requests) && ImportedChunks(registry, requests, s, s', true)
    requires tx in Answers(requests) && Touches(tx, trade)
    ensures Settled(registry, s', trade)
    decreases |requests|
  {
    var n := |requests| - 1;
    var txs := requests[n].Answer();
    var m :| ImportedChunks(registry, requests[..n], s, m, true) && Imported(registry, m, s', txs, true);
    if tx in txs {
      ImportSettles(registry, m, s', txs, tx, trade);
    } else {
      FirstRequests(log, requests);
      ChunksSettle(registry, log, s, m, requests[..n], tx, trade);
      ChunksExtend(registry, log, s, m, requests[..n], true);
      ImportKeepsSettled(registry, log, m, s', txs, true, trade);
    }
  }

  // ---- Steps and runs ------------------------------------------------------------------

  /** The step is no import that was interrupted. */
  predicate Uninterrupted(action: Action) {
    match action
    case Sync(ok) => ok
    case Backfill(_, _, _, ok) => ok
    case _ => true
  }

  /** A record next to the CLOSE leg of its trade, and what the table makes of it. */
  ghost predicate SettledClose(registry: Registry, s: Journal, trade: string) {
    HasCloseLeg(s, trade) && trade in s.trades && Settled(registry, s, trade)
  }

  lemma SettledCloseIsClosed(registry: Registry, s: Journal, trade: string)
    requires DistinctIds(s.events) && SettledClose(registry, s, trade)
    ensures s.trades[trade].Closed()
  {
    CloseLegMeansFullyClosed(s, trade);
    SettledWithACloseLegIsClosed(registry, s, trade);
  }

  /** A step can only unsettle a closed trade when it is a poll that still lists it, or an
      interrupted import while events of the trade were missing. */
  ghost predicate Harmless(c: Config, action: Action, c': Config, trade: string) {
    !Lists(action, trade) && (Uninterrupted(action) || AllLegsIn(c'.log, c.s.events, trade))
  }

  /** Imports never delete a record. */
  lemma ImportsKeepRecords(registry: Registry, s: Journal, s': Journal, txs: seq<Transaction>, done: bool, trade: string)
    requires Imported(registry, s, s', txs, done) && trade in s.trades
    ensures trade in s'.trades
  {
    if NormalizedAll(txs).Ok? {
      assert LeftOrProjected(registry, s, s', trade);
    }
    assert s.Trade(trade).Some?;
  }

  lemma {:induction false} ChunksKeepRecords(
    registry: Registry, s: Journal, s': Journal, requests: seq<Request>, done: bool, trade: string)
    requires ImportedChunks(registry, requests, s, s', done) && trade in s.trades
    ensures trade in s'.trades
    decreases |requests|
  {
    if requests != [] {
      var n := |requests| - 1;
      var m :| ImportedChunks(registry, requests[..n], s, m, true) && Imported(registry, m, s', requests[n].Answer(), done);
      ChunksKeepRecords(registry, s, m, requests[..n], true, trade);
      ImportsKeepRecords(registry, m, s', requests[n].Answer(), done, trade);
    }
  }

  lemma SyncKeepsSettled(registry: Registry, c: Config, c': Config, ok: bool, trade: string)
    requires Good(c, false) && Next(registry, c, c', Sync(ok)) && Harmless(c, Sync(ok), c', trade)
    requires trade in c.s.trades && Settled(registry, c.s, trade)
    ensures trade in c'.s.trades && Settled(registry, c'.s, trade)
  {
    if c.s.watermark.Some? {
      var m, mark := c'.s.(watermark := c.s.watermark), c.s.watermark.value;
      var done :| (ok ==> done) && Imported(registry, c.s, m, Since(c.log, mark), done);
      SinceMembers(c.log, mark);
      ImportKeepsSettled(registry, c.log, c.s, m, Since(c.log, mark), done, trade);
      ImportsKeepRecords(registry, c.s, m, Since(c.log, mark), done, trade);
    }
  }

  lemma BackfillKeepsSettled(
    registry: Registry, log: seq<Transaction>, s: Journal, s': Journal, requests: seq<Request>, ok: bool, trade: string)
    requires Sound(log, s) && KeyedById(s) && RequestedFrom(log, requests) && Backfilled(registry, requests, s, s', ok)
    requires ok || AllLegsIn(log, s.events, trade)
    requires trade in s.trades && Settled(registry, s, trade)
    ensures trade in s'.trades && Settled(registry, s', trade)
  {
    var n, m, done :|
      0 <= n <= |requests| && (ok ==> done && n == |requests|) && ImportedChunks(registry, requests[..n], s, m, done) &&
      s' == m.(watermark := if ok then Advanced(s.watermark, LargestId(Answers(requests))) else s.watermark);
    ChunksKeepSettled(registry, log, s, m, requests[..n], done, trade);
    ChunksKeepRecords(registry, s, m, requests[..n], done, trade);
  }

  lemma StepKeepsSettled(registry: Registry, c: Config, c': Config, action: Action, trade: string)
    requires Good(c, false) && Next(registry, c, c', action) && Harmless(c, action, c', trade)
    requires SettledClose(registry, c.s, trade)
    ensures SettledClose(registry, c'.s, trade)
  {
    StepKeepsCloseLegs(registry, c, c', action, trade);
    match action
    case Grow =>
    case Sync(ok) => SyncKeepsSettled(registry, c, c', ok, trade);
    case Backfill(requests, _, _, ok) =>
      GrowthKeepsSound(c.log, c'.log, c.s);
      BackfillKeepsSettled(registry, c'.log, c.s, c'.s, requests, ok, trade);
    case Poll(view, now, done) =>
      SettledCloseIsClosed(registry, c.s, trade);
      PollReopensIff(registry, view, now, c.s, c'.s, done, trade);
  }

  lemma StepOfRunKeepsSettled(registry: Registry, run: seq<Config>, actions: seq<Action>, i: nat, trade: string)
    requires IsRun(registry, run, actions) && i < |actions| && Harmless(run[i], actions[i], run[i + 1], trade)
    requires SettledClose(registry, run[i].s, trade)
    ensures SettledClose(registry, run[i + 1].s, trade)
  {
    EveryRunStaysGood(registry, run, actions, i);
    assert StepAt(registry, run, actions, i);
    StepKeepsSettled(registry, run[i], run[i + 1], actions[i], trade);
  }

  /** Once its record agrees with the table, a closed trade stays that way in every run, as
      long as no step can unsettle it. */
  lemma SettledStaysSettled(
    registry: Registry, run: seq<Config>, actions: seq<Action>, i: nat, j: nat, trade: string)
    requires IsRun(registry, run, actions) && i <= j < |run| && SettledClose(registry, run[i].s, trade)
    requires forall k: nat :: i <= k < j ==> Harmless(run[k], actions[k], run[k + 1], trade)
    ensures SettledClose(registry, run[j].s, trade)
  {
    var holds := SettledAlong(registry, run, trade);
    forall k: nat | i <= k < j ensures PassesOn(holds, k) {
      if holds[k] {
        StepOfRunKeepsSettled(registry, run, actions, k, trade);
      }
    }
    Persists(holds, i, j);
  }

  ghost function SettledAlong(registry: Registry, run: seq<Config>, trade: string): (holds: seq<bool>)
    ensures |holds| == |run| && forall k :: 0 <= k < |run| ==> holds[k] == SettledClose(registry, run[k].s, trade)
  {
    seq(|run|, k requires 0 <= k < |run| => SettledClose(registry, run[k].s, trade))
  }

  /** The transactions a finished import step takes. */
  function TakenBy(c: Config, action: Action): seq<Transaction> {
    match action
    case Sync(ok) => if ok && c.s.watermark.Some? then Since(c.log, c.s.watermark.value) else []
    case Backfill(requests, _, _, ok) => if ok then Answers(requests) else []
    case _ => []
  }

  /** The step that takes a trade's CLOSE leg settles the trade, if it has a record then. */
  lemma FinishedImportSettles(registry: Registry, run: seq<Config>, actions: seq<Action>, i: nat, tx: Transaction, trade: string)
    requires IsRun(registry, run, actions) && i < |actions|
    requires tx in TakenBy(run[i], actions[i]) && Finishes(tx, trade) && trade in run[i + 1].s.trades
    ensures SettledClose(registry, run[i + 1].s, trade)
  {
    ClosingTouches(tx, trade);
    EveryRunStaysGood(registry, run, actions, i);
    assert StepAt(registry, run, actions, i);
    StepSettles(registry, run[i], run[i + 1], actions[i], tx, trade);
    StepTakes(registry, run[i], run[i + 1], actions[i], tx);
    EveryRunStaysGood(registry, run, actions, i + 1);
    CoveredCloseIsInTheTable(run[i + 1].log, run[i + 1].s, tx, trade);
  }

  lemma StepTakes(registry: Registry, c: Config, c': Config, action: Action, tx: Transaction)
    requires Good(c, false) && Next(registry, c, c', action) && tx in TakenBy(c, action)
    ensures tx in c'.log && Covered(c'.s, tx)
  {
    match action
    case Sync(_) =>
      var txs := Since(c.log, c.s.watermark.value);
      SinceMembers(c.log, c.s.watermark.value);
      ImportTakes(registry, c.log, c.s, c'.s.(watermark := c.s.watermark), txs, tx);
    case Backfill(requests, _, _, _) =>
      GrowthKeepsSound(c.log, c'.log, c.s);
      BackfillExtends(registry, c'.log, c.s, c'.s, requests, true);
      AnswersStayInTheLog(c'.log, requests);
      assert Taken(c'.s, tx, true);
  }

  lemma StepSettles(registry: Registry, c: Config, c': Config, action: Action, tx: Transaction, trade: string)
    requires Good(c, false) && Next(registry, c, c', action) && tx in TakenBy(c, action) && Touches(tx, trade)
    ensures Settled(registry, c'.s, trade)
  {
    match action
    case Sync(_) => SyncSettles(registry, c.log, c.s, c'.s, tx, trade);
    case Backfill(requests, _, _, _) =>
      GrowthKeepsSound(c.log, c'.log, c.s);
      BackfillSettles(registry, c'.log, c.s, c'.s, requests, tx, trade);
  }

  lemma SyncSettles(registry: Registry, log: seq<Transaction>, s: Journal, s': Journal, tx: Transaction, trade: string)
    requires s.watermark.Some? && Synced(registry, log, s, s', true)
    requires tx in Since(log, s.watermark.value) && Touches(tx, trade)
    ensures Settled(registry, s', trade)
  {
    ImportSettles(registry, s, s'.(watermark := s.watermark), Since(log, s.watermark.value), tx, trade);
  }

  lemma BackfillSettles(
    registry: Registry, log: seq<Transaction>, s: Journal, s': Journal, requests: seq<Request>, tx: Transaction, trade: string)
    requires Sound(log, s) && KeyedById(s) && RequestedFrom(log, requests) && Backfilled(registry, requests, s, s', true)
    requires tx in Answers(requests) && Touches(tx, trade)
    ensures Settled(registry, s', trade)
  {
    var m := FinishedBackfill(registry, requests, s, s');
    ChunksSettle(registry, log, s, m, requests, tx, trade);
  }
}
