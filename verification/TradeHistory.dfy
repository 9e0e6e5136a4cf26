/** The trade-history service: importing batches, incremental sync and backfill. */
module TradeHistory {
  import opened Basics
  import opened IdOrder
  import opened Transactions
  import opened TradeNormalizer
  import opened EventTable
  import opened CloseReasons
  import opened TradeProjection
  import opened TradeStores
  import opened BrokerLog

  type Registry = map<string, real>

  /** A record is where projection leaves it, given the events in the table. */
  ghost predicate Settled(registry: Registry, s: Journal, trade: string) {
    match Project(registry, s.Trade(trade), LegsOf(s.events, trade), trade)
    case Skip => true
    case Write(record) => s.Trade(trade) == Some(record)
    case Invalid => false
  }

  /** The record was left alone or overwritten by its projection. */
  ghost predicate LeftOrProjected(registry: Registry, s: Journal, s': Journal, trade: string) {
    s'.Trade(trade) == s.Trade(trade) ||
    (s'.Trade(trade).Some? &&
     Project(registry, s.Trade(trade), LegsOf(s'.events, trade), trade) == Write(s'.Trade(trade).value))
  }

  /** A CLOSED record that requests MANUAL while its final closing leg carries market-if-touched
      evidence. */
  predicate Repairable(s: Journal, trade: string) {
    s.Trade(trade).Some? && ReadsMit(s.trades[trade], LegsOf(s.events, trade))
  }

  predicate ReadsMit(record: TradeRecord, legs: seq<Event>)
    requires forall e <- legs :: e.TradeEvent?
  {
    record.Closed() && record.closing.value.reason == Manual && ClosingLegs(legs) != [] &&
    FinalReason(record, ClosingLegs(legs)[|ClosingLegs(legs)| - 1], record.closing.value.price) == Mit
  }

  function TradeIds(es: seq<Event>): (ids: set<string>) {
    set e | e in es && e.TradeEvent? :: e.tradeId
  }

  datatype Step = Changed | Unchanged | Raised

  /** What importing a batch does to the journal, finished or interrupted at any write. */
  ghost predicate Imported(registry: Registry, s: Journal, s': Journal, txs: seq<Transaction>, done: bool) {
    s'.watermark == s.watermark &&
    (exists j :: 0 <= j <= |txs| && s'.raw == PutAllRaw(s.raw, txs[..j])) &&
    (done ==> s'.raw == PutAllRaw(s.raw, txs)) &&
    match NormalizedAll(txs)
    case Rejected => !done && s'.events == s.events && s'.trades == s.trades
    case Ok(es) =>
      (exists k :: 0 <= k <= |es| && s'.events == UpsertAll(s.events, es[..k])) &&
      (s'.trades != s.trades ==> s'.events == UpsertAll(s.events, es)) &&
      (forall trade :: LeftOrProjected(registry, s, s', trade)) &&
      (forall trade :: trade !in TradeIds(es) ==>
         s'.Trade(trade) == s.Trade(trade) || Repairable(s.(events := s'.events), trade)) &&
      (done ==> s'.events == UpsertAll(s.events, es) &&
                (forall trade :: trade in TradeIds(es) ==> Settled(registry, s', trade)) &&
                (forall trade :: !Repairable(s', trade)))
  }

  /** An incremental sync, finished or interrupted. */
  ghost predicate Synced(registry: Registry, log: seq<Transaction>, s: Journal, s': Journal, ok: bool) {
    match s.watermark
    case None => if ok then log != [] && s' == s.(watermark := Some(LastId(log))) else s' == s
    case Some(mark) =>
      (exists done :: (ok ==> done) && Imported(registry, s, s'.(watermark := s.watermark), Since(log, mark), done)) &&
      s'.watermark == if ok then Some(LastId(log)) else s.watermark
  }

  /** One import after another, each but the last finished, each of its own request's answer. */
  ghost predicate ImportedChunks(registry: Registry, requests: seq<Request>, s: Journal, s': Journal, done: bool)
    decreases |requests|
  {
    if requests == [] then s' == s && done
    else
      var n := |requests| - 1;
      exists m :: ImportedChunks(registry, requests[..n], s, m, true) && Imported(registry, m, s', requests[n].Answer(), done)
  }

  /** Where a backfill that saw the given largest id leaves the watermark. */
  function Advanced(watermark: Option<nat>, largest: Option<nat>): Option<nat> {
    if largest.None? || (watermark.Some? && largest.value <= watermark.value) then watermark else largest
  }

  /** The requests of a backfill: one for each chunk of the window, while the log grows. */
  ghost predicate RequestsFor(requests: seq<Request>, start: int, end: int) {
    var chunks := Chunks(start, end, CHUNK);
    |requests| == |chunks| &&
    (forall i :: 0 <= i < |requests| ==> (requests[i].start, requests[i].end) == chunks[i] && WellFormed(requests[i].log)) &&
    (forall i, j :: 0 <= i < j < |requests| ==> requests[i].log <= requests[j].log)
  }

  /** A backfill that made these requests, finished or interrupted. */
  ghost predicate Backfilled(registry: Registry, requests: seq<Request>, s: Journal, s': Journal, ok: bool) {
    exists n, m, done ::
      0 <= n <= |requests| && (ok ==> done && n == |requests|) && ImportedChunks(registry, requests[..n], s, m, done) &&
      s' == m.(watermark := if ok then Advanced(s.watermark, LargestId(Answers(requests))) else s.watermark)
  }

  lemma BackfillEnds(registry: Registry, requests: seq<Request>, s: Journal, m: Journal, s': Journal, n: nat, done: bool, ok: bool)
    requires n <= |requests| && (ok ==> done && n == |requests|) && ImportedChunks(registry, requests[..n], s, m, done)
    requires s' == m.(watermark := if ok then Advanced(s.watermark, LargestId(Answers(requests))) else s.watermark)
    ensures Backfilled(registry, requests, s, s', ok)
  {
  }

  /** A finished backfill got through all its chunks, and then moved the watermark. */
  lemma FinishedBackfill(registry: Registry, requests: seq<Request>, s: Journal, s': Journal) returns (m: Journal)
    requires Backfilled(registry, requests, s, s', true)
    ensures ImportedChunks(registry, requests, s, m, true)
    ensures s' == m.(watermark := Advanced(s.watermark, LargestId(Answers(requests))))
  {
    var n, done;
    n, m, done :|
      0 <= n <= |requests| && done && n == |requests| && ImportedChunks(registry, requests[..n], s, m, done) &&
      s' == m.(watermark := Advanced(s.watermark, LargestId(Answers(requests))));
    assert requests[..n] == requests;
  }

  lemma ProjectionSettles(registry: Registry, s: Journal, s': Journal, trade: string)
    requires s'.events == s.events
    requires var p := Project(registry, s.Trade(trade), LegsOf(s.events, trade), trade);
             p.Write? && s'.Trade(trade) == Some(p.record)
    ensures Settled(registry, s', trade)
  {
    ProjectionIsAFixedPoint(registry, s.Trade(trade), LegsOf(s.events, trade), trade);
  }

  /** Once projected, a record that read as market-if-touched can no longer read MANUAL. */
  lemma ProjectionRepairs(registry: Registry, s: Journal, s': Journal, trade: string)
    requires s'.events == s.events && Repairable(s, trade)
    requires var p := Project(registry, s.Trade(trade), LegsOf(s.events, trade), trade);
             p.Write? && s'.Trade(trade) == Some(p.record)
    ensures !Repairable(s', trade)
  {
    ProjectedRecordReadsNoMit(registry, s.trades[trade], LegsOf(s.events, trade), trade);
  }

  lemma ProjectedRecordReadsNoMit(registry: Registry, record: TradeRecord, legs: seq<Event>, trade: string)
    requires (forall e <- legs :: e.TradeEvent?) && ReadsMit(record, legs)
    requires Project(registry, Some(record), legs, trade).Write?
    ensures !ReadsMit(Project(registry, Some(record), legs, trade).record, legs)
  {
    var after := Project(registry, Some(record), legs, trade).record;
    if after.Closed() {
      var last := ClosingLegs(legs)[|ClosingLegs(legs)| - 1];
      MitEvidenceNeverReadsManual(record.closing.value.price, record.slPrice, record.tpPrice,
                                  after.closing.value.price, after.slPrice, after.tpPrice, last.reason, [Encoded(last.raw)]);
    }
  }

  /** The record of a settled trade is CLOSED as soon as its CLOSE leg is in the table. */
  lemma SettledWithACloseLegIsClosed(registry: Registry, s: Journal, trade: string)
    requires Settled(registry, s, trade) && FullyClosed(LegsOf(s.events, trade)) && s.Trade(trade).Some?
    ensures s.trades[trade].Closed()
  {
    ClosedLegsProject(registry, s.trades[trade], LegsOf(s.events, trade), trade);
  }

  lemma ClosedLegsProject(registry: Registry, record: TradeRecord, legs: seq<Event>, trade: string)
    requires (forall e <- legs :: e.TradeEvent?) && FullyClosed(legs)
    ensures var p := Project(registry, Some(record), legs, trade); !p.Skip? && (p.Write? ==> p.record.Closed())
  {
  }

  /** The projected record would not pass validation. */
  ghost predicate CannotProject(registry: Registry, s: Journal, trade: string) {
    Project(registry, s.Trade(trade), LegsOf(s.events, trade), trade).Invalid?
  }

  /** One projection step: the journal changed at most in this trade's record. */
  ghost predicate ProjectedOne(registry: Registry, s: Journal, s': Journal, trade: string, step: Step) {
    match Project(registry, s.Trade(trade), LegsOf(s.events, trade), trade)
    case Skip => step == Unchanged && s' == s
    case Invalid => step == Raised && s' == s
    case Write(record) =>
      if step == Raised then s' == s
      else step == Changed && s' == s.(trades := s.trades[trade := record])
  }

  /** The trades in `done` were projected and are settled; the others are untouched. */
  ghost predicate ProjectedAll(registry: Registry, s: Journal, s': Journal, done: set<string>) {
    s' == s.(trades := s'.trades) &&
    (forall trade :: trade !in done ==> s'.Trade(trade) == s.Trade(trade)) &&
    (forall trade :: trade in done ==> LeftOrProjected(registry, s, s', trade) && Settled(registry, s', trade))
  }

  lemma ProjectOneMore(registry: Registry, s: Journal, s': Journal, s'': Journal, done: set<string>, trade: string, step: Step)
    requires ProjectedAll(registry, s, s', done) && trade !in done
    requires ProjectedOne(registry, s', s'', trade, step) && step != Raised
    ensures ProjectedAll(registry, s, s'', done + {trade})
  {
    forall other | other != trade ensures s''.Trade(other) == s'.Trade(other) {
    }
    forall other | other in done
      ensures LeftOrProjected(registry, s, s'', other) && Settled(registry, s'', other)
    {
      SameRecordSameVerdict(registry, s, s', s'', other);
    }
    NewlySettled(registry, s', s'', trade, step);
    assert s'.Trade(trade) == s.Trade(trade);
  }

  lemma SameRecordSameVerdict(registry: Registry, s: Journal, s': Journal, s'': Journal, trade: string)
    requires s''.events == s'.events && s''.Trade(trade) == s'.Trade(trade)
    requires LeftOrProjected(registry, s, s', trade) && Settled(registry, s', trade)
    ensures LeftOrProjected(registry, s, s'', trade) && Settled(registry, s'', trade)
  {
  }

  lemma NewlySettled(registry: Registry, s: Journal, s': Journal, trade: string, step: Step)
    requires ProjectedOne(registry, s, s', trade, step) && step != Raised
    ensures LeftOrProjected(registry, s, s', trade) && Settled(registry, s', trade)
  {
    if step.Changed? {
      ProjectionSettles(registry, s, s', trade);
    }
  }

  /** The trades in `fixed` were repaired by projection; the others are untouched. */
  ghost predicate RepairedAll(registry: Registry, s: Journal, s': Journal, fixed: set<string>) {
    s' == s.(trades := s'.trades) &&
    (forall trade :: trade !in fixed ==> s'.Trade(trade) == s.Trade(trade)) &&
    (forall trade :: trade in fixed ==> LeftOrProjected(registry, s, s', trade) && Repairable(s, trade) && !Repairable(s', trade))
  }

  function ClosedTrades(s: Journal): set<string> {
    set trade | trade in s.trades && s.trades[trade].Closed()
  }

  /** Between two steps of a repair pass: only trades still to do can have been missed. */
  ghost predicate RepairProgress(registry: Registry, s: Journal, s': Journal, todo: set<string>, fixed: set<string>) {
    fixed !! todo && RepairedAll(registry, s, s', fixed) &&
    forall trade :: trade !in todo && trade !in fixed ==> !Repairable(s, trade)
  }

  lemma PassOverOne(registry: Registry, s: Journal, s': Journal, todo: set<string>, fixed: set<string>, trade: string)
    requires RepairProgress(registry, s, s', todo, fixed) && trade in todo
    ensures !Repairable(s', trade) ==> RepairProgress(registry, s, s', todo - {trade}, fixed)
  {
    assert s'.Trade(trade) == s.Trade(trade);
  }

  lemma RepairOneMore(
    registry: Registry, s: Journal, s': Journal, s'': Journal, todo: set<string>, fixed: set<string>, trade: string, step: Step)
    requires RepairProgress(registry, s, s', todo, fixed) && trade in todo && Repairable(s', trade)
    requires ProjectedOne(registry, s', s'', trade, step) && step != Raised
    ensures RepairProgress(registry, s, s'', todo - {trade}, fixed + {trade})
  {
    RepairableProjects(registry, s', trade);
    forall other | other != trade ensures s''.Trade(other) == s'.Trade(other) {
    }
    forall other | other in fixed
      ensures LeftOrProjected(registry, s, s'', other) && !Repairable(s'', other)
    {
      assert s''.Trade(other) == s'.Trade(other);
    }
    ProjectionRepairs(registry, s', s'', trade);
    NewlySettled(registry, s', s'', trade, step);
    assert s'.Trade(trade) == s.Trade(trade);
  }

  lemma RepairableProjects(registry: Registry, s: Journal, trade: string)
    requires Repairable(s, trade)
    ensures !Project(registry, s.Trade(trade), LegsOf(s.events, trade), trade).Skip?
  {
  }

  class TradeHistoryService {
    const store: TradeStore
    const registry: Registry

    constructor (store: TradeStore, registry: Registry)
      ensures this.store == store && this.registry == registry
    {
      this.store, this.registry := store, registry;
    }

    method ProjectTradeRecord(trade: string) returns (step: Step)
      modifies store
      ensures ProjectedOne(registry, old(store.State()), store.State(), trade, step)
      ensures step == Raised ==> store.writesLeft == 0 || CannotProject(registry, store.State(), trade)
    {
      var legs := ListRecords(store.events, Query(None, None, None, Some(trade), {}), false);
      assert legs == LegsOf(store.events, trade);
      var projection := PlanRecord(store.State().Trade(trade), legs, trade);
      match projection {
        case Skip => step := Unchanged;
        case Invalid => step := Raised;
        case Write(record) =>
          ProjectedStateFollowsTheLegs(registry, store.State().Trade(trade), legs, trade);
          var ok := store.UpsertTrade(record);
          step := if ok then Changed else Raised;
      }
    }

    /** The record a trade's legs make of the stored one. */
    method PlanRecord(existing: Option<TradeRecord>, legs: seq<Event>, trade: string) returns (projection: Projection)
      requires forall e <- legs :: e.TradeEvent?
      ensures projection == Project(registry, existing, legs, trade)
    {
      var base := Base(existing, legs, trade);
      if legs == [] || base.None? {
        return Skip;
      }
      var record := base.value;
      var closing := ClosingLegs(legs);
      var closed := exists e <- closing :: e.kind.Close?;
      assert closed == FullyClosed(legs) by {
        assert forall e <- legs :: e.kind.Close? ==> e in closing;
      }
      if closed {
        var last := closing[|closing| - 1];
        var price := ClosePrice(last, record.openPrice);
        var pnl := SumNet(closing);
        var pips := ComputeWeightedClosePips(closing, record.openPrice, record.units > 0.0, PipSize(registry, record.instrument));
        if pips.None? {
          return Invalid;
        }
        record := record.(closing := Some(Closing(price, FinalReason(record, last, price), pips.value, pnl, last.time)));
      }
      projection := Checked(record);
    }

    method SumNet(legs: seq<Event>) returns (pnl: real)
      requires forall e <- legs :: e.TradeEvent?
      ensures pnl == NetSum(legs)
    {
      pnl := 0.0;
      for i := 0 to |legs|
        invariant pnl == NetSum(legs[..i])
      {
        assert legs[..i + 1][..i] == legs[..i];
        pnl := pnl + legs[i].netRealizedPL;
      }
      assert legs[..|legs|] == legs;
    }

    /** Projects every named trade, in any order. */
    method ProjectTradeRecords(ids: set<string>) returns (ok: bool, projected: nat)
      modifies store
      ensures exists done :: done <= ids && (ok ==> done == ids) && ProjectedAll(registry, old(store.State()), store.State(), done)
      ensures !ok ==> store.writesLeft == 0 || exists trade :: CannotProject(registry, store.State(), trade)
      ensures projected <= |ids|
    {
      ghost var done;
      ok, projected, done := ProjectEach(ids);
    }

    method ProjectEach(ids: set<string>) returns (ok: bool, projected: nat, ghost done: set<string>)
      modifies store
      ensures done <= ids && (ok ==> done == ids) && projected <= |ids|
      ensures ProjectedAll(registry, old(store.State()), store.State(), done)
      ensures !ok ==> store.writesLeft == 0 || exists trade :: CannotProject(registry, store.State(), trade)
    {
      ghost var s := store.State();
      var todo := ids;
      ok, projected, done := true, 0, {};
      while todo != {}
        invariant ids == todo + done && todo !! done && projected <= |done|
        invariant ProjectedAll(registry, s, store.State(), done)
        decreases todo
      {
        var trade :| trade in todo;
        ghost var before := store.State();
        var step := ProjectTradeRecord(trade);
        if step.Raised? {
          ok := false;
          return;
        }
        ProjectOneMore(registry, s, before, store.State(), done, trade, step);
        projected := if step.Changed? then projected + 1 else projected;
        todo, done := todo - {trade}, done + {trade};
      }
    }

    /** Reprojects every CLOSED trade whose close requests MANUAL against market-if-touched evidence. */
    method RepairManualMitCloses() returns (ok: bool, repaired: nat)
      modifies store
      ensures exists fixed :: RepairedAll(registry, old(store.State()), store.State(), fixed) &&
                              (ok ==> repaired == |fixed| && fixed == RepairableTrades(old(store.State())))
      ensures ok ==> forall trade :: !Repairable(store.State(), trade)
      ensures !ok ==> store.writesLeft == 0 || exists trade :: CannotProject(registry, store.State(), trade)
    {
      ok, repaired := true, 0;
      ghost var s := store.State();
      var todo := ClosedTrades(store.State());
      ghost var fixed: set<string> := {};
      while todo != {}
        invariant repaired == |fixed| && RepairProgress(registry, s, store.State(), todo, fixed)
        decreases todo
      {
        var trade :| trade in todo;
        ghost var before := store.State();
        PassOverOne(registry, s, before, todo, fixed, trade);
        if Repairable(store.State(), trade) {
          var step := ProjectTradeRecord(trade);
          if step.Raised? {
            ok := false;
            return;
          }
          RepairOneMore(registry, s, before, store.State(), todo, fixed, trade, step);
          repaired, fixed := repaired + 1, fixed + {trade};
        }
        todo := todo - {trade};
      }
      NothingLeftToRepair(registry, s, store.State(), fixed);
    }

    /** The part sync and backfill share: raw rows, events, records, repairs. */
    method ImportBatch(txs: seq<Transaction>) returns (ok: bool)
      modifies store
      ensures Imported(registry, old(store.State()), store.State(), txs, ok)
      ensures !ok ==> store.writesLeft == 0 || NormalizedAll(txs).Rejected? ||
                      exists trade :: CannotProject(registry, store.State(), trade)
    {
      ghost var s := store.State();
      var rawOk, _, _, _ := store.UpsertRawTransactions(txs);
      ghost var s0 := store.State();
      assert txs[..|txs|] == txs;
      NothingImportedYet(registry, s, s0, txs);
      if !rawOk {
        return false;
      }
      var normalized := NormalizeTransactions(txs);
      if normalized.Rejected? {
        return false;
      }
      var es := normalized.value;
      var eventsOk, _, _, _ := store.UpsertTradeHistoryEvents(es);
      ghost var s1 := store.State();
      if !eventsOk {
        EventsInterrupted(registry, s, s1, txs);
        return false;
      }
      var projectedOk, _ := ProjectTradeRecords(TradeIds(es));
      ghost var s2 := store.State();
      ghost var done :| done <= TradeIds(es) && (projectedOk ==> done == TradeIds(es)) && ProjectedAll(registry, s1, s2, done);
      assert RepairedAll(registry, s2, s2, {});
      RecordsWritten(registry, s, s1, s2, s2, txs, done, {});
      if !projectedOk {
        return false;
      }
      var repaired;
      ok, repaired := RepairManualMitCloses();
      ghost var fixed :| RepairedAll(registry, s2, store.State(), fixed);
      RecordsWritten(registry, s, s1, s2, store.State(), txs, done, fixed);
    }

    /** Imports everything past the watermark, and only then moves the watermark. */
    method IncrementalSync(log: seq<Transaction>) returns (ok: bool)
      modifies store
      ensures Synced(registry, log, old(store.State()), store.State(), ok)
      ensures !ok ==> store.writesLeft == 0 || log == [] || (exists trade :: CannotProject(registry, store.State(), trade)) ||
                      (old(store.watermark).Some? && NormalizedAll(Since(log, old(store.watermark).value)).Rejected?)
    {
      if store.watermark.None? {
        if log == [] {
          return false;
        }
        ok := store.UpsertSyncState(LastId(log));
        return;
      }
      ghost var s := store.State();
      var mark := LastId(log);
      ok := ImportBatch(Since(log, store.watermark.value));
      ghost var m, imported := store.State(), ok;
      if ok {
        ok := store.UpsertSyncState(mark);
      } else if trade :| CannotProject(registry, m, trade) {
        assert CannotProject(registry, store.State(), trade);
      }
      assert store.State().(watermark := s.watermark) == m;
      assert Imported(registry, s, store.State().(watermark := s.watermark), Since(log, s.watermark.value), imported);
    }

    /** Imports a time window chunk by chunk, and then moves the watermark up to the largest
        id it saw.  `logs` is the broker's log at each of the requests. */
    method BackfillHistory(logs: seq<seq<Transaction>>, start: int, end: int, closedEnd: bool) returns (ok: bool)
      requires |logs| == |Chunks(start, end, CHUNK)| && (forall log <- logs :: WellFormed(log))
      requires store.watermark.Some? ==> store.watermark.value < Pow10(KEY_WIDTH)
      modifies store
      ensures Backfilled(registry, RequestsOf(logs, start, end, closedEnd), old(store.State()), store.State(), ok)
    {
      ghost var s := store.State();
      var chunks := SplitUtcWindow(start, end, CHUNK);
      var largest;
      ghost var n, done;
      ok, largest, n, done := ImportChunks(logs, chunks, closedEnd);
      ghost var requests := RequestsOf(logs, start, end, closedEnd);
      if !ok {
        BackfillEnds(registry, requests, s, store.State(), store.State(), n, done, false);
        return;
      }
      ghost var m := store.State();
      assert requests[..n] == requests;
      ok := AdvanceSyncState(largest);
      BackfillEnds(registry, requests, s, m, store.State(), n, true, ok);
    }

    /** Raises the watermark to an id, unless it is there already. */
    method AdvanceSyncState(largest: Option<nat>) returns (ok: bool)
      requires store.watermark.Some? ==> store.watermark.value < Pow10(KEY_WIDTH)
      requires largest.Some? ==> largest.value < Pow10(KEY_WIDTH)
      modifies store
      ensures store.State() ==
              old(store.State()).(watermark := if ok then Advanced(old(store.watermark), largest) else old(store.watermark))
      ensures !ok ==> store.writesLeft == 0
    {
      if largest.Some? && store.watermark.Some? {
        KeysCompareIds(store.watermark.value, largest.value);
      }
      ok := true;
      if largest.Some? && (store.watermark.None? || KeyLess(store.watermark.value, largest.value)) {
        ok := store.UpsertSyncState(largest.value);
      }
    }

    /** Requests and imports the chunks in turn, up to the first that fails, and finds the
        largest id. */
    method ImportChunks(logs: seq<seq<Transaction>>, chunks: seq<(int, int)>, closedEnd: bool)
      returns (ok: bool, largest: Option<nat>, ghost n: nat, ghost done: bool)
      requires |logs| == |chunks| && forall log <- logs :: WellFormed(log)
      modifies store
      ensures store.watermark == old(store.watermark)
      ensures n <= |chunks| &&
              ImportedChunks(registry, RequestChunks(logs, chunks, closedEnd)[..n], old(store.State()), store.State(), done)
      ensures ok ==> done && n == |chunks| && largest == LargestId(Answers(RequestChunks(logs, chunks, closedEnd)))
      ensures ok && largest.Some? ==> largest.value < Pow10(KEY_WIDTH)
    {
      ghost var s, requests := store.State(), RequestChunks(logs, chunks, closedEnd);
      largest, ok, n, done := None, true, 0, true;
      for i := 0 to |chunks|
        invariant ImportedChunks(registry, requests[..i], s, store.State(), true) && store.watermark == s.watermark
        invariant SawLargest(requests[..i], largest)
      {
        ghost var m := store.State();
        IdsFitTheirKeys(logs[i], chunks[i].0, chunks[i].1, closedEnd);
        SawOneMore(requests, i, largest);
        ok, largest := ImportChunk(Window(logs[i], chunks[i].0, chunks[i].1, closedEnd), largest);
        ImportedOneMoreChunk(registry, requests, s, m, store.State(), i, ok);
        if !ok {
          n, done := i + 1, false;
          return;
        }
      }
      assert requests[..|chunks|] == requests;
      ok, n, done := true, |chunks|, true;
    }

    /** One chunk: its largest id is looked at before it is imported. */
    method ImportChunk(txs: seq<Transaction>, before: Option<nat>) returns (ok: bool, largest: Option<nat>)
      requires forall tx <- txs :: tx.id < Pow10(KEY_WIDTH)
      modifies store
      ensures Imported(registry, old(store.State()), store.State(), txs, ok)
      ensures var chunkLargest := LargestId(txs);
              largest == LargerKey(before, chunkLargest) && (chunkLargest.Some? ==> chunkLargest.value < Pow10(KEY_WIDTH))
    {
      var chunkLargest := LargestTransactionId(txs);
      largest := before;
      if chunkLargest.Some? && (largest.None? || KeyLess(largest.value, chunkLargest.value)) {
        largest := chunkLargest;
      }
      ok := ImportBatch(txs);
    }
  }

  // ---- Windows and chunks --------------------------------------------------------------

  /** Thirty days, in seconds. */
  const CHUNK: int := 30 * 24 * 60 * 60

  /** The chunks of a half-open window: each of the given size, the last one cut off. */
  function Chunks(start: int, end: int, size: int): (chunks: seq<(int, int)>)
    requires size > 0
    decreases end - start
  {
    if start >= end then []
    else [(start, Min(start + size, end))] + Chunks(Min(start + size, end), end, size)
  }

  method SplitUtcWindow(start: int, end: int, size: int) returns (chunks: seq<(int, int)>)
    requires size > 0
    ensures chunks == Chunks(start, end, size)
  {
    chunks := [];
    var cursor := start;
    while cursor < end
      invariant chunks + Chunks(cursor, end, size) == Chunks(start, end, size)
    {
      var next := Min(cursor + size, end);
      chunks := chunks + [(cursor, next)];
      cursor := next;
    }
  }

  /** The chunks are nonempty, no longer than the size, and tile the window without gap or overlap. */
  lemma {:induction false} ChunksTileTheWindow(start: int, end: int, size: int)
    requires size > 0 && start < end
    ensures Tiles(Chunks(start, end, size), start, end, size)
    decreases end - start
  {
    var next := Min(start + size, end);
    var rest := Chunks(next, end, size);
    assert Chunks(start, end, size) == [(start, next)] + rest;
    if next < end {
      ChunksTileTheWindow(next, end, size);
    }
  }

  ghost predicate Tiles(chunks: seq<(int, int)>, start: int, end: int, size: int) {
    chunks != [] && chunks[0].0 == start && chunks[|chunks| - 1].1 == end &&
    (forall i :: 0 <= i < |chunks| ==> 0 < chunks[i].1 - chunks[i].0 <= size) &&
    (forall i :: 0 <= i < |chunks| - 1 ==> chunks[i].1 - chunks[i].0 == size) &&
    (forall i :: 0 < i < |chunks| ==> chunks[i].0 == chunks[i - 1].1)
  }

  function RequestChunks(logs: seq<seq<Transaction>>, chunks: seq<(int, int)>, closedEnd: bool): (requests: seq<Request>)
    requires |logs| == |chunks|
    ensures |requests| == |chunks|
  {
    seq(|chunks|, i requires 0 <= i < |chunks| => Request(logs[i], chunks[i].0, chunks[i].1, closedEnd))
  }

  function RequestsOf(logs: seq<seq<Transaction>>, start: int, end: int, closedEnd: bool): seq<Request>
    requires |logs| == |Chunks(start, end, CHUNK)|
  {
    RequestChunks(logs, Chunks(start, end, CHUNK), closedEnd)
  }

  /** The same log answers all requests. */
  function RequestAll(log: seq<Transaction>, chunks: seq<(int, int)>, closedEnd: bool): (requests: seq<Request>) {
    RequestChunks(seq(|chunks|, _ => log), chunks, closedEnd)
  }

  /** On a log that does not grow, fetching chunk by chunk delivers what one request for the
      whole window delivers, when the end of a window is outside. */
  lemma {:induction false} ChunksMakeOneWindow(log: seq<Transaction>, start: int, end: int, size: int)
    requires WellFormed(log) && size > 0
    ensures Answers(RequestAll(log, Chunks(start, end, size), false)) == Window(log, start, end, false)
    decreases end - start
  {
    if start < end {
      var next := Min(start + size, end);
      ChunksMakeOneWindow(log, next, end, size);
      FirstAndRest(log, start, next, Chunks(next, end, size));
      OpenWindowsJoin(log, start, next, end);
    } else {
      EmptyWindow(log, start, end);
    }
  }

  lemma FirstAndRest(log: seq<Transaction>, start: int, next: int, chunks: seq<(int, int)>)
    ensures Answers(RequestAll(log, [(start, next)] + chunks, false)) ==
            Window(log, start, next, false) + Answers(RequestAll(log, chunks, false))
  {
    var first, rest := Request(log, start, next, false), RequestAll(log, chunks, false);
    assert RequestAll(log, [(start, next)] + chunks, false) == [first] + rest;
    AnswersOfConcat([first], rest);
    assert Answers([first]) == [] + first.Answer() == first.Answer() by {
      assert [first][..0] == [];
    }
  }

  lemma {:induction false} EmptyWindow(log: seq<Transaction>, start: int, end: int)
    requires start >= end
    ensures Window(log, start, end, false) == []
  {
    if log != [] {
      EmptyWindow(log[..|log| - 1], start, end);
    }
  }

  function LargestId(txs: seq<Transaction>): Option<nat> {
    if txs == [] then None
    else
      var before, last := LargestId(txs[..|txs| - 1]), txs[|txs| - 1].id;
      Some(if before.Some? && before.value >= last then before.value else last)
  }

  predicate KeyLess(a: nat, b: nat) {
    LexLess(SortKey(a), SortKey(b))
  }

  lemma KeysCompareIds(a: nat, b: nat)
    requires a < Pow10(KEY_WIDTH) && b < Pow10(KEY_WIDTH)
    ensures KeyLess(a, b) <==> a < b
  {
    PaddedOrder(a, b, KEY_WIDTH);
  }

  lemma IdsFitTheirKeys(log: seq<Transaction>, start: int, end: int, closedEnd: bool)
    requires WellFormed(log)
    ensures forall tx <- Window(log, start, end, closedEnd) :: tx.id < Pow10(KEY_WIDTH)
  {
    WindowMembers(log, start, end, closedEnd);
  }

  lemma LargestSnoc(txs: seq<Transaction>, i: nat)
    requires i < |txs|
    ensures var before, last := LargestId(txs[..i]), txs[i].id;
            LargestId(txs[..i + 1]) == Some(if before.Some? && before.value >= last then before.value else last)
  {
    assert txs[..i + 1][..i] == txs[..i];
  }

  method LargestTransactionId(txs: seq<Transaction>) returns (largest: Option<nat>)
    requires forall tx <- txs :: tx.id < Pow10(KEY_WIDTH)
    ensures largest == LargestId(txs) && (largest.Some? ==> largest.value < Pow10(KEY_WIDTH))
  {
    largest := None;
    for i := 0 to |txs|
      invariant largest == LargestId(txs[..i]) && (largest.Some? ==> largest.value < Pow10(KEY_WIDTH))
    {
      LargestSnoc(txs, i);
      assert txs[i] in txs;
      if largest.Some? {
        KeysCompareIds(largest.value, txs[i].id);
      }
      if largest.None? || KeyLess(largest.value, txs[i].id) {
        largest := Some(txs[i].id);
      }
    }
    assert txs[..|txs|] == txs;
  }

  function RepairableTrades(s: Journal): set<string> {
    set trade | trade in s.trades && Repairable(s, trade)
  }

  lemma NothingLeftToRepair(registry: Registry, s: Journal, s': Journal, fixed: set<string>)
    requires RepairedAll(registry, s, s', fixed)
    requires forall trade :: trade !in fixed ==> !Repairable(s, trade)
    ensures fixed == RepairableTrades(s) && forall trade :: !Repairable(s', trade)
  {
    forall trade ensures !Repairable(s', trade) {
      if trade !in fixed {
        assert s'.Trade(trade) == s.Trade(trade);
      }
    }
  }

  lemma NothingImportedYet(registry: Registry, s: Journal, s': Journal, txs: seq<Transaction>)
    requires s' == s.(raw := s'.raw)
    requires exists j :: 0 <= j <= |txs| && s'.raw == PutAllRaw(s.raw, txs[..j])
    ensures Imported(registry, s, s', txs, false)
  {
    if NormalizedAll(txs).Ok? {
      var es := NormalizedAll(txs).value;
      assert s'.events == UpsertAll(s.events, es[..0]);
    }
  }

  lemma EventsInterrupted(registry: Registry, s: Journal, s': Journal, txs: seq<Transaction>)
    requires NormalizedAll(txs).Ok?
    requires s' == s.(raw := PutAllRaw(s.raw, txs), events := s'.events)
    requires var es := NormalizedAll(txs).value; exists k :: 0 <= k < |es| && s'.events == UpsertAll(s.events, es[..k])
    ensures Imported(registry, s, s', txs, false)
  {
    assert txs[..|txs|] == txs;
    assert s'.raw == PutAllRaw(s.raw, txs[..|txs|]);
  }

  /** A projection followed by a repair is still one projection, because projecting twice is
      projecting once. */
  lemma ProjectedThenRepaired(registry: Registry, s1: Journal, s2: Journal, s3: Journal, trade: string)
    requires s2.events == s1.events && s3.events == s1.events
    requires LeftOrProjected(registry, s1, s2, trade) && LeftOrProjected(registry, s2, s3, trade)
    ensures LeftOrProjected(registry, s1, s3, trade)
    ensures Settled(registry, s2, trade) ==> Settled(registry, s3, trade)
  {
    var legs := LegsOf(s1.events, trade);
    if s2.Trade(trade) != s1.Trade(trade) {
      ProjectionIsAFixedPoint(registry, s1.Trade(trade), legs, trade);
    }
    if s3.Trade(trade) != s2.Trade(trade) {
      ProjectionSettles(registry, s2, s3, trade);
    }
  }

  lemma EachWasLeftOrProjected(registry: Registry, s1: Journal, s2: Journal, s3: Journal, done: set<string>, fixed: set<string>, trade: string)
    requires ProjectedAll(registry, s1, s2, done) && RepairedAll(registry, s2, s3, fixed)
    ensures LeftOrProjected(registry, s1, s3, trade)
    ensures trade in done ==> Settled(registry, s3, trade)
  {
    if trade !in done {
      assert s2.Trade(trade) == s1.Trade(trade);
    }
    if trade !in fixed {
      assert s3.Trade(trade) == s2.Trade(trade);
    }
    ProjectedThenRepaired(registry, s1, s2, s3, trade);
  }

  lemma OthersOnlyRepaired(registry: Registry, s1: Journal, s2: Journal, s3: Journal, done: set<string>, fixed: set<string>, trade: string)
    requires ProjectedAll(registry, s1, s2, done) && RepairedAll(registry, s2, s3, fixed) && trade !in done
    ensures s3.Trade(trade) == s1.Trade(trade) || Repairable(s1, trade)
  {
    assert s2.Trade(trade) == s1.Trade(trade);
    if trade !in fixed {
      assert s3.Trade(trade) == s2.Trade(trade);
    }
  }

  /** The journal once all events of the batch are in. */
  ghost predicate EventsIn(s: Journal, s1: Journal, txs: seq<Transaction>) {
    NormalizedAll(txs).Ok? &&
    s1 == s.(raw := PutAllRaw(s.raw, txs), events := UpsertAll(s.events, NormalizedAll(txs).value))
  }

  lemma RecordsWritten(
    registry: Registry, s: Journal, s1: Journal, s2: Journal, s3: Journal, txs: seq<Transaction>, done: set<string>, fixed: set<string>)
    requires EventsIn(s, s1, txs) && done <= TradeIds(NormalizedAll(txs).value)
    requires ProjectedAll(registry, s1, s2, done) && RepairedAll(registry, s2, s3, fixed)
    ensures Imported(registry, s, s3, txs, false)
    ensures done == TradeIds(NormalizedAll(txs).value) && (forall trade :: !Repairable(s3, trade)) ==>
              Imported(registry, s, s3, txs, true)
  {
    var es := NormalizedAll(txs).value;
    assert txs[..|txs|] == txs && es[..|es|] == es;
    assert s3.raw == PutAllRaw(s.raw, txs[..|txs|]) && s3.events == UpsertAll(s.events, es[..|es|]);
    forall trade
      ensures LeftOrProjected(registry, s, s3, trade)
      ensures trade in done ==> Settled(registry, s3, trade)
      ensures trade !in TradeIds(es) ==> s3.Trade(trade) == s.Trade(trade) || Repairable(s.(events := s3.events), trade)
    {
      EachWasLeftOrProjected(registry, s1, s2, s3, done, fixed, trade);
      assert s1.Trade(trade) == s.Trade(trade);
      if trade !in done {
        OthersOnlyRepaired(registry, s1, s2, s3, done, fixed, trade);
        assert Repairable(s1, trade) == Repairable(s.(events := s3.events), trade);
      }
    }
  }

  lemma ImportedOneMoreChunk(registry: Registry, requests: seq<Request>, s: Journal, m: Journal, s': Journal, i: nat, done: bool)
    requires i < |requests| && ImportedChunks(registry, requests[..i], s, m, true)
    requires Imported(registry, m, s', requests[i].Answer(), done)
    ensures ImportedChunks(registry, requests[..i + 1], s, s', done)
  {
    assert requests[..i + 1][..i] == requests[..i];
  }

  lemma {:induction false} LargestOfConcat(txs: seq<Transaction>, more: seq<Transaction>)
    ensures LargestId(txs + more) ==
            var a, b := LargestId(txs), LargestId(more);
            if a.None? then b else if b.None? || b.value <= a.value then a else b
  {
    if more == [] {
      assert txs + more == txs;
    } else {
      var n := |more| - 1;
      LargestOfConcat(txs, more[..n]);
      assert (txs + more)[..|txs + more| - 1] == txs + more[..n];
    }
  }

  function LargerKey(a: Option<nat>, b: Option<nat>): Option<nat> {
    if b.Some? && (a.None? || KeyLess(a.value, b.value)) then b else a
  }

  ghost predicate SawLargest(requests: seq<Request>, largest: Option<nat>) {
    largest == LargestId(Answers(requests)) && (largest.Some? ==> largest.value < Pow10(KEY_WIDTH))
  }

  lemma SawOneMore(requests: seq<Request>, i: nat, largest: Option<nat>)
    requires i < |requests| && SawLargest(requests[..i], largest)
    requires forall tx <- requests[i].Answer() :: tx.id < Pow10(KEY_WIDTH)
    ensures SawLargest(requests[..i + 1], LargerKey(largest, LargestId(requests[i].Answer())))
  {
    LargestFitsItsKey(requests[i].Answer());
    LargestOfAnswers(requests, i);
  }

  lemma LargestOfAnswers(requests: seq<Request>, i: nat)
    requires i < |requests|
    requires var a, b := LargestId(Answers(requests[..i])), LargestId(requests[i].Answer());
             (a.Some? ==> a.value < Pow10(KEY_WIDTH)) && forall tx <- requests[i].Answer() :: tx.id < Pow10(KEY_WIDTH)
    ensures var a, b := LargestId(Answers(requests[..i])), LargestId(requests[i].Answer());
            LargestId(Answers(requests[..i + 1])) == LargerKey(a, b)
  {
    assert requests[..i + 1][..i] == requests[..i];
    var before, now := Answers(requests[..i]), requests[i].Answer();
    LargestOfConcat(before, now);
    LargestFitsItsKey(now);
    if LargestId(before).Some? && LargestId(now).Some? {
      KeysCompareIds(LargestId(before).value, LargestId(now).value);
    }
  }

  lemma {:induction false} LargestFitsItsKey(txs: seq<Transaction>)
    requires forall tx <- txs :: tx.id < Pow10(KEY_WIDTH)
    ensures LargestId(txs).Some? ==> LargestId(txs).value < Pow10(KEY_WIDTH)
  {
    if txs != [] {
      var n := |txs| - 1;
      LargestFitsItsKey(txs[..n]);
      assert txs[n] in txs;
    }
  }

  /** The largest id is one of the batch's, and no other exceeds it. */
  lemma {:induction false} LargestIdIsTheLargest(txs: seq<Transaction>, id: nat)
    ensures LargestId(txs) == Some(id) <==> (exists tx <- txs :: tx.id == id) && forall tx <- txs :: tx.id <= id
    ensures LargestId(txs).None? <==> txs == []
  {
    if txs != [] {
      var n := |txs| - 1;
      assert txs == txs[..n] + [txs[n]];
      LargestIdIsTheLargest(txs[..n], id);
      LargestIdIsTheLargest(txs[..n], txs[n].id);
      if LargestId(txs[..n]).Some? {
        LargestIdIsTheLargest(txs[..n], LargestId(txs[..n]).value);
      }
    }
  }

  /** A finished backfill leaves the watermark at or above everything it was answered and everything
      it was before, and at no other id. */
  lemma FinishedBackfillRaisesTheWatermark(registry: Registry, requests: seq<Request>, s: Journal, s': Journal, tx: Transaction)
    requires Backfilled(registry, requests, s, s', true)
    ensures tx in Answers(requests) ==> s'.watermark.Some? && tx.id <= s'.watermark.value
    ensures s.watermark.Some? ==> s'.watermark.Some? && s.watermark.value <= s'.watermark.value
    ensures s'.watermark == s.watermark || exists last <- Answers(requests) :: s'.watermark == Some(last.id)
  {
    var m := FinishedBackfill(registry, requests, s, s');
    var largest := LargestId(Answers(requests));
    LargestIdIsTheLargest(Answers(requests), if largest.Some? then largest.value else 0);
  }

  /** A second repair pass finds nothing and writes nothing. */
  lemma SecondRepairIsQuiet(registry: Registry, s: Journal, s': Journal, s'': Journal, fixed: set<string>, again: set<string>)
    requires RepairedAll(registry, s, s', fixed) && fixed == RepairableTrades(s)
    requires RepairedAll(registry, s', s'', again) && again == RepairableTrades(s')
    ensures again == {} && s''.trades == s'.trades
  {
    NothingLeftToRepair(registry, s, s', fixed);
    forall trade ensures trade in s''.trades <==> trade in s'.trades {
      assert s''.Trade(trade) == s'.Trade(trade);
    }
    forall trade | trade in s'.trades ensures s''.trades[trade] == s'.trades[trade] {
      assert s''.Trade(trade) == s'.Trade(trade);
    }
  }
}
