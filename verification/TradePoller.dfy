/** The poller: one cycle diffs the broker's open trades against the local ones and journals
    the difference. */
module TradePollers {
  import opened Basics
  import opened Transactions
  import opened CloseReasons
  import opened TradeProjection
  import opened TradeStores

  datatype OpenTrade = OpenTrade(
    instrument: string, units: real, price: real, stopLoss: Option<real>, takeProfit: Option<real>,
    guaranteedStop: Option<real>, openTime: Option<int>)

  datatype TradeDetail = TradeDetail(
    averageClosePrice: Option<real>, closePrice: Option<real>, price: Option<real>, realizedPL: Option<real>,
    closeReason: Option<string>, closeTime: Option<int>)

  /** What the broker answers during a cycle.  A trade without a detail is one whose detail
      request failed; a trade without transactions is one whose transaction request failed.
      `live` are the instruments of the live catalog. */
  datatype BrokerView = BrokerView(
    current: map<string, OpenTrade>, details: map<string, TradeDetail>, transactions: map<string, seq<Json>>,
    live: set<string>)

  datatype EventKind = Opened | Modified | ClosedOut
  datatype Emission = Emission(kind: EventKind, tradeId: string)

  /** What a cycle does about one trade. */
  datatype Verdict = Keep | Defer | Fail | Put(record: TradeRecord, kind: EventKind)

  function FirstOf(a: Option<real>, b: Option<real>, c: Option<real>, fallback: real): real {
    if a.Some? then a.value else if b.Some? then b.value else if c.Some? then c.value else fallback
  }

  function Or<T>(x: Option<T>, fallback: T): T {
    if x.Some? then x.value else fallback
  }

  function PutIfValid(record: TradeRecord, kind: EventKind): Verdict {
    if record.Valid() then Put(record, kind) else Fail
  }

  function OpenedRecord(id: string, trade: OpenTrade, existing: Option<TradeRecord>, now: int): TradeRecord {
    TradeRecord(id, trade.instrument, trade.units, trade.price, trade.stopLoss, trade.takeProfit, trade.guaranteedStop,
                Or(trade.openTime, now), if existing.Some? then existing.value.notes else None, None)
  }

  function ClosedRecord(existing: TradeRecord, detail: TradeDetail, evidence: seq<Json>, pip: real, now: int): TradeRecord
    requires pip != 0.0
  {
    var price := FirstOf(detail.averageClosePrice, detail.closePrice, detail.price, existing.openPrice);
    var reason := InferCloseReason(price, existing.slPrice, existing.tpPrice, detail.closeReason, evidence);
    var move := price - existing.openPrice;
    existing.(closing := Some(Closing(price, reason, (if existing.units > 0.0 then move else -move) / pip,
                                      Or(detail.realizedPL, 0.0), Or(detail.closeTime, now))))
  }

  predicate LocallyOpen(record: Option<TradeRecord>) {
    record.Some? && !record.value.Closed()
  }

  function Judge(registry: map<string, real>, view: BrokerView, now: int, record: Option<TradeRecord>, id: string): Verdict {
    if id in view.current then
      var trade := view.current[id];
      if !LocallyOpen(record) then
        if trade.instrument !in view.live then Fail else PutIfValid(OpenedRecord(id, trade, record, now), Opened)
      else if record.value.slPrice != trade.stopLoss || record.value.tpPrice != trade.takeProfit then
        PutIfValid(record.value.(slPrice := trade.stopLoss, tpPrice := trade.takeProfit), Modified)
      else Keep
    else if !LocallyOpen(record) then Keep
    else if id !in view.details then Defer
    else if record.value.instrument !in view.live then Fail
    else if record.value.instrument !in registry || registry[record.value.instrument] == 0.0 then Fail
    else
      var evidence := if id in view.transactions then view.transactions[id] else [];
      PutIfValid(ClosedRecord(record.value, view.details[id], evidence, registry[record.value.instrument], now), ClosedOut)
  }

  /** The record of a trade after a cycle got to it. */
  function After(registry: map<string, real>, view: BrokerView, now: int, record: Option<TradeRecord>, id: string): Option<TradeRecord> {
    match Judge(registry, view, now, record, id)
    case Put(after, _) => Some(after)
    case _ => record
  }

  /** Stored records carry the id they are stored under. */
  ghost predicate KeyedById(s: Journal) {
    forall id :: id in s.trades ==> s.trades[id].tradeId == id
  }

  /** The cycle handled exactly the trades in `done`, and nothing but their records changed. */
  ghost predicate Polled(registry: map<string, real>, view: BrokerView, now: int, s: Journal, s': Journal, done: set<string>) {
    s' == s.(trades := s'.trades) && KeyedById(s') &&
    (forall id :: id in done ==> !Judge(registry, view, now, s.Trade(id), id).Fail?) &&
    forall id :: s'.Trade(id) == if id in done then After(registry, view, now, s.Trade(id), id) else s.Trade(id)
  }

  /** The events are one per handled trade whose record was written. */
  ghost predicate Announced(
    registry: map<string, real>, view: BrokerView, now: int, s: Journal, done: set<string>, emitted: seq<Emission>)
  {
    (forall i, j :: 0 <= i < j < |emitted| ==> emitted[i].tradeId != emitted[j].tradeId) &&
    forall e: Emission :: e in emitted <==>
      e.tradeId in done && var v := Judge(registry, view, now, s.Trade(e.tradeId), e.tradeId); v.Put? && v.kind == e.kind
  }

  /** Trades a cycle has any business with. */
  function Concerned(view: BrokerView, s: Journal): set<string> {
    view.current.Keys + set id | id in s.trades && !s.trades[id].Closed()
  }

  class TradePoller {
    const store: TradeStore
    const registry: map<string, real>
    var lastError: Option<set<string>>
    var lastHeartbeat: Option<int>

    constructor (store: TradeStore, registry: map<string, real>)
      ensures this.store == store && this.registry == registry && lastError == None && lastHeartbeat == None
    {
      this.store, this.registry, lastError, lastHeartbeat := store, registry, None, None;
    }

    method HandleTrade(id: string, view: BrokerView, now: int) returns (ok: bool, emitted: Option<Emission>)
      requires KeyedById(store.State())
      modifies store
      ensures KeyedById(store.State())
      ensures var v := Judge(registry, view, now, old(store.State()).Trade(id), id);
              (ok ==> !v.Fail? && store.State() == (if v.Put? then old(store.State()).(trades := old(store.trades)[id := v.record]) else old(store.State()))) &&
              (!ok ==> store.State() == old(store.State()) && (v.Fail? || store.writesLeft == 0)) &&
              emitted == (if ok && v.Put? then Some(Emission(v.kind, id)) else None)
    {
      ok, emitted := true, None;
      var verdict := Judge(registry, view, now, store.State().Trade(id), id);
      match verdict {
        case Keep =>
        case Defer =>
        case Fail => ok := false;
        case Put(record, kind) =>
          assert record.tradeId == id && record.Valid();
          ok := store.UpsertTrade(record);
          if ok {
            emitted := Some(Emission(kind, id));
          }
      }
    }

    /** One polling cycle.  `answer` is `None` when the open-trades request itself fails. */
    method PollOnce(answer: Option<BrokerView>, now: int) returns (ok: bool, emitted: seq<Emission>)
      requires KeyedById(store.State())
      modifies this, store
      ensures answer.None? ==> !ok && store.State() == old(store.State()) && emitted == [] && lastError == Some({})
      ensures answer.Some? ==>
                exists done :: Polled(registry, answer.value, now, old(store.State()), store.State(), done) &&
                               Announced(registry, answer.value, now, old(store.State()), done, emitted) &&
                               (ok ==> done == Concerned(answer.value, old(store.State())))
      ensures answer.Some? && !ok ==> store.writesLeft == 0 ||
                                      exists id :: Judge(registry, answer.value, now, store.State().Trade(id), id).Fail?
      ensures ok ==> lastHeartbeat == Some(now) &&
                     var deferred := DeferredTrades(registry, answer.value, now, old(store.State()));
                     lastError == if deferred == {} then None else Some(deferred)
    {
      if answer.None? {
        lastError := Some({});
        return false, [];
      }
      ghost var s, done := store.State(), {};
      var deferred;
      ok, emitted, deferred, done := HandleTrades(answer.value, now);
      if ok {
        AllDeferrals(registry, answer.value, now, s, store.State(), emitted, deferred);
        lastHeartbeat := Some(now);
        lastError := if deferred == {} then None else Some(deferred);
      }
    }

    /** The two loops of a cycle; they stop at the first trade that raises. */
    method HandleTrades(view: BrokerView, now: int)
      returns (ok: bool, emitted: seq<Emission>, deferred: set<string>, ghost done: set<string>)
      requires KeyedById(store.State())
      modifies store
      ensures PollProgress(registry, view, now, old(store.State()), store.State(), done, emitted, deferred)
      ensures ok ==> done == Concerned(view, old(store.State()))
      ensures !ok ==> store.writesLeft == 0 || exists id :: Judge(registry, view, now, store.State().Trade(id), id).Fail?
    {
      ghost var s := store.State();
      ok, emitted, deferred, done := true, [], {}, {};
      var existingOpen := set id | id in store.trades && !store.trades[id].Closed();
      var todo := view.current.Keys + existingOpen;
      while todo != {}
        invariant todo + done == Concerned(view, s) && todo !! done
        invariant PollProgress(registry, view, now, s, store.State(), done, emitted, deferred)
        decreases todo
      {
        // Trades the broker reports come before the closes.
        var listed := todo * view.current.Keys;
        var id :| id in if listed != {} then listed else todo;
        ok, emitted, deferred := HandleNext(view, now, id, emitted, deferred, s, done);
        if !ok {
          return;
        }
        todo, done := todo - {id}, done + {id};
      }
      ok := true;
    }

    /** The body of the loops: one more trade. */
    method HandleNext(
      view: BrokerView, now: int, id: string, emitted: seq<Emission>, deferred: set<string>, ghost s: Journal, ghost done: set<string>)
      returns (ok: bool, emitted': seq<Emission>, deferred': set<string>)
      requires PollProgress(registry, view, now, s, store.State(), done, emitted, deferred) && id !in done
      modifies store
      ensures PollProgress(registry, view, now, s, store.State(), if ok then done + {id} else done, emitted', deferred')
      ensures !ok ==> store.writesLeft == 0 || Judge(registry, view, now, store.State().Trade(id), id).Fail?
    {
      ghost var m := store.State();
      var verdict := Judge(registry, view, now, store.State().Trade(id), id);
      var emission;
      ok, emission := HandleTrade(id, view, now);
      emitted', deferred' := emitted, deferred;
      if ok {
        PollOneMore(registry, view, now, s, m, store.State(), done, emitted, deferred, id);
        emitted' := if emission.Some? then emitted + [emission.value] else emitted;
        deferred' := if verdict.Defer? then deferred + {id} else deferred;
      }
    }
  }

  /** Between two steps of a cycle. */
  ghost predicate PollProgress(
    registry: map<string, real>, view: BrokerView, now: int, s: Journal, s': Journal, done: set<string>,
    emitted: seq<Emission>, deferred: set<string>)
  {
    Polled(registry, view, now, s, s', done) && Announced(registry, view, now, s, done, emitted) &&
    forall id :: id in deferred <==> id in done && Judge(registry, view, now, s.Trade(id), id).Defer?
  }

  function DeferredTrades(registry: map<string, real>, view: BrokerView, now: int, s: Journal): set<string> {
    set id | id in s.trades && Judge(registry, view, now, s.Trade(id), id).Defer?
  }

  lemma RecordUntouched(
    registry: map<string, real>, view: BrokerView, now: int, s: Journal, m: Journal, done: set<string>,
    emitted: seq<Emission>, deferred: set<string>, id: string)
    requires PollProgress(registry, view, now, s, m, done, emitted, deferred) && id !in done
    ensures m.Trade(id) == s.Trade(id)
  {
  }

  lemma AllDeferrals(
    registry: map<string, real>, view: BrokerView, now: int, s: Journal, s': Journal, emitted: seq<Emission>, deferred: set<string>)
    requires PollProgress(registry, view, now, s, s', Concerned(view, s), emitted, deferred)
    ensures deferred == DeferredTrades(registry, view, now, s)
  {
    forall id | id !in Concerned(view, s) ensures !Judge(registry, view, now, s.Trade(id), id).Defer? {
      Unconcerned(registry, view, now, s, id);
    }
  }

  lemma PollOneMore(
    registry: map<string, real>, view: BrokerView, now: int, s: Journal, m: Journal, s': Journal, done: set<string>,
    emitted: seq<Emission>, deferred: set<string>, id: string)
    requires PollProgress(registry, view, now, s, m, done, emitted, deferred) && id !in done && KeyedById(s')
    requires var v := Judge(registry, view, now, m.Trade(id), id);
             !v.Fail? && s' == if v.Put? then m.(trades := m.trades[id := v.record]) else m
    ensures var v := Judge(registry, view, now, m.Trade(id), id);
            PollProgress(registry, view, now, s, s', done + {id},
                         if v.Put? then emitted + [Emission(v.kind, id)] else emitted, if v.Defer? then deferred + {id} else deferred)
  {
    RecordUntouched(registry, view, now, s, m, done, emitted, deferred, id);
    HandledOneMore(registry, view, now, s, m, s', done, id);
    AnnounceOneMore(registry, view, now, s, done, emitted, id);
  }

  lemma HandledOneMore(
    registry: map<string, real>, view: BrokerView, now: int, s: Journal, m: Journal, s': Journal, done: set<string>, id: string)
    requires Polled(registry, view, now, s, m, done) && id !in done && KeyedById(s')
    requires var v := Judge(registry, view, now, m.Trade(id), id);
             !v.Fail? && s' == if v.Put? then m.(trades := m.trades[id := v.record]) else m
    ensures Polled(registry, view, now, s, s', done + {id})
  {
    assert m.Trade(id) == s.Trade(id);
    forall other | other != id ensures s'.Trade(other) == m.Trade(other) {
    }
  }

  lemma AnnounceOneMore(
    registry: map<string, real>, view: BrokerView, now: int, s: Journal, done: set<string>, emitted: seq<Emission>, id: string)
    requires Announced(registry, view, now, s, done, emitted) && id !in done
    ensures var v := Judge(registry, view, now, s.Trade(id), id);
            Announced(registry, view, now, s, done + {id}, if v.Put? then emitted + [Emission(v.kind, id)] else emitted)
  {
    forall i | 0 <= i < |emitted| ensures emitted[i].tradeId != id {
      assert emitted[i] in emitted;
    }
  }

  lemma Unconcerned(registry: map<string, real>, view: BrokerView, now: int, s: Journal, id: string)
    requires id !in Concerned(view, s)
    ensures Judge(registry, view, now, s.Trade(id), id) == Keep
  {
  }

  // ---- What a finished cycle achieves --------------------------------------------------

  /** A cycle that got through every trade it is concerned with. */
  ghost predicate FinishedCycle(registry: map<string, real>, view: BrokerView, now: int, s: Journal, s': Journal) {
    Polled(registry, view, now, s, s', Concerned(view, s))
  }

  lemma FinishedEverywhere(registry: map<string, real>, view: BrokerView, now: int, s: Journal, s': Journal, id: string)
    requires FinishedCycle(registry, view, now, s, s')
    ensures s'.Trade(id) == After(registry, view, now, s.Trade(id), id)
    ensures !Judge(registry, view, now, s.Trade(id), id).Fail?
  {
    if id !in Concerned(view, s) {
      Unconcerned(registry, view, now, s, id);
    }
  }

  // ---- What a cycle writes, in the broker's own fields -------------------------------------

  /** The record is what the broker lists; only the notes are the journal's. */
  predicate Mirrors(after: TradeRecord, id: string, trade: OpenTrade, before: Option<TradeRecord>, now: int) {
    after.tradeId == id && after.instrument == trade.instrument && after.units == trade.units && after.openPrice == trade.price &&
    after.slPrice == trade.stopLoss && after.tpPrice == trade.takeProfit && after.gsloPrice == trade.guaranteedStop &&
    (trade.openTime.Some? ==> after.openedAt == trade.openTime.value) && (trade.openTime.None? ==> after.openedAt == now) &&
    (before.Some? ==> after.notes == before.value.notes) && (before.None? ==> after.notes == None) && after.closing == None
  }

  /** The first price that the detail gives, or the fallback. */
  predicate IsFirstGiven(price: real, detail: TradeDetail, fallback: real) {
    (detail.averageClosePrice.Some? ==> price == detail.averageClosePrice.value) &&
    (detail.averageClosePrice.None? && detail.closePrice.Some? ==> price == detail.closePrice.value) &&
    (detail.averageClosePrice.None? && detail.closePrice.None? && detail.price.Some? ==> price == detail.price.value) &&
    (detail.averageClosePrice.None? && detail.closePrice.None? && detail.price.None? ==> price == fallback)
  }

  /** The closing is the broker's detail of it; its pips are the move in the trade's direction. */
  ghost predicate ClosesWith(closing: Closing, before: TradeRecord, detail: TradeDetail, evidence: seq<Json>, pip: real, now: int) {
    IsFirstGiven(closing.price, detail, before.openPrice) &&
    closing.pips * pip == (if before.units > 0.0 then closing.price - before.openPrice else before.openPrice - closing.price) &&
    (detail.realizedPL.Some? ==> closing.pnl == detail.realizedPL.value) && (detail.realizedPL.None? ==> closing.pnl == 0.0) &&
    (detail.closeTime.Some? ==> closing.closedAt == detail.closeTime.value) && (detail.closeTime.None? ==> closing.closedAt == now) &&
    ReasonIs(closing.reason, closing.price, before.slPrice, before.tpPrice, detail.closeReason, evidence)
  }

  /** What a cycle does to one trade's record. */
  ghost predicate Follows(
    registry: map<string, real>, view: BrokerView, now: int, before: Option<TradeRecord>, after: Option<TradeRecord>, id: string)
  {
    if id in view.current && !LocallyOpen(before) then after.Some? && Mirrors(after.value, id, view.current[id], before, now)
    else if id in view.current then
      after.Some? && SameOpening(after.value, before.value) && after.value.gsloPrice == before.value.gsloPrice &&
      after.value.slPrice == view.current[id].stopLoss && after.value.tpPrice == view.current[id].takeProfit &&
      after.value.closing == None
    else if LocallyOpen(before) && id in view.details then
      after.Some? && SameOpening(after.value, before.value) && SameStops(after.value, before.value) &&
      after.value.closing.Some? && before.value.instrument in registry &&
      ClosesWith(after.value.closing.value, before.value, view.details[id],
                 if id in view.transactions then view.transactions[id] else [], registry[before.value.instrument], now)
    else after == before
  }

  lemma JudgedFollows(registry: map<string, real>, view: BrokerView, now: int, record: Option<TradeRecord>, id: string)
    requires !Judge(registry, view, now, record, id).Fail?
    ensures Follows(registry, view, now, record, After(registry, view, now, record, id), id)
  {
    if LocallyOpen(record) && id !in view.current && id in view.details {
      var evidence := if id in view.transactions then view.transactions[id] else [];
      ClosedRecordFollows(record.value, view.details[id], evidence, registry[record.value.instrument], now);
    }
  }

  lemma ClosedRecordFollows(existing: TradeRecord, detail: TradeDetail, evidence: seq<Json>, pip: real, now: int)
    requires pip != 0.0
    ensures ClosesWith(ClosedRecord(existing, detail, evidence, pip, now).closing.value, existing, detail, evidence, pip, now)
  {
    var price := ClosedRecord(existing, detail, evidence, pip, now).closing.value.price;
    ReasonFollowsWhatIsSaid(price, existing.slPrice, existing.tpPrice, detail.closeReason, evidence);
  }

  /** A finished cycle leaves every trade as the broker's answers say. */
  lemma FinishedCycleFollows(registry: map<string, real>, view: BrokerView, now: int, s: Journal, s': Journal, id: string)
    requires FinishedCycle(registry, view, now, s, s')
    ensures Follows(registry, view, now, s.Trade(id), s'.Trade(id), id)
  {
    FinishedEverywhere(registry, view, now, s, s', id);
    JudgedFollows(registry, view, now, s.Trade(id), id);
  }

  /** A cycle that stopped early leaves every trade either so, or as it was. */
  lemma PolledFollows(registry: map<string, real>, view: BrokerView, now: int, s: Journal, s': Journal, done: set<string>, id: string)
    requires Polled(registry, view, now, s, s', done)
    ensures if id in done then Follows(registry, view, now, s.Trade(id), s'.Trade(id), id) else s'.Trade(id) == s.Trade(id)
  {
    if id in done {
      JudgedFollows(registry, view, now, s.Trade(id), id);
    }
  }

  predicate AcceptedOpen(id: string, trade: OpenTrade) {
    !Blank(id) && ValidSymbol(trade.instrument) && trade.units != 0.0 && trade.price > 0.0 &&
    Positive(trade.stopLoss) && Positive(trade.takeProfit) && Positive(trade.guaranteedStop)
  }

  predicate AcceptedClose(before: TradeRecord, detail: TradeDetail, now: int) {
    var given := if detail.averageClosePrice.Some? then detail.averageClosePrice
                 else if detail.closePrice.Some? then detail.closePrice else detail.price;
    (given.Some? ==> given.value > 0.0) && before.openedAt <= (if detail.closeTime.Some? then detail.closeTime.value else now)
  }

  /** Exactly when a trade with a valid stored record, or none, stops the cycle. */
  lemma FailsIff(registry: map<string, real>, view: BrokerView, now: int, record: Option<TradeRecord>, id: string)
    requires record.Some? ==> record.value.Valid() && record.value.tradeId == id
    ensures Judge(registry, view, now, record, id).Fail? <==>
            if id in view.current && !LocallyOpen(record) then
              view.current[id].instrument !in view.live || !AcceptedOpen(id, view.current[id])
            else if id in view.current then
              (record.value.slPrice != view.current[id].stopLoss || record.value.tpPrice != view.current[id].takeProfit) &&
              !(Positive(view.current[id].stopLoss) && Positive(view.current[id].takeProfit))
            else
              LocallyOpen(record) && id in view.details &&
              (record.value.instrument !in view.live || record.value.instrument !in registry ||
               registry[record.value.instrument] == 0.0 || !AcceptedClose(record.value, view.details[id], now))
  {
  }

  /** A cycle announces exactly the trades whose records it changed, and says what it did: a trade
      listed and not locally open was opened, one listed and open had its stops changed, one no
      longer listed was closed. */
  lemma AnnouncementsSay(
    registry: map<string, real>, view: BrokerView, now: int, s: Journal, s': Journal, done: set<string>, emitted: seq<Emission>, id: string)
    requires Polled(registry, view, now, s, s', done) && Announced(registry, view, now, s, done, emitted)
    ensures s'.Trade(id) != s.Trade(id) <==> exists e <- emitted :: e.tradeId == id
    ensures forall e <- emitted :: e.tradeId == id ==>
              e.kind == if id !in view.current then ClosedOut else if LocallyOpen(s.Trade(id)) then Modified else Opened
  {
    var v := Judge(registry, view, now, s.Trade(id), id);
    if id in done && v.Put? {
      assert Emission(v.kind, id) in emitted;
    }
  }

  /** After a cycle the locally open trades are the broker's plus exactly the deferred ones. */
  lemma OpenTradesConverge(registry: map<string, real>, view: BrokerView, now: int, s: Journal, s': Journal, id: string)
    requires FinishedCycle(registry, view, now, s, s')
    ensures LocallyOpen(s'.Trade(id)) <==>
            id in view.current || (LocallyOpen(s.Trade(id)) && id !in view.details)
  {
    FinishedEverywhere(registry, view, now, s, s', id);
  }

  /** After a cycle every trade the broker reports carries the broker's stops. */
  lemma StopsConverge(registry: map<string, real>, view: BrokerView, now: int, s: Journal, s': Journal, id: string)
    requires FinishedCycle(registry, view, now, s, s') && id in view.current
    ensures s'.Trade(id).Some? && s'.trades[id].slPrice == view.current[id].stopLoss &&
            s'.trades[id].tpPrice == view.current[id].takeProfit
  {
    FinishedEverywhere(registry, view, now, s, s', id);
  }

  /** Looking again at an unchanged broker finds nothing to do, at any later time: only the
      deferred closes are still waiting. */
  lemma SecondLookIsQuiet(registry: map<string, real>, view: BrokerView, now: int, later: int, record: Option<TradeRecord>, id: string)
    requires !Judge(registry, view, now, record, id).Fail?
    ensures var again := Judge(registry, view, later, After(registry, view, now, record, id), id);
            again == if Judge(registry, view, now, record, id).Defer? then Defer else Keep
  {
  }

  /** A second cycle on the same broker state announces nothing and changes nothing. */
  lemma SecondCycleIsQuiet(
    registry: map<string, real>, view: BrokerView, now: int, later: int, s: Journal, s': Journal, s'': Journal, emitted: seq<Emission>)
    requires FinishedCycle(registry, view, now, s, s') && FinishedCycle(registry, view, later, s', s'')
    requires Announced(registry, view, later, s', Concerned(view, s'), emitted)
    ensures emitted == [] && s'' == s'
  {
    assert emitted != [] ==> emitted[0] in emitted;
    forall id ensures s''.Trade(id) == s'.Trade(id) && !Judge(registry, view, later, s'.Trade(id), id).Put? {
      FinishedEverywhere(registry, view, now, s, s', id);
      FinishedEverywhere(registry, view, later, s', s'', id);
      SecondLookIsQuiet(registry, view, now, later, s.Trade(id), id);
    }
    SameTrades(s', s'');
  }

  lemma SameTrades(a: Journal, b: Journal)
    requires forall id :: a.Trade(id) == b.Trade(id)
    ensures a.trades == b.trades
  {
    forall id ensures id in a.trades <==> id in b.trades {
      assert a.Trade(id) == b.Trade(id);
    }
    forall id | id in a.trades ensures a.trades[id] == b.trades[id] {
      assert a.Trade(id) == b.Trade(id);
    }
  }

  /** Whether a cycle needs its own clock for a trade: a listed trade that is not locally OPEN
      gets the broker's open time, an unlisted one that is, the broker's close time, if given. */
  predicate TimeKnown(view: BrokerView, s: Journal, id: string) {
    (id in view.current && !LocallyOpen(s.Trade(id)) ==> view.current[id].openTime.Some?) &&
    (id !in view.current && LocallyOpen(s.Trade(id)) && id in view.details ==> view.details[id].closeTime.Some?)
  }

  lemma ClockMattersIff(registry: map<string, real>, view: BrokerView, now: int, later: int, s: Journal, id: string)
    requires !Judge(registry, view, now, s.Trade(id), id).Fail? && !Judge(registry, view, later, s.Trade(id), id).Fail?
    ensures After(registry, view, now, s.Trade(id), id) == After(registry, view, later, s.Trade(id), id) <==>
            TimeKnown(view, s, id) || now == later
  {
  }

  /** Where a rerun leaves a trade: with the clock of whichever cycle got to it first. */
  lemma FirstCycleCounts(
    registry: map<string, real>, view: BrokerView, first: int, rerun: int,
    s: Journal, aborted: Journal, resumed: Journal, done: set<string>, id: string)
    requires Polled(registry, view, first, s, aborted, done)
    requires FinishedCycle(registry, view, rerun, aborted, resumed)
    ensures var clock := if id in done then first else rerun;
            !Judge(registry, view, clock, s.Trade(id), id).Fail? &&
            resumed.Trade(id) == After(registry, view, clock, s.Trade(id), id)
  {
    FinishedEverywhere(registry, view, rerun, aborted, resumed, id);
    if id in done {
      SecondLookIsQuiet(registry, view, first, rerun, s.Trade(id), id);
    }
  }

  /** A cycle interrupted anywhere and then run again reaches the records of one clean cycle
      exactly when every trade whose time the broker does not give was reached by a cycle with
      the clean cycle's clock. */
  lemma InterruptedCycleRecoversIff(
    registry: map<string, real>, view: BrokerView, first: int, rerun: int, clean: int,
    s: Journal, aborted: Journal, resumed: Journal, once: Journal, done: set<string>)
    requires Polled(registry, view, first, s, aborted, done)
    requires FinishedCycle(registry, view, rerun, aborted, resumed)
    requires FinishedCycle(registry, view, clean, s, once)
    ensures resumed == once <==> forall id :: TimeKnown(view, s, id) || (if id in done then first else rerun) == clean
  {
    forall id
      ensures resumed.Trade(id) == once.Trade(id) <==> TimeKnown(view, s, id) || (if id in done then first else rerun) == clean
    {
      FirstCycleCounts(registry, view, first, rerun, s, aborted, resumed, done, id);
      FinishedEverywhere(registry, view, clean, s, once, id);
      ClockMattersIff(registry, view, if id in done then first else rerun, clean, s, id);
    }
    if forall id :: TimeKnown(view, s, id) || (if id in done then first else rerun) == clean {
      SameTrades(resumed, once);
    }
  }

  /** When the broker gives every time the cycle needs, the interruption leaves no trace,
      whenever the cycles ran. */
  lemma InterruptedCycleRecovers(
    registry: map<string, real>, view: BrokerView, first: int, rerun: int, clean: int,
    s: Journal, aborted: Journal, resumed: Journal, once: Journal, done: set<string>)
    requires forall id :: TimeKnown(view, s, id)
    requires Polled(registry, view, first, s, aborted, done)
    requires FinishedCycle(registry, view, rerun, aborted, resumed)
    requires FinishedCycle(registry, view, clean, s, once)
    ensures resumed == once
  {
    InterruptedCycleRecoversIff(registry, view, first, rerun, clean, s, aborted, resumed, once, done);
  }

  /** Two clean cycles at different times agree exactly when the broker gives every time they need. */
  lemma TwoClocksAgreeIff(
    registry: map<string, real>, view: BrokerView, now: int, later: int, s: Journal, a: Journal, b: Journal)
    requires now != later
    requires FinishedCycle(registry, view, now, s, a) && FinishedCycle(registry, view, later, s, b)
    ensures a == b <==> forall id :: TimeKnown(view, s, id)
  {
    forall id ensures a.Trade(id) == b.Trade(id) <==> TimeKnown(view, s, id) {
      FinishedEverywhere(registry, view, now, s, a, id);
      FinishedEverywhere(registry, view, later, s, b, id);
      ClockMattersIff(registry, view, now, later, s, id);
    }
    if forall id :: TimeKnown(view, s, id) {
      SameTrades(a, b);
    }
  }

  const TIMELESS: OpenTrade := OpenTrade("EUR_USD", 1.0, 1.1, None, None, None, None)
  const TWO_TRADES: BrokerView := BrokerView(map["7" := TIMELESS, "8" := TIMELESS], map[], map[], {"EUR_USD"})
  const NOTHING: Journal := Journal(map[], [], map[], None)

  function OpenedAt(first: int, second: int): Journal {
    NOTHING.(trades := map["7" := OpenedRecord("7", TIMELESS, None, first), "8" := OpenedRecord("8", TIMELESS, None, second)])
  }

  /** A cycle that is aborted between two trades without open times, and run again later: each
      record has its own cycle's clock, which no clean cycle gives them. */
  lemma MissingTimesLeaveATrace(registry: map<string, real>, first: int, rerun: int, clean: int)
    requires first != rerun
    ensures var aborted := NOTHING.(trades := map["7" := OpenedRecord("7", TIMELESS, None, first)]);
            Polled(registry, TWO_TRADES, first, NOTHING, aborted, {"7"}) &&
            FinishedCycle(registry, TWO_TRADES, rerun, aborted, OpenedAt(first, rerun)) &&
            FinishedCycle(registry, TWO_TRADES, clean, NOTHING, OpenedAt(clean, clean)) &&
            OpenedAt(first, rerun) != OpenedAt(clean, clean)
  {
    AbortedBetweenTwoTrades(registry, first);
    RunAgain(registry, first, rerun);
    CleanRun(registry, clean);
    var resumed, once := OpenedAt(first, rerun), OpenedAt(clean, clean);
    assert resumed.trades["7"].openedAt == first && resumed.trades["8"].openedAt == rerun;
    assert once.trades["7"].openedAt == clean && once.trades["8"].openedAt == clean;
  }

  lemma TimelessIsValid(id: string, now: int)
    requires id == "7" || id == "8"
    ensures OpenedRecord(id, TIMELESS, None, now).Valid()
  {
    var symbol := "EUR_USD";
    assert Strip(symbol) == symbol && Upper(symbol) == symbol && IsUnderscore(symbol[3]);
    assert Strip(id) == id;
  }

  lemma AbortedBetweenTwoTrades(registry: map<string, real>, first: int)
    ensures Polled(registry, TWO_TRADES, first, NOTHING,
                   NOTHING.(trades := map["7" := OpenedRecord("7", TIMELESS, None, first)]), {"7"})
  {
    TimelessIsValid("7", first);
  }

  lemma JudgedTimeless(registry: map<string, real>, id: string, first: int, now: int)
    requires id == "7" || id == "8"
    ensures var record := OpenedRecord(id, TIMELESS, None, first);
            Judge(registry, TWO_TRADES, now, Some(record), id) == Keep &&
            Judge(registry, TWO_TRADES, first, None, id) == Put(record, Opened)
  {
    TimelessIsValid(id, first);
  }

  lemma RunAgain(registry: map<string, real>, first: int, rerun: int)
    ensures FinishedCycle(registry, TWO_TRADES, rerun, NOTHING.(trades := map["7" := OpenedRecord("7", TIMELESS, None, first)]),
                          OpenedAt(first, rerun))
  {
    JudgedTimeless(registry, "7", first, rerun);
    JudgedTimeless(registry, "8", rerun, rerun);
    var s := NOTHING.(trades := map["7" := OpenedRecord("7", TIMELESS, None, first)]);
    assert Concerned(TWO_TRADES, s) == {"7", "8"};
  }

  lemma CleanRun(registry: map<string, real>, clean: int)
    ensures FinishedCycle(registry, TWO_TRADES, clean, NOTHING, OpenedAt(clean, clean))
  {
    JudgedTimeless(registry, "7", clean, clean);
    JudgedTimeless(registry, "8", clean, clean);
    assert Concerned(TWO_TRADES, NOTHING) == {"7", "8"};
  }
}
