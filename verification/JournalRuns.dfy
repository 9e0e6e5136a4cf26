/**
 * Safety of the journal over whole runs.
 *
 * A run interleaves growth of the broker's log, incremental syncs, backfills and polling
 * cycles, any of them interrupted after any write.
 */
module JournalRuns {
  import opened Basics
  import opened IdOrder
  import opened Transactions
  import opened TradeNormalizer
  import opened EventTable
  import opened TradeProjection
  import opened TradeStores
  import opened BrokerLog
  import opened TradeHistory
  import opened TradePollers

  // ---- Invariants ----------------------------------------------------------------------

  ghost predicate MadeBy(log: seq<Transaction>, e: Event) {
    exists i :: 0 <= i < |log| && Makes(log[i], e)
  }

  /** Nothing is in the tables that the broker did not send. */
  ghost predicate Sound(log: seq<Transaction>, s: Journal) {
    DistinctIds(s.events) && (forall e <- s.events :: MadeBy(log, e)) &&
    (forall id :: id in s.raw ==> s.raw[id] in log && s.raw[id].id == id)
  }

  /** The raw row of a transaction and all its events are in the tables. */
  ghost predicate Covered(s: Journal, tx: Transaction) {
    tx.id in s.raw && Normalized(tx).Ok? && forall e <- Normalized(tx).value :: HasId(s.events, e.id)
  }

  /** The requested transactions with `from < id <= upTo`. */
  predicate Between(tx: Transaction, from: nat, upTo: nat) {
    tx.Requested() && from < tx.id <= upTo
  }

  /** Everything from the first watermark to the current one has been journaled. */
  ghost predicate NoGap(log: seq<Transaction>, s: Journal, base: Option<nat>) {
    s.watermark.Some? ==>
      base.Some? && s.watermark.value <= LastId(log) &&
      forall tx <- log :: Between(tx, base.value, s.watermark.value) ==> Covered(s, tx)
  }

  ghost predicate Finishes(tx: Transaction, trade: string) {
    exists e :: Makes(tx, e) && e.ClosesTrade(trade)
  }

  /** No trade whose close the watermark has passed is shown OPEN. */
  ghost predicate ClosesShown(log: seq<Transaction>, s: Journal, base: Option<nat>) {
    s.watermark.Some? && base.Some? ==>
      forall tx <- log, trade | Between(tx, base.value, s.watermark.value) && Finishes(tx, trade) && trade in s.trades ::
        s.trades[trade].Closed()
  }

  datatype Config = Config(log: seq<Transaction>, s: Journal, base: Option<nat>)

  /** What every run keeps; with `shown`, also what runs of coherent polls keep. */
  ghost predicate Good(c: Config, shown: bool) {
    WellFormed(c.log) && Sound(c.log, c.s) && KeyedById(c.s) && NoGap(c.log, c.s, c.base) &&
    (shown ==> ClosesShown(c.log, c.s, c.base))
  }

  // ---- Steps ---------------------------------------------------------------------------

  /** The window starts no later than the first requested transaction past the watermark. */
  ghost predicate ReachesBack(log: seq<Transaction>, s: Journal, start: int) {
    s.watermark.Some? ==> forall tx <- log :: tx.Requested() && tx.id > s.watermark.value ==> start <= tx.time
  }

  /** Every chunk but the last was over when it was requested: what came in after its request
      does not belong to it. */
  ghost predicate OverWhenRequested(requests: seq<Request>, log: seq<Transaction>) {
    forall i :: 0 <= i < |requests| - 1 ==> Over(requests[i], log)
  }

  ghost predicate Over(r: Request, log: seq<Transaction>) {
    forall tx <- log :: tx !in r.log ==> r.end <= tx.time
  }

  /** The broker reports as open no trade its own log has closed. */
  ghost predicate Coherent(log: seq<Transaction>, view: BrokerView) {
    forall tx <- log, trade | Finishes(tx, trade) :: trade !in view.current
  }

  /** The first watermark of a run stays the base of the no-gap claim. */
  function Rebased(base: Option<nat>, s: Journal, s': Journal): Option<nat> {
    if s.watermark.None? then s'.watermark else base
  }

  datatype Action =
    | Grow
    | Sync(ok: bool)
    | Backfill(requests: seq<Request>, start: int, end: int, ok: bool)
    | Poll(view: BrokerView, now: int, done: set<string>)

  ghost predicate Next(registry: Registry, c: Config, c': Config, action: Action) {
    c'.base == Rebased(c.base, c.s, c'.s) &&
    match action
    case Grow => c.log <= c'.log && WellFormed(c'.log) && c'.s == c.s
    case Sync(ok) => c'.log == c.log && Synced(registry, c.log, c.s, c'.s, ok)
    case Backfill(requests, start, end, ok) =>
      GrowsOver(c.log, requests, c'.log) && RequestsFor(requests, start, end) &&
      ReachesBack(c'.log, c.s, start) && OverWhenRequested(requests, c'.log) && Backfilled(registry, requests, c.s, c'.s, ok)
    case Poll(view, now, done) => c'.log == c.log && Polled(registry, view, now, c.s, c'.s, done)
  }

  /** The log only grows, from before the first request to after the last. */
  ghost predicate GrowsOver(log: seq<Transaction>, requests: seq<Request>, more: seq<Transaction>) {
    WellFormed(more) && log <= more && RequestedFrom(more, requests) && forall r <- requests :: log <= r.log
  }

  ghost predicate StepAt(registry: Registry, run: seq<Config>, actions: seq<Action>, i: nat)
    requires |run| == |actions| + 1 && i < |actions|
  {
    Next(registry, run[i], run[i + 1], actions[i])
  }

  ghost predicate IsRun(registry: Registry, run: seq<Config>, actions: seq<Action>) {
    |run| == |actions| + 1 && Good(run[0], false) &&
    forall i :: 0 <= i < |actions| ==> StepAt(registry, run, actions, i)
  }

  ghost predicate CoherentStep(c: Config, action: Action) {
    action.Poll? ==> Coherent(c.log, action.view)
  }

  ghost predicate CoherentAt(run: seq<Config>, actions: seq<Action>, i: nat)
    requires |run| == |actions| + 1 && i < |actions|
  {
    CoherentStep(run[i], actions[i])
  }

  /** A run in which no poll is answered from before a close. */
  ghost predicate IsCoherentRun(registry: Registry, run: seq<Config>, actions: seq<Action>) {
    IsRun(registry, run, actions) && Good(run[0], true) &&
    forall i :: 0 <= i < |actions| ==> CoherentAt(run, actions, i)
  }

  /** A journal nothing was written to is a good start, whatever the broker's log holds. */
  lemma FreshJournalIsGood(log: seq<Transaction>)
    requires WellFormed(log)
    ensures Good(Config(log, Journal(map[], [], map[], None), None), true)
  {
  }

  // ---- Importing -----------------------------------------------------------------------

  /** What imports preserve and add: nothing is forgotten, nothing foreign comes in, and a
      trade with a close leg in the table can only be left alone or closed. */
  ghost predicate Extends(log: seq<Transaction>, s: Journal, s': Journal) {
    Sound(log, s') && KeyedById(s') && s'.watermark == s.watermark && s.raw.Keys <= s'.raw.Keys &&
    (forall id :: HasId(s.events, id) ==> HasId(s'.events, id)) &&
    (forall trade :: HasCloseLeg(s, trade) ==> s'.Trade(trade) == s.Trade(trade) || !LocallyOpen(s'.Trade(trade)))
  }

  ghost predicate HasCloseLeg(s: Journal, trade: string) {
    exists e <- s.events :: e.ClosesTrade(trade)
  }

  /** A transaction is in, and with `shown` every trade it closes is shown closed or not at all. */
  ghost predicate Taken(s: Journal, tx: Transaction, shown: bool) {
    Covered(s, tx) && (shown ==> forall trade :: Finishes(tx, trade) ==> !LocallyOpen(s.Trade(trade)))
  }

  lemma CloseLegMeansFullyClosed(s: Journal, trade: string)
    requires DistinctIds(s.events)
    ensures HasCloseLeg(s, trade) <==> FullyClosed(LegsOf(s.events, trade))
  {
    ListingIsTheMatchesInOrder(s.events, Query(None, None, None, Some(trade), {}));
    var legs := LegsOf(s.events, trade);
    if HasCloseLeg(s, trade) {
      var e :| e in s.events && e.ClosesTrade(trade);
      assert e in legs;
    }
  }

  lemma SameIdSameSubject(log: seq<Transaction>, e: Event, f: Event)
    requires MadeBy(log, e) && MadeBy(log, f) && e.id == f.id
    ensures e.Label() == f.Label() && SubjectOf(e) == SubjectOf(f)
  {
    forall i, j | 0 <= i < |log| && 0 <= j < |log| && Makes(log[i], e) && Makes(log[j], f)
      ensures e.Label() == f.Label() && SubjectOf(e) == SubjectOf(f)
    {
      EventIdsSeparateTransactions(log[i], log[j], e, f);
    }
  }

  /** Two events with the same id close the same trade, if they close any. */
  lemma SameIdSameClose(log: seq<Transaction>, e: Event, f: Event, trade: string)
    requires MadeBy(log, e) && MadeBy(log, f) && e.id == f.id && e.ClosesTrade(trade)
    ensures f.ClosesTrade(trade)
  {
    SameIdSameSubject(log, e, f);
    assert f.Label() == "CLOSE";
  }

  lemma {:induction false} DeliveryStaysSound(log: seq<Transaction>, docs: seq<Event>, es: seq<Event>)
    requires DistinctIds(docs) && (forall e <- docs :: MadeBy(log, e)) && (forall e <- es :: MadeBy(log, e))
    ensures DistinctIds(UpsertAll(docs, es)) && forall e <- UpsertAll(docs, es) :: MadeBy(log, e)
  {
    if es != [] {
      var n := |es| - 1;
      DeliveryStaysSound(log, docs, es[..n]);
      UpsertKeepsIdsDistinct(UpsertAll(docs, es[..n]), es[n]);
      assert es[n] in es;
    }
  }

  lemma {:induction false} DeliveryKeepsIds(docs: seq<Event>, es: seq<Event>, id: string)
    requires DistinctIds(docs)
    ensures HasId(UpsertAll(docs, es), id) <==> HasId(docs, id) || HasId(es, id)
  {
    LookupAfterDelivery(docs, es, id);
    LookupMember(UpsertAll(docs, es), id);
    LookupMember(docs, id);
    LastWrittenIsMember(Lookup(docs, id), es, id);
  }

  lemma {:induction false} RawRows(raw: map<nat, Transaction>, txs: seq<Transaction>)
    ensures raw.Keys <= PutAllRaw(raw, txs).Keys
    ensures forall tx <- txs :: tx.id in PutAllRaw(raw, txs)
    ensures forall id :: id in PutAllRaw(raw, txs) ==>
              (id in raw && PutAllRaw(raw, txs)[id] == raw[id]) || (PutAllRaw(raw, txs)[id] in txs && PutAllRaw(raw, txs)[id].id == id)
  {
    if txs != [] {
      var n := |txs| - 1;
      RawRows(raw, txs[..n]);
      assert txs == txs[..n] + [txs[n]];
    }
  }

  lemma BatchEventsAreMade(log: seq<Transaction>, txs: seq<Transaction>, e: Event)
    requires (forall tx <- txs :: tx in log) && NormalizedAll(txs).Ok? && e in NormalizedAll(txs).value
    ensures MadeBy(log, e)
  {
    BatchIsItsTransactions(txs);
    var i :| 0 <= i < |txs| && Makes(txs[i], e);
    assert txs[i] in log;
  }

  /** The tables after an import, finished or not. */
  lemma ImportKeepsTheTables(registry: Registry, log: seq<Transaction>, s: Journal, s': Journal, txs: seq<Transaction>, done: bool)
    requires Sound(log, s) && (forall tx <- txs :: tx in log)
    requires Imported(registry, s, s', txs, done)
    ensures Sound(log, s') && s.raw.Keys <= s'.raw.Keys
    ensures forall id :: HasId(s.events, id) ==> HasId(s'.events, id)
  {
    var j :| 0 <= j <= |txs| && s'.raw == PutAllRaw(s.raw, txs[..j]);
    RawRows(s.raw, txs[..j]);
    if NormalizedAll(txs).Ok? {
      var es := NormalizedAll(txs).value;
      var k :| 0 <= k <= |es| && s'.events == UpsertAll(s.events, es[..k]);
      forall e | e in es[..k] ensures MadeBy(log, e) {
        assert e in es;
        BatchEventsAreMade(log, txs, e);
      }
      DeliveryStaysSound(log, s.events, es[..k]);
      forall id | HasId(s.events, id) ensures HasId(s'.events, id) {
        DeliveryKeepsIds(s.events, es[..k], id);
      }
    }
  }

  lemma CloseLegsStay(log: seq<Transaction>, s: Journal, s': Journal, trade: string)
    requires Sound(log, s) && Sound(log, s') && (forall id :: HasId(s.events, id) ==> HasId(s'.events, id))
    requires HasCloseLeg(s, trade)
    ensures HasCloseLeg(s', trade)
  {
    var e :| e in s.events && e.ClosesTrade(trade);
    assert HasId(s.events, e.id);
    var i :| 0 <= i < |s'.events| && s'.events[i].id == e.id;
    SameIdSameClose(log, e, s'.events[i], trade);
  }

  /** A record that was left alone or projected keeps its key, and is not open next to a close leg. */
  lemma WrittenRecord(registry: Registry, s: Journal, s': Journal, trade: string)
    requires LeftOrProjected(registry, s, s', trade) && DistinctIds(s'.events)
    ensures s'.Trade(trade) == s.Trade(trade) || s'.trades[trade].tradeId == trade
    ensures s'.Trade(trade) == s.Trade(trade) || !HasCloseLeg(s', trade) || !LocallyOpen(s'.Trade(trade))
  {
    if s'.Trade(trade) != s.Trade(trade) {
      ProjectedStateFollowsTheLegs(registry, s.Trade(trade), LegsOf(s'.events, trade), trade);
      CloseLegMeansFullyClosed(s', trade);
    }
  }

  lemma ImportExtends(registry: Registry, log: seq<Transaction>, s: Journal, s': Journal, txs: seq<Transaction>, done: bool)
    requires Sound(log, s) && KeyedById(s) && (forall tx <- txs :: tx in log)
    requires Imported(registry, s, s', txs, done)
    ensures Extends(log, s, s')
  {
    ImportKeepsTheTables(registry, log, s, s', txs, done);
    forall trade
      ensures trade in s'.trades ==> s'.trades[trade].tradeId == trade
      ensures HasCloseLeg(s, trade) ==> s'.Trade(trade) == s.Trade(trade) || !LocallyOpen(s'.Trade(trade))
    {
      if NormalizedAll(txs).Ok? {
        WrittenRecord(registry, s, s', trade);
      }
      if HasCloseLeg(s, trade) {
        CloseLegsStay(log, s, s', trade);
      }
      if trade in s'.trades && s'.Trade(trade) == s.Trade(trade) {
        assert trade in s.trades;
      }
    }
  }

  lemma ImportedEvent(registry: Registry, s: Journal, s': Journal, txs: seq<Transaction>, tx: Transaction, e: Event)
    requires DistinctIds(s.events) && tx in txs && Makes(tx, e) && Imported(registry, s, s', txs, true)
    ensures e in NormalizedAll(txs).value && HasId(s'.events, e.id)
  {
    BatchHolds(txs, tx, e);
    MemberHasId(NormalizedAll(txs).value, e);
    DeliveryKeepsIds(s.events, NormalizedAll(txs).value, e.id);
  }

  lemma BatchHolds(txs: seq<Transaction>, tx: Transaction, e: Event)
    requires NormalizedAll(txs).Ok? && tx in txs && Makes(tx, e)
    ensures e in NormalizedAll(txs).value
  {
    BatchIsItsTransactions(txs);
    var i :| 0 <= i < |txs| && txs[i] == tx;
    assert Makes(txs[i], e);
  }

  lemma MemberHasId(es: seq<Event>, e: Event)
    requires e in es
    ensures HasId(es, e.id)
  {
  }

  lemma ImportCloses(registry: Registry, log: seq<Transaction>, s: Journal, s': Journal, txs: seq<Transaction>, e: Event, trade: string)
    requires Imported(registry, s, s', txs, true) && Sound(log, s')
    requires e in NormalizedAll(txs).value && HasId(s'.events, e.id) && e.ClosesTrade(trade) && MadeBy(log, e)
    ensures !LocallyOpen(s'.Trade(trade))
  {
    var k :| 0 <= k < |s'.events| && s'.events[k].id == e.id;
    SameIdSameClose(log, e, s'.events[k], trade);
    CloseLegMeansFullyClosed(s', trade);
    assert trade in TradeIds(NormalizedAll(txs).value);
    if trade in s'.trades {
      SettledWithACloseLegIsClosed(registry, s', trade);
    }
  }

  /** A finished import has taken every transaction of its batch. */
  lemma ImportTakes(registry: Registry, log: seq<Transaction>, s: Journal, s': Journal, txs: seq<Transaction>, tx: Transaction)
    requires Sound(log, s) && (forall t <- txs :: t in log) && tx in txs
    requires Imported(registry, s, s', txs, true)
    ensures Taken(s', tx, true)
  {
    ImportKeepsTheTables(registry, log, s, s', txs, true);
    RawRows(s.raw, txs);
    BatchIsItsTransactions(txs);
    forall e | Makes(tx, e) ensures HasId(s'.events, e.id) {
      ImportedEvent(registry, s, s', txs, tx, e);
    }
    forall trade | Finishes(tx, trade) ensures !LocallyOpen(s'.Trade(trade)) {
      var e :| Makes(tx, e) && e.ClosesTrade(trade);
      ImportedEvent(registry, s, s', txs, tx, e);
      BatchEventsAreMade(log, txs, e);
      ImportCloses(registry, log, s, s', txs, e, trade);
    }
  }

  lemma ExtendsTransitive(log: seq<Transaction>, a: Journal, b: Journal, c: Journal)
    requires Sound(log, a) && Extends(log, a, b) && Extends(log, b, c)
    ensures Extends(log, a, c)
  {
    forall trade | HasCloseLeg(a, trade) ensures c.Trade(trade) == a.Trade(trade) || !LocallyOpen(c.Trade(trade)) {
      CloseLegsStay(log, a, b, trade);
    }
  }

  /** What was taken stays taken. */
  lemma TakenStays(log: seq<Transaction>, s: Journal, s': Journal, tx: Transaction, shown: bool)
    requires Sound(log, s) && Extends(log, s, s') && tx in log && Taken(s, tx, shown)
    ensures Taken(s', tx, shown)
  {
    if shown {
      forall trade | Finishes(tx, trade) ensures !LocallyOpen(s'.Trade(trade)) {
        CoveredCloseIsInTheTable(log, s, tx, trade);
      }
    }
  }

  lemma CoveredCloseIsInTheTable(log: seq<Transaction>, s: Journal, tx: Transaction, trade: string)
    requires Sound(log, s) && tx in log && Covered(s, tx) && Finishes(tx, trade)
    ensures HasCloseLeg(s, trade)
  {
    var e :| Makes(tx, e) && e.ClosesTrade(trade);
    var i :| 0 <= i < |s.events| && s.events[i].id == e.id;
    assert MadeBy(log, e);
    SameIdSameClose(log, e, s.events[i], trade);
  }

  lemma {:induction false} ChunksExtend(
    registry: Registry, log: seq<Transaction>, s: Journal, s': Journal, requests: seq<Request>, done: bool)
    requires Sound(log, s) && KeyedById(s) && RequestedFrom(log, requests) && ImportedChunks(registry, requests, s, s', done)
    ensures Extends(log, s, s')
    ensures done ==> forall tx <- Answers(requests) :: Taken(s', tx, true)
    decreases |requests|
  {
    if requests != [] {
      var n := |requests| - 1;
      var txs := requests[n].Answer();
      var m :| ImportedChunks(registry, requests[..n], s, m, true) && Imported(registry, m, s', txs, done);
      FirstRequests(log, requests);
      ChunksExtend(registry, log, s, m, requests[..n], true);
      ImportExtends(registry, log, m, s', txs, done);
      ExtendsTransitive(log, s, m, s');
      if done {
        AnswersStayInTheLog(log, requests[..n]);
        forall tx | tx in Answers(requests) ensures Taken(s', tx, true) {
          if tx in txs {
            ImportTakes(registry, log, m, s', txs, tx);
          } else {
            TakenStays(log, m, s', tx, true);
          }
        }
      }
    }
  }

  lemma FirstRequests(log: seq<Transaction>, requests: seq<Request>)
    requires RequestedFrom(log, requests) && requests != []
    ensures RequestedFrom(log, requests[..|requests| - 1])
    ensures forall tx <- requests[|requests| - 1].Answer() :: tx in log
  {
    assert requests[|requests| - 1] in requests;
    AnswerStaysInTheLog(log, requests[|requests| - 1]);
  }

  /** What a backfill does before it looks at the watermark. */
  lemma BackfillExtends(registry: Registry, log: seq<Transaction>, s: Journal, s': Journal, requests: seq<Request>, ok: bool)
    requires Sound(log, s) && KeyedById(s) && RequestedFrom(log, requests) && Backfilled(registry, requests, s, s', ok)
    ensures Extends(log, s, s'.(watermark := s.watermark))
    ensures ok ==> forall tx <- Answers(requests) :: Taken(s', tx, true)
    ensures s'.watermark == if ok then Advanced(s.watermark, LargestId(Answers(requests))) else s.watermark
  {
    var n, m, done :|
      0 <= n <= |requests| && (ok ==> done && n == |requests|) && ImportedChunks(registry, requests[..n], s, m, done) &&
      s' == m.(watermark := if ok then Advanced(s.watermark, LargestId(Answers(requests))) else s.watermark);
    ChunksExtend(registry, log, s, m, requests[..n], done);
    assert s'.(watermark := s.watermark) == m;
    if ok {
      assert requests[..n] == requests;
      forall tx | tx in Answers(requests) ensures Taken(s', tx, true) {
        assert Taken(m, tx, true);
      }
    }
  }

  // ---- The watermark -------------------------------------------------------------------

  /** NoGap and ClosesShown in one statement per transaction. */
  ghost predicate AllTaken(log: seq<Transaction>, s: Journal, base: Option<nat>, shown: bool) {
    s.watermark.Some? ==>
      base.Some? && s.watermark.value <= LastId(log) &&
      forall tx <- log :: Between(tx, base.value, s.watermark.value) ==> Taken(s, tx, shown)
  }

  lemma AllTakenIsGood(c: Config, shown: bool)
    requires WellFormed(c.log) && Sound(c.log, c.s) && KeyedById(c.s)
    ensures Good(c, shown) <==> AllTaken(c.log, c.s, c.base, shown)
  {
  }

  /** Without a move of the watermark an extension keeps everything taken. */
  lemma ExtensionKeepsTaken(log: seq<Transaction>, s: Journal, s': Journal, base: Option<nat>, shown: bool)
    requires Sound(log, s) && AllTaken(log, s, base, shown) && Extends(log, s, s')
    ensures AllTaken(log, s', base, shown)
  {
    if s.watermark.Some? {
      forall tx | tx in log && Between(tx, base.value, s.watermark.value) ensures Taken(s', tx, shown) {
        TakenStays(log, s, s', tx, shown);
      }
    }
  }

  /** Moving the watermark over taken transactions keeps everything taken. */
  lemma MoveWatermark(log: seq<Transaction>, s: Journal, base: Option<nat>, mark: nat, shown: bool)
    requires AllTaken(log, s, base, shown) && s.watermark.Some? && mark <= LastId(log)
    requires forall tx <- log :: Between(tx, s.watermark.value, mark) ==> Taken(s, tx, true)
    ensures AllTaken(log, s.(watermark := Some(mark)), base, shown)
  {
    var s' := s.(watermark := Some(mark));
    forall tx | tx in log && Between(tx, base.value, mark) ensures Taken(s', tx, shown) {
      assert Taken(s, tx, shown) || Taken(s, tx, true);
    }
  }

  lemma SyncKeepsGood(registry: Registry, c: Config, c': Config, ok: bool, shown: bool)
    requires Good(c, shown) && Next(registry, c, c', Sync(ok))
    ensures Good(c', shown)
  {
    var log, s, s' := c.log, c.s, c'.s;
    if s.watermark.Some? {
      var mark := s.watermark.value;
      var m := s'.(watermark := s.watermark);
      var txs := Since(log, mark);
      var done :| (ok ==> done) && Imported(registry, s, m, txs, done);
      SinceMembers(log, mark);
      ImportExtends(registry, log, s, m, txs, done);
      ExtensionKeepsTaken(log, s, m, c.base, shown);
      if ok {
        forall tx | tx in log && Between(tx, mark, LastId(log)) ensures Taken(m, tx, true) {
          ImportTakes(registry, log, s, m, txs, tx);
        }
        MoveWatermark(log, m, c.base, LastId(log), shown);
      }
      assert s' == if ok then m.(watermark := Some(LastId(log))) else m;
    }
    AllTakenIsGood(c', shown);
  }

  lemma {:induction false} LargestIsThere(txs: seq<Transaction>)
    ensures LargestId(txs).Some? <==> txs != []
    ensures txs != [] ==> exists tx <- txs :: tx.id == LargestId(txs).value
  {
    if txs != [] {
      LargestIsThere(txs[..|txs| - 1]);
      assert txs[|txs| - 1] in txs;
    }
  }

  /** The newest transaction a backfill has seen. */
  lemma TopOfAnswers(log: seq<Transaction>, requests: seq<Request>) returns (k: nat, top: Transaction)
    requires RequestedFrom(log, requests) && LargestId(Answers(requests)).Some?
    ensures k < |requests| && top in requests[k].log && top in log && top.time <= requests[k].end
    ensures InWindow(top, requests[k].start, requests[k].end, requests[k].closedEnd)
    ensures top.id == LargestId(Answers(requests)).value
  {
    LargestIsThere(Answers(requests));
    top :| top in Answers(requests) && top.id == LargestId(Answers(requests)).value;
    AnswersMember(requests, top);
    k :| 0 <= k < |requests| && top in requests[k].Answer();
    var r := requests[k];
    WindowMembers(r.log, r.start, r.end, r.closedEnd);
    assert r in requests;
    AnswerStaysInTheLog(log, r);
  }

  /** A transaction that no request's answer held: it lies before the window, or it came in
      after its own chunk was requested. */
  ghost predicate Missed(requests: seq<Request>, start: int, tx: Transaction) {
    tx.time < start || exists i :: 0 <= i < |requests| && CameTooLate(requests[i], tx)
  }

  ghost predicate CameTooLate(r: Request, tx: Transaction) {
    r.start <= tx.time < r.end && tx !in r.log
  }

  lemma InTheLogThen(log: seq<Transaction>, held: seq<Transaction>, tx: Transaction, top: Transaction)
    requires WellFormed(log) && held <= log && tx in log && top in held && tx.id <= top.id
    ensures tx in held && tx.time <= top.time
  {
    var i :| 0 <= i < |log| && log[i] == tx;
    var j :| 0 <= j < |held| && held[j] == top;
    assert log[j] == top && i <= j && held[i] == tx;
  }

  /** A time from the start of a window to the end of the k-th chunk lies in a chunk, or at the
      end of the window. */
  lemma {:induction false} ChunkOf(requests: seq<Request>, start: int, end: int, t: int, k: nat) returns (i: nat)
    requires RequestsFor(requests, start, end) && start <= t && k < |requests| && t <= requests[k].end
    ensures i < |requests| && requests[i].start <= t
    ensures t < requests[i].end || (t == requests[i].end && i == k == |requests| - 1)
  {
    if requests[k].start <= t < requests[k].end {
      i := k;
    } else if t == requests[k].end {
      if k + 1 < |requests| {
        ChunksFollow(requests, start, end, k);
        i := k + 1;
      } else {
        ChunkIsLong(requests, start, end, k);
        i := k;
      }
    } else {
      ChunkIsLong(requests, start, end, 0);
      ChunksFollow(requests, start, end, k - 1);
      i := ChunkOf(requests, start, end, t, k - 1);
    }
  }

  lemma ChunkIsLong(requests: seq<Request>, start: int, end: int, i: nat)
    requires RequestsFor(requests, start, end) && i < |requests|
    ensures requests[i].start < requests[i].end && requests[0].start == start && requests[|requests| - 1].end == end
  {
    var last := |requests| - 1;
    ChunksTileTheWindow(start, end, CHUNK);
    assert forall n :: 0 <= n < |requests| ==> (requests[n].start, requests[n].end) == Chunks(start, end, CHUNK)[n];
  }

  lemma ChunksFollow(requests: seq<Request>, start: int, end: int, i: nat)
    requires RequestsFor(requests, start, end) && i + 1 < |requests|
    ensures requests[i].end == requests[i + 1].start < requests[i + 1].end && requests[i].log <= requests[i + 1].log
  {
    ChunkIsLong(requests, start, end, i + 1);
    ChunksTileTheWindow(start, end, CHUNK);
    var chunks := Chunks(start, end, CHUNK);
    assert (requests[i].start, requests[i].end) == chunks[i] && (requests[i + 1].start, requests[i + 1].end) == chunks[i + 1];
  }

  /** What an answer misses, exactly, of the transactions up to the largest id seen. */
  lemma MissedIff(log: seq<Transaction>, requests: seq<Request>, start: int, end: int, tx: Transaction)
    requires WellFormed(log) && RequestedFrom(log, requests) && RequestsFor(requests, start, end)
    requires tx in log && tx.Requested()
    requires LargestId(Answers(requests)).Some? && tx.id <= LargestId(Answers(requests)).value
    ensures tx !in Answers(requests) <==> Missed(requests, start, tx)
  {
    if tx in Answers(requests) {
      AnsweredIsNotMissed(requests, start, end, tx);
    } else if !Missed(requests, start, tx) {
      var k, top := TopOfAnswers(log, requests);
      assert requests[k] in requests;
      InTheLogThen(log, requests[k].log, tx, top);
      var i := ChunkOf(requests, start, end, tx.time, k);
      assert !CameTooLate(requests[i], tx);
      AnsweredThere(requests, tx, if tx.time < requests[i].end then i else k);
    }
  }

  lemma AnsweredThere(requests: seq<Request>, tx: Transaction, i: nat)
    requires i < |requests| && tx in requests[i].log && InWindow(tx, requests[i].start, requests[i].end, requests[i].closedEnd)
    ensures tx in Answers(requests)
  {
    var r := requests[i];
    WindowMembers(r.log, r.start, r.end, r.closedEnd);
    AnswersMember(requests, tx);
  }

  lemma AnsweredIsNotMissed(requests: seq<Request>, start: int, end: int, tx: Transaction)
    requires RequestsFor(requests, start, end) && tx in Answers(requests)
    ensures !Missed(requests, start, tx)
  {
    AnswersMember(requests, tx);
    var k :| 0 <= k < |requests| && tx in requests[k].Answer();
    WindowMembers(requests[k].log, requests[k].start, requests[k].end, requests[k].closedEnd);
    ChunksKeepOrder(requests, start, end, 0, k);
    ChunkIsLong(requests, start, end, k);
    forall i | 0 <= i < |requests| ensures !CameTooLate(requests[i], tx) {
      if i < k {
        ChunksKeepOrder(requests, start, end, i, k);
      } else {
        LogsGrow(requests, start, end, k, i);
      }
    }
  }

  lemma LogsGrow(requests: seq<Request>, start: int, end: int, i: nat, j: nat)
    requires RequestsFor(requests, start, end) && i <= j < |requests|
    ensures forall tx <- requests[i].log :: tx in requests[j].log
  {
    assert requests[i].log <= requests[j].log;
  }

  /** Chunks follow one another. */
  lemma ChunksKeepOrder(requests: seq<Request>, start: int, end: int, i: nat, j: nat)
    requires RequestsFor(requests, start, end) && i <= j < |requests|
    ensures start <= requests[i].start <= requests[j].start && (i < j ==> requests[i].end <= requests[j].start)
  {
    ChunkIsLong(requests, start, end, i);
    StartsInOrder(requests, start, end, 0, i);
    if i < j {
      ChunksFollow(requests, start, end, i);
      StartsInOrder(requests, start, end, i + 1, j);
    }
  }

  lemma {:induction false} StartsInOrder(requests: seq<Request>, start: int, end: int, i: nat, j: nat)
    requires RequestsFor(requests, start, end) && i <= j < |requests|
    ensures requests[i].start <= requests[j].start
  {
    if i < j {
      StartsInOrder(requests, start, end, i, j - 1);
      ChunksFollow(requests, start, end, j - 1);
      ChunkIsLong(requests, start, end, j - 1);
    }
  }

  /** When the window reaches back far enough and its chunks were over, nothing is missed. */
  lemma NothingMissed(log: seq<Transaction>, requests: seq<Request>, start: int, end: int, tx: Transaction)
    requires WellFormed(log) && RequestedFrom(log, requests) && RequestsFor(requests, start, end)
    requires OverWhenRequested(requests, log) && tx in log && tx.Requested() && start <= tx.time
    requires LargestId(Answers(requests)).Some? && tx.id <= LargestId(Answers(requests)).value
    ensures tx in Answers(requests)
  {
    var k, top := TopOfAnswers(log, requests);
    assert requests[k] in requests;
    InTheLogThen(log, requests[k].log, tx, top);
    forall i | 0 <= i < |requests| ensures !CameTooLate(requests[i], tx) {
      if i < |requests| - 1 {
        assert Over(requests[i], log);
      } else {
        LogsGrow(requests, start, end, k, i);
      }
    }
    MissedIff(log, requests, start, end, tx);
  }

  lemma LargestStaysInTheLog(log: seq<Transaction>, requests: seq<Request>)
    requires WellFormed(log) && RequestedFrom(log, requests) && LargestId(Answers(requests)).Some?
    ensures LargestId(Answers(requests)).value <= LastId(log)
  {
    var k, top := TopOfAnswers(log, requests);
    LastIdIsLargest(log, top);
  }

  lemma BackfillKeepsGood(
    registry: Registry, c: Config, c': Config, requests: seq<Request>, start: int, end: int, ok: bool, shown: bool)
    requires Good(c, shown) && Next(registry, c, c', Backfill(requests, start, end, ok))
    ensures Good(c', shown)
  {
    var log, s, s' := c'.log, c.s, c'.s;
    var m := s'.(watermark := s.watermark);
    AllTakenIsGood(c, shown);
    GrowthKeepsSound(c.log, log, s);
    GrowthKeepsTaken(c.log, log, s, c.base, shown);
    BackfillExtends(registry, log, s, s', requests, ok);
    ExtensionKeepsTaken(log, s, m, c.base, shown);
    var largest := LargestId(Answers(requests));
    if s'.watermark != s.watermark {
      LargestStaysInTheLog(log, requests);
      if s.watermark.Some? {
        forall tx | tx in log && Between(tx, s.watermark.value, largest.value) ensures Taken(m, tx, true) {
          NothingMissed(log, requests, start, end, tx);
          assert Taken(s', tx, true);
        }
        MoveWatermark(log, m, c.base, largest.value, shown);
      }
      assert s' == m.(watermark := largest);
    } else {
      assert s' == m;
    }
    AllTakenIsGood(c', shown);
  }

  lemma LaterTransactionsAreNewer(log: seq<Transaction>, more: seq<Transaction>, tx: Transaction)
    requires WellFormed(more) && log <= more && tx in more && 0 < tx.id <= LastId(log)
    ensures tx in log && LastId(log) <= LastId(more)
  {
    var i :| 0 <= i < |more| && more[i] == tx;
    assert log[|log| - 1] == more[|log| - 1];
    assert i < |log| && more[i] == log[i];
  }

  lemma LastIdGrows(log: seq<Transaction>, more: seq<Transaction>)
    requires WellFormed(more) && log <= more
    ensures LastId(log) <= LastId(more)
  {
    if log != [] {
      assert log[|log| - 1] == more[|log| - 1];
    }
  }

  lemma GrowthKeepsSound(log: seq<Transaction>, more: seq<Transaction>, s: Journal)
    requires log <= more && Sound(log, s)
    ensures Sound(more, s)
  {
    forall e | MadeBy(log, e) ensures MadeBy(more, e) {
      var i :| 0 <= i < |log| && Makes(log[i], e);
      assert more[i] == log[i];
    }
  }

  lemma GrownIsGood(c: Config, c': Config, shown: bool)
    requires Good(c, shown) && c.log <= c'.log && WellFormed(c'.log) && c'.s == c.s && c'.base == Rebased(c.base, c.s, c'.s)
    ensures Good(c', shown)
  {
    AllTakenIsGood(c, shown);
    GrowthKeepsSound(c.log, c'.log, c.s);
    GrowthKeepsTaken(c.log, c'.log, c.s, c.base, shown);
    AllTakenIsGood(c', shown);
  }

  lemma GrowthKeepsTaken(log: seq<Transaction>, more: seq<Transaction>, s: Journal, base: Option<nat>, shown: bool)
    requires AllTaken(log, s, base, shown) && log <= more && WellFormed(more)
    ensures AllTaken(more, s, base, shown)
  {
    if s.watermark.Some? {
      LastIdGrows(log, more);
      forall tx | tx in more && Between(tx, base.value, s.watermark.value) ensures Taken(s, tx, shown) {
        LaterTransactionsAreNewer(log, more, tx);
      }
    }
  }

  /** The cycle reaches a trade its open-trades answer lists. */
  predicate Lists(action: Action, trade: string) {
    action.Poll? && trade in action.done && trade in action.view.current
  }

  /** A coherent answer lists no trade whose CLOSE leg is in the table. */
  lemma CoherentPollsListNoClosedTrade(c: Config, action: Action, trade: string)
    requires Sound(c.log, c.s) && CoherentStep(c, action) && HasCloseLeg(c.s, trade)
    ensures !Lists(action, trade)
  {
    var e :| e in c.s.events && e.ClosesTrade(trade);
    var i :| 0 <= i < |c.log| && Makes(c.log[i], e);
    assert c.log[i] in c.log && Finishes(c.log[i], trade);
  }

  /** The one way to reopen a closed record: a poll whose answer still lists the trade. */
  lemma PollReopensIff(
    registry: Registry, view: BrokerView, now: int, s: Journal, s': Journal, done: set<string>, trade: string)
    requires Polled(registry, view, now, s, s', done) && !LocallyOpen(s.Trade(trade))
    ensures LocallyOpen(s'.Trade(trade)) <==> trade in done && trade in view.current
    ensures !(trade in done && trade in view.current) ==> s'.Trade(trade) == s.Trade(trade)
  {
  }

  const STALE: OpenTrade := OpenTrade("EUR_USD", 1.0, 1.1, None, None, None, Some(0))
  const STALE_VIEW: BrokerView := BrokerView(map["7" := STALE], map[], map[], {"EUR_USD"})
  const CLOSE_LEG: Event :=
    TradeEvent("6:CLOSE:7", 6, Close, "EUR_USD", "7", -1.0, Short, Some(1.2), 1.0, 0.0, 0.0, 1.0, 100, None, Null)

  /** A closed record, its CLOSE leg, and a poll whose answer is from before the close. */
  lemma StalePollReopens(registry: Registry, closing: Closing)
    ensures var open := OpenedRecord("7", STALE, None, 0);
            var s := Journal(map[], [CLOSE_LEG], map["7" := open.(closing := Some(closing))], None);
            var s' := s.(trades := map["7" := open]);
            ClosedForGood(s, "7") && Polled(registry, STALE_VIEW, 200, s, s', {"7"}) && !ClosedForGood(s', "7")
  {
    TimelessIsValid("7", 0);
    assert CLOSE_LEG.ClosesTrade("7");
  }

  lemma PollKeepsGood(registry: Registry, c: Config, c': Config, view: BrokerView, now: int, done: set<string>, shown: bool)
    requires Good(c, shown) && Next(registry, c, c', Poll(view, now, done))
    requires shown ==> Coherent(c.log, view)
    ensures Good(c', shown)
  {
    AllTakenIsGood(c, shown);
    if c.s.watermark.Some? && shown {
      forall tx | tx in c.log && Between(tx, c.base.value, c.s.watermark.value) ensures Taken(c'.s, tx, true) {
        forall trade | Finishes(tx, trade) ensures !LocallyOpen(c'.s.Trade(trade)) {
          CoveredCloseIsInTheTable(c.log, c.s, tx, trade);
          CoherentPollsListNoClosedTrade(c, Poll(view, now, done), trade);
          PollReopensIff(registry, view, now, c.s, c'.s, done, trade);
        }
      }
    }
    AllTakenIsGood(c', shown);
  }

  lemma StepKeepsGood(registry: Registry, c: Config, c': Config, action: Action, shown: bool)
    requires Good(c, shown) && Next(registry, c, c', action) && (shown ==> CoherentStep(c, action))
    ensures Good(c', shown)
  {
    match action
    case Grow => GrownIsGood(c, c', shown);
    case Sync(ok) => SyncKeepsGood(registry, c, c', ok, shown);
    case Backfill(requests, start, end, ok) => BackfillKeepsGood(registry, c, c', requests, start, end, ok, shown);
    case Poll(view, now, done) => PollKeepsGood(registry, c, c', view, now, done, shown);
  }

  lemma StepOfRunKeepsGood(registry: Registry, run: seq<Config>, actions: seq<Action>, i: nat)
    requires IsRun(registry, run, actions) && i < |actions| && Good(run[i], false)
    ensures Good(run[i + 1], false)
  {
    assert StepAt(registry, run, actions, i);
    StepKeepsGood(registry, run[i], run[i + 1], actions[i], false);
  }

  lemma StepOfCoherentRunKeepsGood(registry: Registry, run: seq<Config>, actions: seq<Action>, i: nat)
    requires IsCoherentRun(registry, run, actions) && i < |actions| && Good(run[i], true)
    ensures Good(run[i + 1], true)
  {
    assert StepAt(registry, run, actions, i) && CoherentAt(run, actions, i);
    StepKeepsGood(registry, run[i], run[i + 1], actions[i], true);
  }

  /** In every run, at every point of it: nothing foreign in the tables, and no gap up to the
      watermark. */
  lemma {:induction false} EveryRunStaysGood(registry: Registry, run: seq<Config>, actions: seq<Action>, i: nat)
    requires IsRun(registry, run, actions) && i < |run|
    ensures Good(run[i], false)
  {
    if i > 0 {
      EveryRunStaysGood(registry, run, actions, i - 1);
      StepOfRunKeepsGood(registry, run, actions, i - 1);
    }
  }

  /** In runs of coherent polls, no trade is shown open whose close the watermark has passed. */
  lemma {:induction false} EveryCoherentRunShowsCloses(registry: Registry, run: seq<Config>, actions: seq<Action>, i: nat)
    requires IsCoherentRun(registry, run, actions) && i < |run|
    ensures Good(run[i], true)
  {
    if i > 0 {
      EveryCoherentRunShowsCloses(registry, run, actions, i - 1);
      StepOfCoherentRunKeepsGood(registry, run, actions, i - 1);
    }
  }

  // ---- Consequences --------------------------------------------------------------------

  /** The shown state of a trade that is closed and has its close leg in the table. */
  ghost predicate ClosedForGood(s: Journal, trade: string) {
    HasCloseLeg(s, trade) && !LocallyOpen(s.Trade(trade))
  }

  /** No step loses a close leg. */
  lemma StepKeepsCloseLegs(registry: Registry, c: Config, c': Config, action: Action, trade: string)
    requires Good(c, false) && Next(registry, c, c', action) && HasCloseLeg(c.s, trade)
    ensures HasCloseLeg(c'.s, trade)
    ensures !action.Poll? && !LocallyOpen(c.s.Trade(trade)) ==> !LocallyOpen(c'.s.Trade(trade))
  {
    match action
    case Grow =>
    case Sync(ok) =>
      if c.s.watermark.Some? {
        var m, mark := c'.s.(watermark := c.s.watermark), c.s.watermark.value;
        var done :| (ok ==> done) && Imported(registry, c.s, m, Since(c.log, mark), done);
        SinceMembers(c.log, mark);
        ImportExtends(registry, c.log, c.s, m, Since(c.log, mark), done);
        CloseLegsStay(c.log, c.s, m, trade);
      }
    case Backfill(requests, _, _, ok) =>
      GrowthKeepsSound(c.log, c'.log, c.s);
      BackfillExtends(registry, c'.log, c.s, c'.s, requests, ok);
      CloseLegsStay(c'.log, c.s, c'.s.(watermark := c.s.watermark), trade);
    case Poll(view, now, done) =>
  }

  /** A step reopens a closed trade exactly when it is a poll that lists it. */
  lemma StepReopensIff(registry: Registry, c: Config, c': Config, action: Action, trade: string)
    requires Good(c, false) && Next(registry, c, c', action) && ClosedForGood(c.s, trade)
    ensures ClosedForGood(c'.s, trade) <==> !Lists(action, trade)
  {
    StepKeepsCloseLegs(registry, c, c', action, trade);
    if action.Poll? {
      PollReopensIff(registry, action.view, action.now, c.s, c'.s, action.done, trade);
    }
  }

  lemma StepOfRunReopensIff(registry: Registry, run: seq<Config>, actions: seq<Action>, i: nat, trade: string)
    requires IsRun(registry, run, actions) && i < |actions| && ClosedForGood(run[i].s, trade)
    ensures ClosedForGood(run[i + 1].s, trade) <==> !Lists(actions[i], trade)
  {
    EveryRunStaysGood(registry, run, actions, i);
    assert StepAt(registry, run, actions, i);
    StepReopensIff(registry, run[i], run[i + 1], actions[i], trade);
  }

  /** Closing is final as long as no poll lists the trade again: whoever else writes, a closed
      trade whose close leg is in the table is never shown open. */
  lemma {:induction false} ClosedStaysClosed(registry: Registry, run: seq<Config>, actions: seq<Action>, i: nat, j: nat, trade: string)
    requires IsRun(registry, run, actions) && i <= j < |run| && ClosedForGood(run[i].s, trade)
    requires forall k :: i <= k < j ==> !Lists(actions[k], trade)
    ensures ClosedForGood(run[j].s, trade)
  {
    if i < j {
      ClosedStaysClosed(registry, run, actions, i, j - 1, trade);
      StepOfRunReopensIff(registry, run, actions, j - 1, trade);
    }
  }

  /** In runs of coherent polls closing is final. */
  lemma {:induction false} ClosingIsFinalInCoherentRuns(
    registry: Registry, run: seq<Config>, actions: seq<Action>, i: nat, j: nat, trade: string)
    requires IsCoherentRun(registry, run, actions) && i <= j < |run| && ClosedForGood(run[i].s, trade)
    ensures ClosedForGood(run[j].s, trade)
  {
    if i < j {
      ClosingIsFinalInCoherentRuns(registry, run, actions, i, j - 1, trade);
      NoStepOfCoherentRunLists(registry, run, actions, j - 1, trade);
      StepOfRunReopensIff(registry, run, actions, j - 1, trade);
    }
  }

  lemma NoStepOfCoherentRunLists(registry: Registry, run: seq<Config>, actions: seq<Action>, i: nat, trade: string)
    requires IsCoherentRun(registry, run, actions) && i < |actions| && HasCloseLeg(run[i].s, trade)
    ensures !Lists(actions[i], trade)
  {
    EveryRunStaysGood(registry, run, actions, i);
    assert CoherentAt(run, actions, i);
    CoherentPollsListNoClosedTrade(run[i], actions[i], trade);
  }

  // ---- What stays covered --------------------------------------------------------------

  lemma StepKeepsCovered(registry: Registry, c: Config, c': Config, action: Action, tx: Transaction)
    requires Good(c, false) && Next(registry, c, c', action) && Covered(c.s, tx)
    ensures Covered(c'.s, tx)
  {
    match action
    case Grow =>
    case Sync(ok) =>
      if c.s.watermark.Some? {
        var m, mark := c'.s.(watermark := c.s.watermark), c.s.watermark.value;
        var done :| (ok ==> done) && Imported(registry, c.s, m, Since(c.log, mark), done);
        SinceMembers(c.log, mark);
        ImportExtends(registry, c.log, c.s, m, Since(c.log, mark), done);
        CoveredStays(c.log, c.s, m, tx);
      }
    case Backfill(requests, _, _, ok) =>
      GrowthKeepsSound(c.log, c'.log, c.s);
      BackfillExtends(registry, c'.log, c.s, c'.s, requests, ok);
      CoveredStays(c'.log, c.s, c'.s.(watermark := c.s.watermark), tx);
    case Poll(view, now, done) =>
  }

  lemma StepOfRunKeepsCovered(registry: Registry, run: seq<Config>, actions: seq<Action>, i: nat, tx: Transaction)
    requires IsRun(registry, run, actions) && i < |actions| && Covered(run[i].s, tx)
    ensures Covered(run[i + 1].s, tx)
  {
    EveryRunStaysGood(registry, run, actions, i);
    assert StepAt(registry, run, actions, i);
    StepKeepsCovered(registry, run[i], run[i + 1], actions[i], tx);
  }

  lemma CoveredForever(registry: Registry, run: seq<Config>, actions: seq<Action>, i: nat, j: nat, tx: Transaction)
    requires IsRun(registry, run, actions) && i <= j < |run| && Covered(run[i].s, tx)
    ensures Covered(run[j].s, tx)
  {
    var holds := CoveredAlong(run, tx);
    forall k: nat | i <= k < j ensures PassesOn(holds, k) {
      if holds[k] {
        StepOfRunKeepsCovered(registry, run, actions, k, tx);
      }
    }
    Persists(holds, i, j);
  }

  ghost function CoveredAlong(run: seq<Config>, tx: Transaction): (holds: seq<bool>)
    ensures |holds| == |run| && forall k :: 0 <= k < |run| ==> holds[k] == Covered(run[k].s, tx)
  {
    seq(|run|, k requires 0 <= k < |run| => Covered(run[k].s, tx))
  }

  /** The step is a finished backfill that was sent the transaction. */
  ghost predicate InBackfill(actions: seq<Action>, i: nat, tx: Transaction)
    requires i < |actions|
  {
    actions[i].Backfill? && actions[i].ok && tx in Answers(actions[i].requests)
  }

  /** What a run has promised to have: everything between its first and its present watermark,
      and all that a finished backfill was sent, also before the first watermark. */
  ghost predicate Reached(run: seq<Config>, actions: seq<Action>, j: nat, tx: Transaction)
    requires |run| == |actions| + 1 && j < |run|
  {
    (tx in run[j].log && run[j].s.watermark.Some? && run[j].base.Some? &&
     Between(tx, run[j].base.value, run[j].s.watermark.value)) ||
    exists i :: 0 <= i < j && InBackfill(actions, i, tx)
  }

  lemma BackfillCovers(registry: Registry, run: seq<Config>, actions: seq<Action>, i: nat, tx: Transaction)
    requires IsRun(registry, run, actions) && i < |actions| && InBackfill(actions, i, tx)
    ensures Covered(run[i + 1].s, tx)
  {
    EveryRunStaysGood(registry, run, actions, i);
    assert StepAt(registry, run, actions, i);
    GrowthKeepsSound(run[i].log, run[i + 1].log, run[i].s);
    BackfillExtends(registry, run[i + 1].log, run[i].s, run[i + 1].s, actions[i].requests, true);
    assert Taken(run[i + 1].s, tx, true);
  }

  /** In every run, everything promised is there, for good. */
  lemma EveryReachedTransactionIsCovered(registry: Registry, run: seq<Config>, actions: seq<Action>, j: nat, tx: Transaction)
    requires IsRun(registry, run, actions) && j < |run| && Reached(run, actions, j, tx)
    ensures Covered(run[j].s, tx)
  {
    if i: nat :| i < j && InBackfill(actions, i, tx) {
      BackfillCovers(registry, run, actions, i, tx);
      CoveredForever(registry, run, actions, i + 1, j, tx);
    } else {
      EveryRunStaysGood(registry, run, actions, j);
    }
  }

  ghost predicate NotBelow(mark: Option<nat>, later: Option<nat>) {
    mark.Some? ==> later.Some? && mark.value <= later.value
  }

  lemma StepRaisesTheWatermark(registry: Registry, c: Config, c': Config, action: Action)
    requires Good(c, false) && Next(registry, c, c', action)
    ensures NotBelow(c.s.watermark, c'.s.watermark)
  {
  }

  lemma StepOfRunRaisesTheWatermark(registry: Registry, run: seq<Config>, actions: seq<Action>, i: nat)
    requires IsRun(registry, run, actions) && i < |actions|
    ensures NotBelow(run[i].s.watermark, run[i + 1].s.watermark)
  {
    EveryRunStaysGood(registry, run, actions, i);
    assert StepAt(registry, run, actions, i);
    StepRaisesTheWatermark(registry, run[i], run[i + 1], actions[i]);
  }

  /** The watermark never goes back in a run, whatever is aborted. */
  lemma WatermarkNeverFalls(registry: Registry, run: seq<Config>, actions: seq<Action>, i: nat, j: nat)
    requires IsRun(registry, run, actions) && i <= j < |run|
    ensures NotBelow(run[i].s.watermark, run[j].s.watermark)
  {
    var holds := seq(|run|, k requires 0 <= k < |run| => NotBelow(run[i].s.watermark, run[k].s.watermark));
    forall k: nat | i <= k < j ensures PassesOn(holds, k) {
      StepOfRunRaisesTheWatermark(registry, run, actions, k);
    }
    Persists(holds, i, j);
  }

  /** A sync that fetched `log` past `mark`, and imports and commits only now: another sync may
      have moved on in between, because reads start syncs without waiting for each other. */
  ghost predicate OverlappingSync(registry: Registry, log: seq<Transaction>, mark: nat, s: Journal, s': Journal) {
    Imported(registry, s, s'.(watermark := s.watermark), Since(log, mark), true) && s'.watermark == Some(LastId(log))
  }

  /** Committing an older fetch leaves no gap, but lowers the watermark exactly when its last id
      is smaller. */
  lemma OverlappingSyncKeepsNoGap(
    registry: Registry, log: seq<Transaction>, more: seq<Transaction>, s: Journal, s': Journal, base: Option<nat>, mark: nat)
    requires WellFormed(more) && log <= more && Sound(more, s) && KeyedById(s)
    requires s.watermark.Some? && NoGap(more, s, base) && mark <= s.watermark.value
    requires OverlappingSync(registry, log, mark, s, s')
    ensures NoGap(more, s', base)
    ensures NotBelow(s.watermark, s'.watermark) <==> s.watermark.value <= LastId(log)
  {
    var m, txs := s'.(watermark := s.watermark), Since(log, mark);
    SinceMembers(log, mark);
    LastIdGrows(log, more);
    ImportExtends(registry, more, s, m, txs, true);
    forall tx | tx in more && Between(tx, base.value, LastId(log)) ensures Covered(s', tx) {
      if tx.id <= mark {
        CoveredStays(more, s, m, tx);
      } else {
        LaterTransactionsAreNewer(log, more, tx);
        ImportTakes(registry, more, s, m, txs, tx);
      }
      assert Covered(m, tx);
    }
  }

  /** A transaction that cannot be normalized holds the watermark back for good. */
  lemma RejectedTransactionBlocksTheWatermark(
    registry: Registry, run: seq<Config>, actions: seq<Action>, i: nat, tx: Transaction)
    requires IsRun(registry, run, actions) && i < |run| && tx in run[i].log
    requires tx.Requested() && Normalized(tx).Rejected?
    requires run[i].s.watermark.Some? && run[i].base.Some? && run[i].base.value < tx.id
    ensures run[i].s.watermark.value < tx.id
  {
    EveryRunStaysGood(registry, run, actions, i);
  }

  /** A transaction's events do not contradict each other. */
  ghost predicate Unambiguous(tx: Transaction) {
    forall e, f :: Makes(tx, e) && Makes(tx, f) && e.id == f.id ==> e == f
  }

  /** No other event of the log has the id of an event of an unambiguous transaction. */
  lemma MadeOnce(log: seq<Transaction>, tx: Transaction, e: Event, f: Event)
    requires WellFormed(log) && tx in log && Unambiguous(tx) && Makes(tx, e) && MadeBy(log, f) && e.id == f.id
    ensures e == f
  {
    var j :| 0 <= j < |log| && Makes(log[j], f);
    EventIdsSeparateTransactions(tx, log[j], e, f);
    IdsAreUnique(log, tx, log[j]);
  }

  ghost predicate Complete(log: seq<Transaction>, s: Journal) {
    forall tx <- log :: tx.Requested() ==> Covered(s, tx)
  }

  /** An event of a covered transaction is in the table as it was made. */
  lemma CoveredEventsAreStored(log: seq<Transaction>, s: Journal, tx: Transaction, e: Event)
    requires WellFormed(log) && Sound(log, s) && tx in log && Unambiguous(tx) && Covered(s, tx) && Makes(tx, e)
    ensures e in s.events
  {
    var k :| 0 <= k < |s.events| && s.events[k].id == e.id;
    assert s.events[k] in s.events;
    MadeOnce(log, tx, e, s.events[k]);
  }

  /** Once every requested transaction of the log is covered, the table holds exactly the log's
      events, however they were delivered. */
  lemma TableIsTheNormalizedLog(log: seq<Transaction>, s: Journal, e: Event)
    requires WellFormed(log) && Sound(log, s) && Complete(log, s) && forall tx <- log :: Unambiguous(tx)
    ensures e in s.events <==> MadeBy(log, e)
  {
    if MadeBy(log, e) {
      var i :| 0 <= i < |log| && Makes(log[i], e);
      assert log[i] in log;
      CoveredEventsAreStored(log, s, log[i], e);
    }
  }

  /** A finished backfill of a window that holds the whole log leaves nothing of it out, as it
      was when the backfill began. */
  lemma BackfillOfTheLogCompletes(
    registry: Registry, log: seq<Transaction>, more: seq<Transaction>, s: Journal, s': Journal,
    requests: seq<Request>, start: int, end: int)
    requires Sound(more, s) && KeyedById(s) && GrowsOver(log, requests, more) && RequestsFor(requests, start, end)
    requires forall tx <- log :: tx.Requested() ==> start <= tx.time < end
    requires Backfilled(registry, requests, s, s', true)
    ensures Complete(log, s')
  {
    BackfillExtends(registry, more, s, s', requests, true);
    forall tx | tx in log && tx.Requested() ensures Covered(s', tx) {
      HeldByItsChunk(log, requests, start, end, tx);
      assert Taken(s', tx, true);
    }
  }

  lemma HeldByItsChunk(log: seq<Transaction>, requests: seq<Request>, start: int, end: int, tx: Transaction)
    requires RequestsFor(requests, start, end) && (forall r <- requests :: log <= r.log)
    requires tx in log && tx.Requested() && start <= tx.time < end
    ensures tx in Answers(requests)
  {
    ChunksTileTheWindow(start, end, CHUNK);
    var last := |requests| - 1;
    assert (requests[last].start, requests[last].end) == Chunks(start, end, CHUNK)[last];
    var i := ChunkOf(requests, start, end, tx.time, last);
    var r := requests[i];
    assert r in requests && log <= r.log;
    WindowMembers(r.log, r.start, r.end, r.closedEnd);
    AnswersMember(requests, tx);
  }

  // ---- Exactly when a backfill leaves no gap -------------------------------------------

  /** What an import adds to the tables comes from its batch. */
  lemma ImportAddsOnlyItsOwn(registry: Registry, log: seq<Transaction>, s: Journal, s': Journal, txs: seq<Transaction>, done: bool, tx: Transaction)
    requires WellFormed(log) && Sound(log, s) && (forall t <- txs :: t in log) && tx in log && tx !in txs
    requires Imported(registry, s, s', txs, done) && Covered(s', tx)
    ensures Covered(s, tx)
  {
    var j :| 0 <= j <= |txs| && s'.raw == PutAllRaw(s.raw, txs[..j]);
    RawRows(s.raw, txs[..j]);
    if tx.id !in s.raw {
      var row := s'.raw[tx.id];
      assert row in txs;
      IdsAreUnique(log, row, tx);
    }
    forall e | e in Normalized(tx).value ensures HasId(s.events, e.id) {
      if NormalizedAll(txs).Ok? {
        EventAddedByAnotherBatch(log, s, s', txs, tx, e);
      }
    }
  }

  lemma EventAddedByAnotherBatch(log: seq<Transaction>, s: Journal, s': Journal, txs: seq<Transaction>, tx: Transaction, e: Event)
    requires WellFormed(log) && Sound(log, s) && (forall t <- txs :: t in log) && tx in log && tx !in txs
    requires NormalizedAll(txs).Ok? && Makes(tx, e) && HasId(s'.events, e.id)
    requires var es := NormalizedAll(txs).value; exists k :: 0 <= k <= |es| && s'.events == UpsertAll(s.events, es[..k])
    ensures HasId(s.events, e.id)
  {
    var es := NormalizedAll(txs).value;
    var k :| 0 <= k <= |es| && s'.events == UpsertAll(s.events, es[..k]);
    DeliveryKeepsIds(s.events, es[..k], e.id);
    forall f | f in es ensures f.id != e.id {
      OthersUseOtherIds(log, txs, tx, e, f);
    }
    NoIdInPrefix(es, k, e.id);
  }

  lemma NoIdInPrefix(es: seq<Event>, k: nat, id: string)
    requires k <= |es| && forall f <- es :: f.id != id
    ensures !HasId(es[..k], id)
  {
    assert forall i :: 0 <= i < k ==> es[..k][i] in es;
  }

  /** Another transaction's batch has no event with the id of this one's. */
  lemma OthersUseOtherIds(log: seq<Transaction>, txs: seq<Transaction>, tx: Transaction, e: Event, f: Event)
    requires WellFormed(log) && (forall t <- txs :: t in log) && tx in log && tx !in txs
    requires NormalizedAll(txs).Ok? && f in NormalizedAll(txs).value && Makes(tx, e)
    ensures f.id != e.id
  {
    BatchIsItsTransactions(txs);
    forall i | 0 <= i < |txs| && Makes(txs[i], f) ensures f.id != e.id {
      if f.id == e.id {
        EventIdsSeparateTransactions(txs[i], tx, f, e);
        IdsAreUnique(log, txs[i], tx);
      }
    }
  }

  lemma {:induction false} ChunksAddOnlyTheirOwn(
    registry: Registry, log: seq<Transaction>, s: Journal, s': Journal, requests: seq<Request>, done: bool, tx: Transaction)
    requires WellFormed(log) && Sound(log, s) && KeyedById(s) && RequestedFrom(log, requests)
    requires tx in log && tx !in Answers(requests)
    requires ImportedChunks(registry, requests, s, s', done) && Covered(s', tx)
    ensures Covered(s, tx)
    decreases |requests|
  {
    if requests != [] {
      var n := |requests| - 1;
      var txs := requests[n].Answer();
      var m :| ImportedChunks(registry, requests[..n], s, m, true) && Imported(registry, m, s', txs, done);
      FirstRequests(log, requests);
      ChunksExtend(registry, log, s, m, requests[..n], true);
      ImportAddsOnlyItsOwn(registry, log, m, s', txs, done, tx);
      ChunksAddOnlyTheirOwn(registry, log, s, m, requests[..n], true, tx);
    }
  }

  lemma BackfillAddsOnlyItsOwn(
    registry: Registry, log: seq<Transaction>, s: Journal, s': Journal, requests: seq<Request>, tx: Transaction)
    requires WellFormed(log) && Sound(log, s) && KeyedById(s) && RequestedFrom(log, requests)
    requires tx in log && tx !in Answers(requests)
    requires Backfilled(registry, requests, s, s', true) && Covered(s', tx)
    ensures Covered(s, tx)
  {
    var m := FinishedBackfill(registry, requests, s, s');
    assert Covered(m, tx);
    ChunksAddOnlyTheirOwn(registry, log, s, m, requests, true, tx);
  }

  /** A finished backfill leaves no gap exactly when nothing it missed is missing: every
      requested transaction between the watermarks that lies before the window's start, or came
      in after its own chunk was requested, was already journaled. */
  lemma BackfillLeavesNoGapIff(
    registry: Registry, log: seq<Transaction>, s: Journal, s': Journal, base: Option<nat>,
    requests: seq<Request>, start: int, end: int)
    requires WellFormed(log) && Sound(log, s) && KeyedById(s) && s.watermark.Some? && NoGap(log, s, base)
    requires base.value <= s.watermark.value
    requires RequestedFrom(log, requests) && RequestsFor(requests, start, end)
    requires Backfilled(registry, requests, s, s', true)
    ensures NoGap(log, s', base) <==>
            forall tx <- log :: Between(tx, s.watermark.value, s'.watermark.value) && Missed(requests, start, tx) ==> Covered(s, tx)
  {
    BackfillExtends(registry, log, s, s', requests, true);
    if s'.watermark != s.watermark {
      LargestStaysInTheLog(log, requests);
      forall tx | tx in log && Between(tx, s.watermark.value, s'.watermark.value)
        ensures Covered(s', tx) <==> Missed(requests, start, tx) ==> Covered(s, tx)
      {
        MissedIff(log, requests, start, end, tx);
        CoveredByBackfillIff(registry, log, s, s', requests, tx);
      }
    }
    forall tx | tx in log && Covered(s, tx) ensures Covered(s', tx) {
      CoveredStays(log, s, s'.(watermark := s.watermark), tx);
    }
  }

  lemma CoveredByBackfillIff(
    registry: Registry, log: seq<Transaction>, s: Journal, s': Journal, requests: seq<Request>, tx: Transaction)
    requires WellFormed(log) && Sound(log, s) && KeyedById(s) && RequestedFrom(log, requests) && tx in log
    requires Backfilled(registry, requests, s, s', true)
    ensures Covered(s', tx) <==> tx in Answers(requests) || Covered(s, tx)
  {
    BackfillExtends(registry, log, s, s', requests, true);
    if tx in Answers(requests) {
      assert Taken(s', tx, true);
    } else if Covered(s', tx) {
      BackfillAddsOnlyItsOwn(registry, log, s, s', requests, tx);
    }
    if Covered(s, tx) {
      CoveredStays(log, s, s'.(watermark := s.watermark), tx);
    }
  }

  lemma CoveredStays(log: seq<Transaction>, s: Journal, s': Journal, tx: Transaction)
    requires Extends(log, s, s') && Covered(s, tx)
    ensures Covered(s', tx)
  {
  }

  const EARLY: Transaction := DailyFinancing(5, CHUNK - 1, "A", true, 1.0, [])
  const LATE: Transaction := DailyFinancing(6, CHUNK, "A", true, 2.0, [])
  const BOTH: seq<Transaction> := [EARLY, LATE]
  const UNSYNCED: Journal := Journal(map[], [], map[], Some(4))
  const SKIPPED: Journal := Journal(map[6 := LATE], [PositionEvent(LATE, PositionFinancing(None, 2.0))], map[], Some(6))

  /** The smallest example: two financing transactions past the watermark, and a window that
      starts between them.  The backfill succeeds, passes the first one, and never journals it. */
  lemma BackfillCanLeaveAGap(registry: Registry)
    ensures var requests := [Request(BOTH, CHUNK, CHUNK + 1, false)];
            RequestsFor(requests, CHUNK, CHUNK + 1) && WellFormed(BOTH) && Sound(BOTH, UNSYNCED) && NoGap(BOTH, UNSYNCED, Some(4)) &&
            RequestedFrom(BOTH, requests) && Backfilled(registry, requests, UNSYNCED, SKIPPED, true) &&
            !NoGap(BOTH, SKIPPED, Some(4))
  {
    NothingMissingBefore();
    EarlyIsMissing();
    assert Chunks(CHUNK + 1, CHUNK + 1, CHUNK) == [];
    assert Chunks(CHUNK, CHUNK + 1, CHUNK) == [(CHUNK, CHUNK + 1)];
    var requests := [Request(BOTH, CHUNK, CHUNK + 1, false)];
    LateWindow(CHUNK + 1);
    assert requests[..0] == [];
    assert ImportedChunks(registry, requests[..0], UNSYNCED, UNSYNCED, true);
    LateBackfill(registry, requests, UNSYNCED);
  }

  /** A window that does reach back, in two chunks: the first transaction is booked after its
      chunk was requested, the second before the other chunk is.  The backfill passes the first
      one and never journals it. */
  lemma GrowthBetweenChunksCanLeaveAGap(registry: Registry)
    ensures var requests := [BEFORE_EARLY, AFTER_LATE];
            WellFormed(BOTH) && Sound([], UNSYNCED) && Sound(BOTH, UNSYNCED) && NoGap(BOTH, UNSYNCED, Some(4)) &&
            GrowsOver([], requests, BOTH) && RequestsFor(requests, 0, 2 * CHUNK) && ReachesBack(BOTH, UNSYNCED, 0) &&
            Backfilled(registry, requests, UNSYNCED, SKIPPED, true) &&
            CameTooLate(requests[0], EARLY) && !NoGap(BOTH, SKIPPED, Some(4))
  {
    NothingMissingBefore();
    EarlyIsMissing();
    RequestsAroundEarly();
    LateInItsChunk(registry);
  }

  lemma RequestsAroundEarly()
    ensures var requests := [BEFORE_EARLY, AFTER_LATE];
            WellFormed(BOTH) && GrowsOver([], requests, BOTH) && RequestsFor(requests, 0, 2 * CHUNK) &&
            ReachesBack(BOTH, UNSYNCED, 0) && CameTooLate(requests[0], EARLY)
  {
    NothingMissingBefore();
    TwoChunks();
  }

  lemma LateInItsChunk(registry: Registry)
    ensures Backfilled(registry, [BEFORE_EARLY, AFTER_LATE], UNSYNCED, SKIPPED, true)
  {
    var requests := [BEFORE_EARLY, AFTER_LATE];
    LateWindow(2 * CHUNK);
    assert requests[..1] == [BEFORE_EARLY];
    EmptyChunk(registry);
    LateBackfill(registry, requests, UNSYNCED);
  }

  const BEFORE_EARLY: Request := Request([], 0, CHUNK, false)
  const AFTER_LATE: Request := Request(BOTH, CHUNK, 2 * CHUNK, false)

  lemma EmptyChunk(registry: Registry)
    ensures ImportedChunks(registry, [BEFORE_EARLY], UNSYNCED, UNSYNCED, true) && Answers([BEFORE_EARLY]) == []
  {
    assert [BEFORE_EARLY][..0] == [];
    EmptyImport(registry, UNSYNCED);
    assert ImportedChunks(registry, [BEFORE_EARLY][..0], UNSYNCED, UNSYNCED, true);
  }

  lemma NothingMissingBefore()
    ensures WellFormed(BOTH) && Sound([], UNSYNCED) && Sound(BOTH, UNSYNCED) && NoGap(BOTH, UNSYNCED, Some(4))
  {
    TenIsSmall(KEY_WIDTH);
  }

  lemma EarlyIsMissing()
    ensures EARLY in BOTH && !NoGap(BOTH, SKIPPED, Some(4))
  {
    assert EARLY == BOTH[0] && Between(EARLY, 4, 6) && !Covered(SKIPPED, EARLY);
  }

  lemma TwoChunks()
    ensures Chunks(0, 2 * CHUNK, CHUNK) == [(0, CHUNK), (CHUNK, 2 * CHUNK)]
  {
    assert Chunks(2 * CHUNK, 2 * CHUNK, CHUNK) == [];
    assert Chunks(CHUNK, 2 * CHUNK, CHUNK) == [(CHUNK, 2 * CHUNK)];
  }

  /** A last chunk that brings only the later transaction. */
  lemma LateBackfill(registry: Registry, requests: seq<Request>, s: Journal)
    requires s == UNSYNCED && requests != [] && requests[|requests| - 1].Answer() == [LATE]
    requires Answers(requests[..|requests| - 1]) == [] && ImportedChunks(registry, requests[..|requests| - 1], s, s, true)
    ensures Backfilled(registry, requests, s, SKIPPED, true)
  {
    LateImport(registry);
    LastAnswer(requests);
    LargestIsLate();
    var m := SKIPPED.(watermark := Some(4));
    assert requests[..|requests|] == requests;
    assert ImportedChunks(registry, requests, s, m, true);
    BackfillEnds(registry, requests, s, m, SKIPPED, |requests|, true, true);
  }

  lemma LastAnswer(requests: seq<Request>)
    requires requests != [] && Answers(requests[..|requests| - 1]) == []
    ensures Answers(requests) == requests[|requests| - 1].Answer()
  {
  }

  lemma LargestIsLate()
    ensures LargestId([LATE]) == Some(6)
  {
    assert [LATE][..0] == [];
  }

  lemma LateWindow(end: int)
    requires end > CHUNK
    ensures Window(BOTH, CHUNK, end, false) == [LATE]
  {
    assert BOTH[..1] == [EARLY] && [EARLY][..0] == [];
    assert Window([EARLY], CHUNK, end, false) == Window([], CHUNK, end, false) == [];
  }

  lemma EmptyImport(registry: Registry, s: Journal)
    requires s.trades == map[]
    ensures Imported(registry, s, s, [], true)
  {
    assert NormalizedEach([]) == [];
    FinancingOnly(registry, s, s, [], []);
  }

  lemma LateEvents()
    ensures NormalizedAll([LATE]) == Ok(SKIPPED.events)
  {
    var parts := NormalizedEach([LATE]);
    assert Flattened(parts[..0]) == Ok([]);
    assert parts[0] == Ok(SKIPPED.events);
    assert [] + SKIPPED.events == SKIPPED.events;
  }

  lemma LateImport(registry: Registry)
    ensures Imported(registry, UNSYNCED, SKIPPED.(watermark := Some(4)), [LATE], true)
  {
    LateEvents();
    LateTables();
    FinancingOnly(registry, UNSYNCED, SKIPPED.(watermark := Some(4)), [LATE], SKIPPED.events);
  }

  lemma LateTables()
    ensures PutAllRaw(map[], [LATE]) == map[6 := LATE]
    ensures UpsertAll([], SKIPPED.events) == SKIPPED.events
  {
    var es := SKIPPED.events;
    assert [LATE][..0] == [] && es[..0] == [];
    assert UpsertAll([], es) == Upsert(UpsertAll([], es[..0]), es[0]) == es;
  }

  /** Importing financing touches no record. */
  lemma FinancingOnly(registry: Registry, s: Journal, s': Journal, txs: seq<Transaction>, es: seq<Event>)
    requires NormalizedAll(txs) == Ok(es) && (forall e <- es :: !e.TradeEvent?) && s.trades == map[]
    requires s' == s.(raw := PutAllRaw(s.raw, txs), events := UpsertAll(s.events, es))
    ensures Imported(registry, s, s', txs, true)
  {
    assert txs[..|txs|] == txs && es[..|es|] == es;
    forall trade ensures s'.Trade(trade) == s.Trade(trade) && !Repairable(s', trade) {
    }
  }

  lemma {:induction false} TenIsSmall(k: nat)
    requires k > 0
    ensures Pow10(k) >= 10
  {
    if k > 1 { TenIsSmall(k - 1); }
  }
}
