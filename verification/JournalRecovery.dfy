/** What an interrupted or a chunked import leaves, compared with one clean import. */
module JournalRecovery {
  import opened Basics
  import opened IdOrder
  import opened Transactions
  import opened TradeNormalizer
  import opened EventTable
  import opened TradeProjection
  import opened TradeStores
  import opened BrokerLog
  import opened TradeHistory
  import opened JournalRuns
  import opened JournalSettlement

  // ---- Redelivery after a prefix -------------------------------------------------------

  lemma {:induction false} LastWrittenForgets(before: Option<Event>, other: Option<Event>, es: seq<Event>, id: string)
    ensures LastWritten(before, es, id) == LastWritten(other, es, id) || !HasId(es, id)
  {
    if es != [] {
      var n := |es| - 1;
      LastWrittenForgets(before, other, es[..n], id);
      if HasId(es, id) && es[n].id != id {
        var i :| 0 <= i < |es| && es[i].id == id;
        assert es[..n][i].id == id;
      }
    }
  }

  /** Delivering a prefix of a batch and then all of it leaves the contents of one delivery. */
  lemma PrefixThenAll(docs: seq<Event>, es: seq<Event>, k: nat)
    requires DistinctIds(docs) && k <= |es|
    ensures DistinctIds(UpsertAll(docs, es[..k]))
    ensures SameContents(UpsertAll(UpsertAll(docs, es[..k]), es), UpsertAll(docs, es))
  {
    var part := UpsertAll(docs, es[..k]);
    LookupAfterDelivery(docs, es[..k], "");
    forall id ensures Lookup(UpsertAll(part, es), id) == Lookup(UpsertAll(docs, es), id) {
      LookupAfterDelivery(docs, es[..k], id);
      LookupAfterDelivery(docs, es, id);
      LookupAfterDelivery(part, es, id);
      LastWrittenForgets(Lookup(part, id), Lookup(docs, id), es, id);
      LastWrittenIsMember(Lookup(docs, id), es[..k], id);
      LastWrittenIsMember(Lookup(docs, id), es, id);
      LastWrittenIsMember(Lookup(part, id), es, id);
      assert forall i :: 0 <= i < k ==> es[..k][i] == es[i];
    }
  }

  function RawAt(raw: map<nat, Transaction>, id: nat): Option<Transaction> {
    if id in raw then Some(raw[id]) else None
  }

  ghost predicate HasTransaction(txs: seq<Transaction>, id: nat) {
    exists i :: 0 <= i < |txs| && txs[i].id == id
  }

  lemma {:induction false} RawForgets(raw: map<nat, Transaction>, other: map<nat, Transaction>, txs: seq<Transaction>, id: nat)
    ensures HasTransaction(txs, id) ==> RawAt(PutAllRaw(raw, txs), id) == RawAt(PutAllRaw(other, txs), id)
    ensures !HasTransaction(txs, id) ==> RawAt(PutAllRaw(raw, txs), id) == RawAt(raw, id)
    ensures !HasTransaction(txs, id) ==> RawAt(PutAllRaw(other, txs), id) == RawAt(other, id)
  {
    if txs != [] {
      var n := |txs| - 1;
      RawForgets(raw, other, txs[..n], id);
      assert txs == txs[..n] + [txs[n]];
    }
  }

  lemma RawPrefixThenAll(raw: map<nat, Transaction>, txs: seq<Transaction>, k: nat)
    requires k <= |txs|
    ensures PutAllRaw(PutAllRaw(raw, txs[..k]), txs) == PutAllRaw(raw, txs)
  {
    var part := PutAllRaw(raw, txs[..k]);
    var twice, once := PutAllRaw(part, txs), PutAllRaw(raw, txs);
    forall id ensures RawAt(twice, id) == RawAt(once, id) {
      RawForgets(part, raw, txs, id);
      RawForgets(raw, raw, txs[..k], id);
      assert forall i :: 0 <= i < k ==> txs[..k][i] == txs[i];
    }
    SameRaw(twice, once);
  }

  lemma SameRaw(a: map<nat, Transaction>, b: map<nat, Transaction>)
    requires forall id :: RawAt(a, id) == RawAt(b, id)
    ensures a == b
  {
    forall id ensures id in a <==> id in b {
      assert RawAt(a, id) == RawAt(b, id);
    }
    forall id | id in a ensures a[id] == b[id] {
      assert RawAt(a, id) == RawAt(b, id);
    }
  }

  // ---- Interrupted imports -------------------------------------------------------------

  /** The same journal to every reader: listings see contents, not insertion order. */
  ghost predicate SameJournal(a: Journal, b: Journal) {
    a.raw == b.raw && SameContents(a.events, b.events) && a.trades == b.trades && a.watermark == b.watermark
  }

  lemma SameLegs(a: Journal, b: Journal, trade: string)
    requires DistinctIds(a.events) && DistinctIds(b.events) && SameContents(a.events, b.events)
    ensures LegsOf(a.events, trade) == LegsOf(b.events, trade)
  {
    ListingIgnoresInsertionOrder(a.events, b.events, Query(None, None, None, Some(trade), {}));
  }

  /** A settled record that was left alone or projected is the projection of what was there, if
      there is one. */
  lemma SettledIsProjected(registry: Registry, s: Journal, s': Journal, trade: string)
    requires LeftOrProjected(registry, s, s', trade) && Settled(registry, s', trade)
    ensures var p := Project(registry, s.Trade(trade), LegsOf(s'.events, trade), trade);
            s'.Trade(trade) == if p.Write? then Some(p.record) else s.Trade(trade)
  {
  }

  lemma ProjectedAgain(registry: Registry, s: Journal, m: Journal, s': Journal, trade: string)
    requires LeftOrProjected(registry, s, m, trade)
    requires m.Trade(trade) != s.Trade(trade) ==> LegsOf(m.events, trade) == LegsOf(s'.events, trade)
    requires LeftOrProjected(registry, m, s', trade)
    ensures LeftOrProjected(registry, s, s', trade)
  {
    if m.Trade(trade) != s.Trade(trade) {
      ProjectionIsAFixedPoint(registry, s.Trade(trade), LegsOf(s'.events, trade), trade);
    }
  }

  /** A record that only a repair could touch: one repair is as good as two. */
  lemma RepairedAgain(registry: Registry, s: Journal, m: Journal, s': Journal, once: Journal, trade: string)
    requires LegsOf(s'.events, trade) == LegsOf(once.events, trade)
    requires m.Trade(trade) != s.Trade(trade) ==> LegsOf(m.events, trade) == LegsOf(s'.events, trade)
    requires LeftOrProjected(registry, s, m, trade) && LeftOrProjected(registry, m, s', trade) && LeftOrProjected(registry, s, once, trade)
    requires m.Trade(trade) == s.Trade(trade) || Repairable(s.(events := m.events), trade)
    requires s'.Trade(trade) == m.Trade(trade) || Repairable(m.(events := s'.events), trade)
    requires once.Trade(trade) == s.Trade(trade) || Repairable(s.(events := once.events), trade)
    requires !Repairable(s', trade) && !Repairable(once, trade)
    ensures s'.Trade(trade) == once.Trade(trade)
  {
    ProjectedAgain(registry, s, m, s', trade);
  }

  lemma EventsAfterBoth(registry: Registry, s: Journal, m: Journal, s': Journal, once: Journal, txs: seq<Transaction>, done: bool)
    requires DistinctIds(s.events) && Imported(registry, s, m, txs, done)
    requires Imported(registry, m, s', txs, true) && Imported(registry, s, once, txs, true)
    ensures DistinctIds(m.events) && DistinctIds(s'.events) && DistinctIds(once.events)
    ensures SameContents(s'.events, once.events) && s'.raw == once.raw
    ensures m.trades != s.trades ==> m.events == once.events
  {
    var es := NormalizedAll(txs).value;
    var k :| 0 <= k <= |es| && m.events == UpsertAll(s.events, es[..k]);
    var j :| 0 <= j <= |txs| && m.raw == PutAllRaw(s.raw, txs[..j]);
    PrefixThenAll(s.events, es, k);
    RawPrefixThenAll(s.raw, txs, j);
    LookupAfterDelivery(s.events, es, "");
    LookupAfterDelivery(m.events, es, "");
  }

  /** An import aborted at any write and then run again leaves the journal of one clean import:
      raw rows, events, every record and the watermark. */
  lemma InterruptedImportRecovers(
    registry: Registry, s: Journal, aborted: Journal, resumed: Journal, once: Journal, txs: seq<Transaction>, done: bool)
    requires DistinctIds(s.events) && Imported(registry, s, aborted, txs, done)
    requires Imported(registry, aborted, resumed, txs, true) && Imported(registry, s, once, txs, true)
    ensures SameJournal(resumed, once)
  {
    EventsAfterBoth(registry, s, aborted, resumed, once, txs, done);
    forall trade ensures resumed.Trade(trade) == once.Trade(trade) {
      SameLegs(resumed, once, trade);
      if trade in TradeIds(NormalizedAll(txs).value) {
        ProjectedAgain(registry, s, aborted, resumed, trade);
        SettledIsProjected(registry, s, resumed, trade);
        SettledIsProjected(registry, s, once, trade);
      } else {
        RepairedAgain(registry, s, aborted, resumed, once, trade);
      }
    }
    SameRecords(resumed, once);
  }

  lemma SameRecords(a: Journal, b: Journal)
    requires forall trade :: a.Trade(trade) == b.Trade(trade)
    ensures a.trades == b.trades
  {
    forall trade ensures trade in a.trades <==> trade in b.trades {
      assert a.Trade(trade) == b.Trade(trade);
    }
    forall trade | trade in a.trades ensures a.trades[trade] == b.trades[trade] {
      assert a.Trade(trade) == b.Trade(trade);
    }
  }

  /** A sync aborted at any write, also at the very last one, and then run again leaves what one
      clean sync leaves. */
  lemma InterruptedSyncRecovers(
    registry: Registry, log: seq<Transaction>, s: Journal, aborted: Journal, resumed: Journal, once: Journal)
    requires DistinctIds(s.events) && s.watermark.Some?
    requires Synced(registry, log, s, aborted, false)
    requires Synced(registry, log, aborted, resumed, true) && Synced(registry, log, s, once, true)
    ensures SameJournal(resumed, once)
  {
    var txs := Since(log, s.watermark.value);
    var done :| Imported(registry, s, aborted.(watermark := s.watermark), txs, done);
    assert aborted.(watermark := s.watermark) == aborted;
    InterruptedImportRecovers(registry, s, aborted, resumed.(watermark := s.watermark), once.(watermark := s.watermark), txs, done);
  }

  // ---- Resuming on a log that has grown ------------------------------------------------

  /** Nothing in `rest` was in the log when the interrupted import read it. */
  ghost predicate CameLater(log: seq<Transaction>, more: seq<Transaction>, rest: seq<Transaction>) {
    WellFormed(more) && log <= more && forall tx <- rest :: tx in more && tx !in log
  }

  lemma LaterIsNewer(log: seq<Transaction>, more: seq<Transaction>, earlier: Transaction, later: Transaction)
    requires WellFormed(more) && log <= more && earlier in log && later in more && later !in log
    ensures earlier.id < later.id < Pow10(KEY_WIDTH) && earlier.time <= later.time
  {
    var i :| 0 <= i < |log| && log[i] == earlier;
    var j :| 0 <= j < |more| && more[j] == later;
    assert forall n :: 0 <= n < |log| ==> more[n] == log[n] && log[n] in log;
  }

  lemma LastIsNew(log: seq<Transaction>, more: seq<Transaction>)
    requires WellFormed(more) && log <= more && |log| < |more|
    ensures more[|more| - 1] !in log && WellFormed(more[..|more| - 1]) && log <= more[..|more| - 1]
  {
    assert forall i :: 0 <= i < |log| ==> log[i] == more[i] && more[i].id < more[|more| - 1].id;
  }

  lemma {:induction false} SinceGrows(log: seq<Transaction>, more: seq<Transaction>, mark: nat) returns (rest: seq<Transaction>)
    requires WellFormed(more) && log <= more
    ensures Since(more, mark) == Since(log, mark) + rest && CameLater(log, more, rest)
  {
    if |more| == |log| {
      assert more == log;
      rest := [];
    } else {
      var n := |more| - 1;
      LastIsNew(log, more);
      var before := SinceGrows(log, more[..n], mark);
      var tx := more[n];
      rest := if tx.Requested() && tx.id > mark then before + [tx] else before;
      OneMoreLater(log, more, before);
      assert Since(log, mark) + before + [tx] == Since(log, mark) + (before + [tx]);
    }
  }

  lemma OneMoreLater(log: seq<Transaction>, more: seq<Transaction>, before: seq<Transaction>)
    requires WellFormed(more) && log <= more && |log| < |more| && CameLater(log, more[..|more| - 1], before)
    ensures CameLater(log, more, before) && CameLater(log, more, before + [more[|more| - 1]])
  {
    LastIsNew(log, more);
    assert forall tx <- before :: tx in more[..|more| - 1];
  }

  /** A fill opens at most one trade, so an opening event is known by its id. */
  lemma OpeningMadeOnce(tx: Transaction, e: Event, f: Event)
    requires Makes(tx, e) && Makes(tx, f)
    requires e.TradeEvent? && e.kind.Open? && f.TradeEvent? && f.kind.Open?
    ensures e == f
  {
    var i := EventOfALeg(tx, e);
    var j := EventOfALeg(tx, f);
    OnlyTheFirstLegOpens(tx, i);
    OnlyTheFirstLegOpens(tx, j);
  }

  lemma OnlyTheFirstLegOpens(tx: Transaction, i: nat)
    requires tx.OrderFill? && i < |Legs(tx)| && Legs(tx)[i].kind.Open?
    ensures i == 0
  {
  }

  lemma OpeningsAreKnownById(more: seq<Transaction>, e: Event, f: Event)
    requires WellFormed(more) && MadeBy(more, e) && MadeBy(more, f) && e.id == f.id && e.TradeEvent? && e.kind.Open?
    ensures e == f
  {
    SameIdSameSubject(more, e, f);
    assert f.TradeEvent? && f.kind.Open?;
    forall i, j | 0 <= i < |more| && 0 <= j < |more| && Makes(more[i], e) && Makes(more[j], f) ensures e == f {
      EventIdsSeparateTransactions(more[i], more[j], e, f);
      IdsAreUnique(more, more[i], more[j]);
      OpeningMadeOnce(more[i], e, f);
    }
  }

  lemma StoredOpening(more: seq<Transaction>, docs: seq<Event>, e: Event)
    requires WellFormed(more) && (forall d <- docs :: MadeBy(more, d)) && MadeBy(more, e)
    requires HasId(docs, e.id) && e.TradeEvent? && e.kind.Open?
    ensures e in docs
  {
    var k :| 0 <= k < |docs| && docs[k].id == e.id;
    OpeningsAreKnownById(more, e, docs[k]);
  }

  lemma {:induction false} OpeningIsFirst(legs: seq<Event>, e: Event)
    requires (forall x <- legs :: x.TradeEvent?) && InOrder(legs) && e in legs && e.kind.Open?
    requires forall x <- legs :: x.kind.Open? ==> !Before(x, e)
    ensures OpeningLeg(legs) == Some(e)
  {
    assert legs[0] in legs;
    if legs[0].kind.Open? {
      var k :| 0 <= k < |legs| && legs[k] == e;
      assert k > 0 ==> Before(legs[0], legs[k]);
    } else {
      assert forall x <- legs[1..] :: x in legs;
      OpeningIsFirst(legs[1..], e);
    }
  }

  lemma {:induction false} FirstIsOpening(legs: seq<Event>)
    requires (forall x <- legs :: x.TradeEvent?) && InOrder(legs) && OpeningLeg(legs).Some?
    ensures var e := OpeningLeg(legs).value;
            e in legs && e.TradeEvent? && e.kind.Open? && forall x <- legs :: x.kind.Open? ==> !Before(x, e)
  {
    var e := OpeningLeg(legs).value;
    if legs[0].kind.Open? {
      forall x | x in legs ensures !Before(x, e) {
        var k :| 0 <= k < |legs| && legs[k] == x;
        BeforeIsStrictOrder(e, x, e);
      }
    } else {
      FirstIsOpening(legs[1..]);
    }
  }

  /** An event of a later transaction is not listed before one of an earlier. */
  lemma LaterIsNotBefore(log: seq<Transaction>, more: seq<Transaction>, e: Event, g: Event)
    requires WellFormed(more) && log <= more && MadeBy(log, e) && MadeBy(more, g) && Before(g, e)
    ensures MadeBy(log, g)
  {
    var i :| 0 <= i < |log| && Makes(log[i], e);
    var j :| 0 <= j < |more| && Makes(more[j], g);
    EventIdSaysWhatItIs(log[i], e);
    EventIdSaysWhatItIs(more[j], g);
    if j >= |log| {
      assert more[i] == log[i] && more[i].id < more[j].id && more[i].time <= more[j].time;
      PaddedOrder(more[j].id, more[i].id, KEY_WIDTH);
    } else {
      assert more[j] == log[j];
    }
  }

  /** Events of the later transactions have ids of their own. */
  lemma LaterIdsAreNew(log: seq<Transaction>, more: seq<Transaction>, rest: seq<Transaction>, g: Event)
    requires CameLater(log, more, rest) && NormalizedAll(rest).Ok? && MadeBy(log, g)
    ensures !HasId(NormalizedAll(rest).value, g.id)
  {
    var es := NormalizedAll(rest).value;
    if HasId(es, g.id) {
      var k :| 0 <= k < |es| && es[k].id == g.id;
      BatchIsItsTransactions(rest);
      assert es[k] in es;
      var i :| 0 <= i < |rest| && Makes(rest[i], es[k]);
      var j :| 0 <= j < |log| && Makes(log[j], g);
      EventIdsSeparateTransactions(rest[i], log[j], es[k], g);
      LaterIsNewer(log, more, log[j], rest[i]);
    }
  }

  /** The tables of an import that was interrupted on `log` and resumed with `rest` as well. */
  ghost predicate ResumedTables(
    log: seq<Transaction>, more: seq<Transaction>, s: Journal, m: Journal, s': Journal, txs: seq<Transaction>, rest: seq<Transaction>)
  {
    CameLater(log, more, rest) && NormalizedAll(txs).Ok? && NormalizedAll(rest).Ok? &&
    Sound(log, s) && Sound(log, m) && Sound(more, s') &&
    (forall id :: HasId(s'.events, id) <==>
                  HasId(m.events, id) || HasId(NormalizedAll(txs).value, id) || HasId(NormalizedAll(rest).value, id)) &&
    (m.trades != s.trades ==> forall id :: HasId(NormalizedAll(txs).value, id) ==> HasId(m.events, id))
  }

  /** The leg that opened a trade for the interrupted import opens it for the resumed one. */
  lemma OpeningStays(
    log: seq<Transaction>, more: seq<Transaction>, s: Journal, m: Journal, s': Journal,
    txs: seq<Transaction>, rest: seq<Transaction>, trade: string)
    requires ResumedTables(log, more, s, m, s', txs, rest) && m.trades != s.trades
    requires OpeningLeg(LegsOf(m.events, trade)).Some?
    ensures OpeningLeg(LegsOf(s'.events, trade)) == OpeningLeg(LegsOf(m.events, trade))
  {
    var query := Query(None, None, None, Some(trade), {});
    ListingIsTheMatchesInOrder(m.events, query);
    ListingIsTheMatchesInOrder(s'.events, query);
    var legs, legs' := LegsOf(m.events, trade), LegsOf(s'.events, trade);
    FirstIsOpening(legs);
    var e := OpeningLeg(legs).value;
    GrowthKeepsSound(log, more, m);
    MemberHasId(m.events, e);
    StoredOpening(more, s'.events, e);
    assert forall x :: x in m.events && query.Matches(x) ==> x in legs;
    forall g | g in legs' && g.kind.Open? ensures !Before(g, e) {
      if Before(g, e) {
        LaterIsNotBefore(log, more, e, g);
        LaterIdsAreNew(log, more, rest, g);
        MemberHasId(s'.events, g);
        StoredOpening(more, m.events, g);
      }
    }
    OpeningIsFirst(legs', e);
  }

  lemma BaseOfProjected(registry: Registry, existing: Option<TradeRecord>, legs: seq<Event>, trade: string)
    requires (forall e <- legs :: e.TradeEvent?) && Project(registry, existing, legs, trade).Write?
    ensures Base(Some(Project(registry, existing, legs, trade).record), legs, trade) == Base(existing, legs, trade)
    ensures legs != [] && (existing.None? ==> OpeningLeg(legs).Some?)
  {
  }

  lemma SameBaseSameProjection(registry: Registry, a: Option<TradeRecord>, b: Option<TradeRecord>, legs: seq<Event>, trade: string)
    requires (forall e <- legs :: e.TradeEvent?) && Base(a, legs, trade) == Base(b, legs, trade)
    ensures Project(registry, a, legs, trade) == Project(registry, b, legs, trade)
  {
  }

  /** A record the interrupted import already wrote projects like the one it found. */
  lemma RewrittenRecordProjectsAlike(
    registry: Registry, log: seq<Transaction>, more: seq<Transaction>, s: Journal, m: Journal, s': Journal,
    txs: seq<Transaction>, rest: seq<Transaction>, trade: string)
    requires ResumedTables(log, more, s, m, s', txs, rest)
    requires LeftOrProjected(registry, s, m, trade) && m.Trade(trade) != s.Trade(trade)
    ensures Project(registry, m.Trade(trade), LegsOf(s'.events, trade), trade) ==
            Project(registry, s.Trade(trade), LegsOf(s'.events, trade), trade)
    ensures LegsOf(s'.events, trade) != []
  {
    var legs, legs' := LegsOf(m.events, trade), LegsOf(s'.events, trade);
    BaseOfProjected(registry, s.Trade(trade), legs, trade);
    LegsGoOn(log, more, s, m, s', txs, rest, trade);
    if s.Trade(trade).None? {
      OpeningStays(log, more, s, m, s', txs, rest, trade);
    }
    SameBaseSameProjection(registry, m.Trade(trade), s.Trade(trade), legs', trade);
  }

  lemma LegsGoOn(
    log: seq<Transaction>, more: seq<Transaction>, s: Journal, m: Journal, s': Journal,
    txs: seq<Transaction>, rest: seq<Transaction>, trade: string)
    requires ResumedTables(log, more, s, m, s', txs, rest) && LegsOf(m.events, trade) != []
    ensures LegsOf(s'.events, trade) != []
  {
    var query := Query(None, None, None, Some(trade), {});
    ListingIsTheMatchesInOrder(m.events, query);
    ListingIsTheMatchesInOrder(s'.events, query);
    var e := LegsOf(m.events, trade)[0];
    assert e in LegsOf(m.events, trade);
    MemberHasId(m.events, e);
    var k :| 0 <= k < |s'.events| && s'.events[k].id == e.id;
    GrowthKeepsSound(log, more, m);
    SameIdSameTrade(more, e, s'.events[k], trade);
    assert query.Matches(s'.events[k]);
    assert s'.events[k] in LegsOf(s'.events, trade);
  }

  /** The record of a trade the resumed import brought an event of. */
  lemma ResumedRecord(
    registry: Registry, log: seq<Transaction>, more: seq<Transaction>, s: Journal, m: Journal, s': Journal, once: Journal,
    txs: seq<Transaction>, rest: seq<Transaction>, trade: string)
    requires ResumedTables(log, more, s, m, s', txs, rest)
    requires LegsOf(once.events, trade) == LegsOf(s'.events, trade)
    requires LeftOrProjected(registry, s, m, trade) && LeftOrProjected(registry, m, s', trade) && LeftOrProjected(registry, s, once, trade)
    requires Settled(registry, s', trade) && Settled(registry, once, trade)
    ensures s'.Trade(trade) == once.Trade(trade)
  {
    SettledIsProjected(registry, m, s', trade);
    SettledIsProjected(registry, s, once, trade);
    if m.Trade(trade) != s.Trade(trade) {
      RewrittenRecordProjectsAlike(registry, log, more, s, m, s', txs, rest, trade);
    }
  }

  /** The tables before, between and after. */
  lemma TablesOfResumption(
    registry: Registry, log: seq<Transaction>, more: seq<Transaction>, s: Journal, m: Journal, s': Journal, once: Journal,
    txs: seq<Transaction>, rest: seq<Transaction>, done: bool)
    requires CameLater(log, more, rest) && Sound(log, s) && (forall tx <- txs :: tx in log)
    requires Imported(registry, s, m, txs, done)
    requires Imported(registry, m, s', txs + rest, true) && Imported(registry, s, once, txs + rest, true)
    ensures ResumedTables(log, more, s, m, s', txs, rest) && Sound(more, once)
    ensures SameContents(s'.events, once.events) && s'.raw == once.raw
  {
    NormalizedAllConcat(txs, rest);
    var es, later := NormalizedAll(txs).value, NormalizedAll(rest).value;
    var all := es + later;
    var k :| 0 <= k <= |es| && m.events == UpsertAll(s.events, es[..k]);
    var j :| 0 <= j <= |txs| && m.raw == PutAllRaw(s.raw, txs[..j]);
    assert all[..k] == es[..k] && (txs + rest)[..j] == txs[..j];
    PrefixThenAll(s.events, all, k);
    RawPrefixThenAll(s.raw, txs + rest, j);
    SoundResumption(registry, log, more, s, m, s', once, txs, rest, done);
    forall id ensures HasId(s'.events, id) <==> HasId(m.events, id) || HasId(es, id) || HasId(later, id) {
      DeliveryKeepsIds(m.events, all, id);
      HasIdOfConcat(es, later, id);
    }
    if m.trades != s.trades {
      forall id | HasId(es, id) ensures HasId(m.events, id) {
        DeliveryKeepsIds(s.events, es, id);
      }
    }
  }

  lemma SoundResumption(
    registry: Registry, log: seq<Transaction>, more: seq<Transaction>, s: Journal, m: Journal, s': Journal, once: Journal,
    txs: seq<Transaction>, rest: seq<Transaction>, done: bool)
    requires CameLater(log, more, rest) && Sound(log, s) && (forall tx <- txs :: tx in log)
    requires Imported(registry, s, m, txs, done)
    requires Imported(registry, m, s', txs + rest, true) && Imported(registry, s, once, txs + rest, true)
    ensures Sound(log, m) && Sound(more, s) && Sound(more, m) && Sound(more, s') && Sound(more, once)
  {
    ImportKeepsTheTables(registry, log, s, m, txs, done);
    GrowthKeepsSound(log, more, s);
    GrowthKeepsSound(log, more, m);
    forall tx | tx in txs + rest ensures tx in more {
      assert tx in txs ==> tx in log;
    }
    ImportKeepsTheTables(registry, more, m, s', txs + rest, true);
    ImportKeepsTheTables(registry, more, s, once, txs + rest, true);
  }

  lemma HasIdOfConcat(a: seq<Event>, b: seq<Event>, id: string)
    ensures HasId(a + b, id) <==> HasId(a, id) || HasId(b, id)
  {
    if HasId(a, id) {
      var i :| 0 <= i < |a| && a[i].id == id;
      assert (a + b)[i].id == id;
    }
    if HasId(b, id) {
      var i :| 0 <= i < |b| && b[i].id == id;
      assert (a + b)[|a| + i].id == id;
    }
  }

  /** A trade that neither batch is about keeps its legs through all of it. */
  lemma UntouchedLegs(
    registry: Registry, more: seq<Transaction>, s: Journal, s': Journal, txs: seq<Transaction>, done: bool, trade: string)
    requires Sound(more, s) && (forall tx <- txs :: tx in more) && Imported(registry, s, s', txs, done) && NormalizedAll(txs).Ok?
    requires trade !in TradeIds(NormalizedAll(txs).value)
    ensures LegsOf(s.events, trade) == LegsOf(s'.events, trade)
  {
    ImportedLegs(registry, more, s, s', txs, done, trade);
  }

  lemma TradesOfConcat(es: seq<Event>, later: seq<Event>, trade: string)
    requires trade !in TradeIds(es + later)
    ensures trade !in TradeIds(es)
  {
    forall other | other in TradeIds(es) ensures other in TradeIds(es + later) {
      var e :| e in es && e.TradeEvent? && e.tradeId == other;
      assert e in es + later;
    }
  }

  /** An import aborted at any write, and run again when the log has grown, leaves the journal
      of one clean import of everything. */
  lemma InterruptedImportRecoversLater(
    registry: Registry, log: seq<Transaction>, more: seq<Transaction>,
    s: Journal, aborted: Journal, resumed: Journal, once: Journal, txs: seq<Transaction>, rest: seq<Transaction>, done: bool)
    requires CameLater(log, more, rest) && Sound(log, s) && (forall tx <- txs :: tx in log)
    requires Imported(registry, s, aborted, txs, done)
    requires Imported(registry, aborted, resumed, txs + rest, true) && Imported(registry, s, once, txs + rest, true)
    ensures SameJournal(resumed, once)
  {
    TablesOfResumption(registry, log, more, s, aborted, resumed, once, txs, rest, done);
    forall trade ensures resumed.Trade(trade) == once.Trade(trade) {
      SameLegs(resumed, once, trade);
      if trade in TradeIds(NormalizedAll(txs + rest).value) {
        ResumedRecord(registry, log, more, s, aborted, resumed, once, txs, rest, trade);
      } else {
        OnlyRepairedRecord(registry, log, more, s, aborted, resumed, once, txs, rest, done, trade);
      }
    }
    SameRecords(resumed, once);
  }

  lemma OnlyRepairedRecord(
    registry: Registry, log: seq<Transaction>, more: seq<Transaction>, s: Journal, m: Journal, s': Journal, once: Journal,
    txs: seq<Transaction>, rest: seq<Transaction>, done: bool, trade: string)
    requires CameLater(log, more, rest) && Sound(log, s) && (forall tx <- txs :: tx in log)
    requires Imported(registry, s, m, txs, done)
    requires Imported(registry, m, s', txs + rest, true) && Imported(registry, s, once, txs + rest, true)
    requires NormalizedAll(txs).Ok? && trade !in TradeIds(NormalizedAll(txs + rest).value)
    requires LegsOf(s'.events, trade) == LegsOf(once.events, trade)
    ensures s'.Trade(trade) == once.Trade(trade)
  {
    NormalizedAllConcat(txs, rest);
    TradesOfConcat(NormalizedAll(txs).value, NormalizedAll(rest).value, trade);
    SoundResumption(registry, log, more, s, m, s', once, txs, rest, done);
    forall tx | tx in txs + rest ensures tx in more {
      assert tx in txs ==> tx in log;
    }
    UntouchedLegs(registry, more, s, once, txs + rest, true, trade);
    UntouchedLegs(registry, log, s, m, txs, done, trade);
    RepairedAgain(registry, s, m, s', once, trade);
  }

  /** A sync aborted at any write, and run again when the log has grown, leaves what one clean
      sync of the grown log leaves. */
  lemma InterruptedSyncRecoversLater(
    registry: Registry, log: seq<Transaction>, more: seq<Transaction>, s: Journal, aborted: Journal, resumed: Journal, once: Journal)
    requires WellFormed(more) && log <= more && Sound(log, s) && s.watermark.Some?
    requires Synced(registry, log, s, aborted, false)
    requires Synced(registry, more, aborted, resumed, true) && Synced(registry, more, s, once, true)
    ensures SameJournal(resumed, once)
  {
    var mark := s.watermark.value;
    var txs := Since(log, mark);
    var rest := SinceGrows(log, more, mark);
    SinceMembers(log, mark);
    var done :| Imported(registry, s, aborted.(watermark := s.watermark), txs, done);
    assert aborted.(watermark := s.watermark) == aborted;
    InterruptedImportRecoversLater(registry, log, more, s, aborted, resumed.(watermark := s.watermark), once.(watermark := s.watermark),
                                   txs, rest, done);
  }

  // ---- Chunked imports -----------------------------------------------------------------

  lemma {:induction false} PutAllRawConcat(raw: map<nat, Transaction>, txs: seq<Transaction>, more: seq<Transaction>)
    ensures PutAllRaw(raw, txs + more) == PutAllRaw(PutAllRaw(raw, txs), more)
  {
    if more == [] {
      assert txs + more == txs;
    } else {
      var n := |more| - 1;
      assert (txs + more)[..|txs| + n] == txs + more[..n];
      PutAllRawConcat(raw, txs, more[..n]);
    }
  }

  lemma {:induction false} ChunksAreOneDelivery(registry: Registry, s: Journal, s': Journal, requests: seq<Request>)
    requires ImportedChunks(registry, requests, s, s', true)
    ensures var txs := Answers(requests);
            NormalizedAll(txs).Ok? && s'.events == UpsertAll(s.events, NormalizedAll(txs).value) &&
            s'.raw == PutAllRaw(s.raw, txs)
    decreases |requests|
  {
    if requests != [] {
      var n := |requests| - 1;
      var before, last := Answers(requests[..n]), requests[n].Answer();
      var m :| ImportedChunks(registry, requests[..n], s, m, true) && Imported(registry, m, s', last, true);
      ChunksAreOneDelivery(registry, s, m, requests[..n]);
      NormalizedAllConcat(before, last);
      UpsertAllConcat(s.events, NormalizedAll(before).value, NormalizedAll(last).value);
      PutAllRawConcat(s.raw, before, last);
    }
  }

  /** A finished backfill in chunks leaves the raw rows and the event table of one delivery of
      all the answers. */
  lemma BackfillIsOneDelivery(registry: Registry, s: Journal, s': Journal, requests: seq<Request>)
    requires Backfilled(registry, requests, s, s', true)
    ensures var txs := Answers(requests);
            NormalizedAll(txs).Ok? && s'.events == UpsertAll(s.events, NormalizedAll(txs).value) &&
            s'.raw == PutAllRaw(s.raw, txs)
  {
    var m := FinishedBackfill(registry, requests, s, s');
    ChunksAreOneDelivery(registry, s, m, requests);
  }

  // ---- Chunks and one window -----------------------------------------------------------

  /** On a log that does not grow, the chunks hold what one window holds; where the broker counts
      a window's end as inside, neighbours also share the transactions of their border. */
  lemma ChunksHoldOneWindow(log: seq<Transaction>, requests: seq<Request>, start: int, end: int, closedEnd: bool, tx: Transaction)
    requires RequestsFor(requests, start, end) && start < end
    requires forall r <- requests :: r.log == log && r.closedEnd == closedEnd
    ensures tx in Answers(requests) <==> tx in Window(log, start, end, closedEnd)
  {
    AnswersMember(requests, tx);
    WindowMembers(log, start, end, closedEnd);
    ChunksTileTheWindow(start, end, CHUNK);
    var last := |requests| - 1;
    assert requests[last] in requests;
    ChunkIsLong(requests, start, end, last);
    if tx in Answers(requests) {
      var k :| 0 <= k < |requests| && tx in requests[k].Answer();
      var r := requests[k];
      assert r in requests;
      WindowMembers(r.log, r.start, r.end, r.closedEnd);
      ChunksKeepOrder(requests, start, end, 0, k);
      ChunksKeepOrder(requests, start, end, k, last);
    } else if tx in Window(log, start, end, closedEnd) {
      var i := ChunkOf(requests, start, end, tx.time, last);
      assert requests[i] in requests;
      AnsweredThere(requests, tx, i);
    }
  }

  lemma BatchIsConsistent(log: seq<Transaction>, txs: seq<Transaction>)
    requires WellFormed(log) && (forall tx <- log :: Unambiguous(tx)) && (forall tx <- txs :: tx in log) && NormalizedAll(txs).Ok?
    ensures Consistent(NormalizedAll(txs).value)
  {
    var es := NormalizedAll(txs).value;
    BatchIsItsTransactions(txs);
    forall i, j | 0 <= i < |es| && 0 <= j < |es| && es[i].id == es[j].id ensures es[i] == es[j] {
      assert es[i] in es && es[j] in es;
      BatchEventsAreMade(log, txs, es[j]);
      var k :| 0 <= k < |txs| && Makes(txs[k], es[i]);
      MadeOnce(log, txs[k], es[i], es[j]);
    }
  }

  lemma SameBatchSameEvents(txs: seq<Transaction>, others: seq<Transaction>)
    requires forall tx :: tx in txs <==> tx in others
    requires NormalizedAll(txs).Ok?
    ensures NormalizedAll(others).Ok?
    ensures forall e :: e in NormalizedAll(others).value ==> e in NormalizedAll(txs).value
  {
    BatchIsItsTransactions(txs);
    BatchIsItsTransactions(others);
    forall i | 0 <= i < |others| ensures Normalized(others[i]).Ok? {
      assert others[i] in others;
      var k :| 0 <= k < |txs| && txs[k] == others[i];
    }
    forall e | e in NormalizedAll(others).value ensures e in NormalizedAll(txs).value {
      var i :| 0 <= i < |others| && Makes(others[i], e);
      assert others[i] in others;
      BatchHolds(txs, others[i], e);
    }
  }

  /** Delivering the chunks, overlapping or not, leaves the contents of one unchunked delivery. */
  lemma ChunksDeliverTheSame(
    log: seq<Transaction>, docs: seq<Event>, requests: seq<Request>, start: int, end: int, closedEnd: bool)
    requires WellFormed(log) && (forall tx <- log :: Unambiguous(tx)) && DistinctIds(docs) && start < end
    requires RequestsFor(requests, start, end) && forall r <- requests :: r.log == log && r.closedEnd == closedEnd
    requires NormalizedAll(Window(log, start, end, closedEnd)).Ok?
    ensures var chunked := NormalizedAll(Answers(requests));
            chunked.Ok? &&
            SameContents(UpsertAll(docs, chunked.value), UpsertAll(docs, NormalizedAll(Window(log, start, end, closedEnd)).value))
  {
    var one, chunked := Window(log, start, end, closedEnd), Answers(requests);
    forall tx ensures tx in chunked <==> tx in one {
      ChunksHoldOneWindow(log, requests, start, end, closedEnd, tx);
    }
    AnswersStayInTheLog(log, requests);
    SameBatchSameEvents(one, chunked);
    SameBatchSameEvents(chunked, one);
    BatchIsConsistent(log, one);
    BatchIsConsistent(log, chunked);
    DeliveryOrderDoesNotMatter(docs, NormalizedAll(chunked).value, NormalizedAll(one).value);
  }
}
