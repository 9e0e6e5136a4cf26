/**
 * The persistent store of the journal.
 *
 * Every document write either happens as a whole or raises.  `writesLeft` is the number of
 * writes that still succeed: a store whose process is killed, or whose disk fails, after any
 * write at all is one that started with the matching value.
 */
module TradeStores {
  import opened Basics
  import opened Transactions
  import opened EventTable
  import opened TradeProjection

  /** What the store holds. */
  datatype Journal = Journal(
    raw: map<nat, Transaction>, events: seq<Event>, trades: map<string, TradeRecord>, watermark: Option<nat>)
  {
    function Trade(id: string): Option<TradeRecord> {
      if id in trades then Some(trades[id]) else None
    }
  }

  function PutAllRaw(raw: map<nat, Transaction>, txs: seq<Transaction>): map<nat, Transaction> {
    if txs == [] then raw
    else PutAllRaw(raw, txs[..|txs| - 1])[txs[|txs| - 1].id := txs[|txs| - 1]]
  }

  /** The last transaction of the batch with an id is stored under it. */
  lemma {:induction false} LastTransactionCounts(raw: map<nat, Transaction>, txs: seq<Transaction>, i: nat)
    requires i < |txs| && forall j :: i < j < |txs| ==> txs[j].id != txs[i].id
    ensures txs[i].id in PutAllRaw(raw, txs) && PutAllRaw(raw, txs)[txs[i].id] == txs[i]
  {
    var n := |txs| - 1;
    if i < n {
      assert txs[..n][i] == txs[i] && txs[n].id != txs[i].id;
      LastTransactionCounts(raw, txs[..n], i);
    }
  }

  /** An id that the batch does not have keeps what was stored. */
  lemma {:induction false} OtherRowsStay(raw: map<nat, Transaction>, txs: seq<Transaction>, id: nat)
    requires forall i :: 0 <= i < |txs| ==> txs[i].id != id
    ensures id in PutAllRaw(raw, txs) <==> id in raw
    ensures id in raw ==> PutAllRaw(raw, txs)[id] == raw[id]
  {
    if txs != [] {
      OtherRowsStay(raw, txs[..|txs| - 1], id);
    }
  }

  /** The document writes an event delivery costs: unchanged documents are not written. */
  function EventWrites(docs: seq<Event>, es: seq<Event>): int {
    |UpsertAll(docs, es)| - |docs| + Updates(docs, es)
  }

  class TradeStore {
    var raw: map<nat, Transaction>
    var events: seq<Event>
    var trades: map<string, TradeRecord>
    var watermark: Option<nat>
    var writesLeft: nat

    function State(): Journal
      reads this
    {
      Journal(raw, events, trades, watermark)
    }

    constructor (writes: nat)
      ensures State() == Journal(map[], [], map[], None) && writesLeft == writes
    {
      raw, events, trades, watermark, writesLeft := map[], [], map[], None, writes;
    }

    method UpsertRawTransactions(txs: seq<Transaction>) returns (ok: bool, seen: nat, inserted: nat, updated: nat)
      modifies this
      ensures State() == old(State()).(raw := raw)
      ensures ok ==> raw == PutAllRaw(old(raw), txs) && seen == |txs|
      ensures ok ==> inserted + updated == old(writesLeft) - writesLeft && inserted == |raw| - |old(raw)|
      ensures !ok ==> writesLeft == 0 && exists k :: 0 <= k < |txs| && raw == PutAllRaw(old(raw), txs[..k])
    {
      ok, seen, inserted, updated := true, 0, 0, 0;
      for i := 0 to |txs|
        invariant State() == old(State()).(raw := raw)
        invariant raw == PutAllRaw(old(raw), txs[..i])
        invariant seen == i && inserted + updated == old(writesLeft) - writesLeft && inserted == |raw| - |old(raw)|
      {
        assert txs[..i + 1][..i] == txs[..i];
        var tx := txs[i];
        seen := seen + 1;
        if tx.id in raw && raw[tx.id] == tx {
          assert raw[tx.id := tx] == raw;
          continue;
        }
        if writesLeft == 0 {
          ok := false;
          return;
        }
        if tx.id in raw {
          assert raw[tx.id := tx].Keys == raw.Keys;
          updated := updated + 1;
        } else {
          assert raw[tx.id := tx].Keys == raw.Keys + {tx.id};
          inserted := inserted + 1;
        }
        raw, writesLeft := raw[tx.id := tx], writesLeft - 1;
      }
      assert txs[..|txs|] == txs;
    }

    /** Delivers a batch: on success every event was upserted in turn; an interruption leaves
        exactly the events before the first write that did not happen. */
    method UpsertTradeHistoryEvents(es: seq<Event>) returns (ok: bool, seen: nat, inserted: nat, updated: nat)
      modifies this
      ensures State() == old(State()).(events := events)
      ensures ok <==> EventWrites(old(events), es) <= old(writesLeft)
      ensures ok ==> events == UpsertAll(old(events), es) && writesLeft == old(writesLeft) - EventWrites(old(events), es)
      ensures ok ==> (seen, inserted, updated) == (|es|, |events| - |old(events)|, Updates(old(events), es))
      ensures !ok ==> writesLeft == 0 && exists k :: 0 <= k < |es| && events == UpsertAll(old(events), es[..k]) &&
                                                     EventWrites(old(events), es[..k]) == old(writesLeft)
    {
      ok, seen, inserted, updated := true, 0, 0, 0;
      for i := 0 to |es|
        invariant State() == old(State()).(events := events)
        invariant events == UpsertAll(old(events), es[..i])
        invariant seen == i && inserted == |events| - |old(events)| && updated == Updates(old(events), es[..i])
        invariant writesLeft == old(writesLeft) - EventWrites(old(events), es[..i])
      {
        assert es[..i + 1][..i] == es[..i];
        var e := es[i];
        var at := Position(events, e.id);
        seen := seen + 1;
        if at < |events| && events[at] == e {
          assert Upsert(events, e) == events;
          continue;
        }
        if writesLeft == 0 {
          ok := false;
          EventWritesGrow(old(events), es, i + 1);
          return;
        }
        if at == |events| {
          events := events + [e];
          inserted := inserted + 1;
        } else {
          events := events[at := e];
          updated := updated + 1;
        }
        writesLeft := writesLeft - 1;
      }
      assert es[..|es|] == es;
    }

    method UpsertTrade(record: TradeRecord) returns (ok: bool)
      modifies this
      ensures ok <==> record.Valid() && old(writesLeft) > 0
      ensures State() == if ok then old(State()).(trades := old(trades)[record.tradeId := record]) else old(State())
      ensures writesLeft == if ok then old(writesLeft) - 1 else old(writesLeft)
    {
      ok := record.Valid() && writesLeft > 0;
      if ok {
        trades, writesLeft := trades[record.tradeId := record], writesLeft - 1;
      }
    }

    method UpsertSyncState(id: nat) returns (ok: bool)
      modifies this
      ensures ok <==> old(writesLeft) > 0
      ensures State() == if ok then old(State()).(watermark := Some(id)) else old(State())
      ensures writesLeft == if ok then old(writesLeft) - 1 else old(writesLeft)
    {
      ok := writesLeft > 0;
      if ok {
        watermark, writesLeft := Some(id), writesLeft - 1;
      }
    }
  }

  lemma {:induction false} EventWritesGrow(docs: seq<Event>, es: seq<Event>, n: nat)
    requires n <= |es|
    ensures EventWrites(docs, es[..n]) <= EventWrites(docs, es)
    decreases |es| - n
  {
    if n < |es| {
      assert es[..n + 1][..n] == es[..n];
      EventWritesGrow(docs, es, n + 1);
    } else {
      assert es[..n] == es;
    }
  }
}
