/**
 * The table of normalized events: documents in insertion order, upserted by event id and
 * listed by time, transaction and event id.
 */
module EventTable {
  import opened Basics
  import opened IdOrder
  import opened Transactions

  ghost predicate DistinctIds(docs: seq<Event>) {
    forall i, j :: 0 <= i < j < |docs| ==> docs[i].id != docs[j].id
  }

  predicate HasId(docs: seq<Event>, id: string) {
    exists i :: 0 <= i < |docs| && docs[i].id == id
  }

  /** The position of the document with the given id, or |docs| when there is none. */
  function Position(docs: seq<Event>, id: string): (i: nat)
    ensures i <= |docs|
    ensures i < |docs| ==> docs[i].id == id
    ensures forall j :: 0 <= j < i ==> docs[j].id != id
  {
    if docs == [] then 0
    else if docs[0].id == id then 0
    else 1 + Position(docs[1..], id)
  }

  function Upsert(docs: seq<Event>, e: Event): seq<Event> {
    var i := Position(docs, e.id);
    if i < |docs| then docs[i := e] else docs + [e]
  }

  function UpsertAll(docs: seq<Event>, es: seq<Event>): seq<Event> {
    if es == [] then docs else Upsert(UpsertAll(docs, es[..|es| - 1]), es[|es| - 1])
  }

  /** The document stored under an id. */
  function Lookup(docs: seq<Event>, id: string): Option<Event> {
    var i := Position(docs, id);
    if i < |docs| then Some(docs[i]) else None
  }

  ghost predicate SameContents(a: seq<Event>, b: seq<Event>) {
    forall id :: Lookup(a, id) == Lookup(b, id)
  }

  /** The value an id ends with after a delivery: its last event, or what was stored before. */
  function LastWritten(before: Option<Event>, es: seq<Event>, id: string): Option<Event> {
    if es == [] then before
    else if es[|es| - 1].id == id then Some(es[|es| - 1])
    else LastWritten(before, es[..|es| - 1], id)
  }

  /** How many documents an upsert of the batch overwrites with a different value. */
  function Updates(docs: seq<Event>, es: seq<Event>): nat {
    if es == [] then 0
    else
      var e := es[|es| - 1];
      var stored := Lookup(UpsertAll(docs, es[..|es| - 1]), e.id);
      Updates(docs, es[..|es| - 1]) + (if stored.Some? && stored.value != e then 1 else 0)
  }

  /** No two events of the batch claim the same id with different values. */
  ghost predicate Consistent(es: seq<Event>) {
    forall i, j :: 0 <= i < |es| && 0 <= j < |es| && es[i].id == es[j].id ==> es[i] == es[j]
  }

  lemma LookupFinds(docs: seq<Event>, i: nat)
    requires DistinctIds(docs) && i < |docs|
    ensures Lookup(docs, docs[i].id) == Some(docs[i])
  {
    var j := Position(docs, docs[i].id);
    assert j <= i && docs[j].id == docs[i].id;
  }

  lemma LookupMember(docs: seq<Event>, id: string)
    ensures Lookup(docs, id).Some? <==> HasId(docs, id)
    ensures Lookup(docs, id).Some? ==> Lookup(docs, id).value in docs && Lookup(docs, id).value.id == id
  {
    var i := Position(docs, id);
    if i < |docs| {
      assert docs[i].id == id;
    }
  }

  lemma UpsertKeepsIdsDistinct(docs: seq<Event>, e: Event)
    requires DistinctIds(docs)
    ensures DistinctIds(Upsert(docs, e))
  {
  }

  lemma LookupAfterUpsert(docs: seq<Event>, e: Event, id: string)
    requires DistinctIds(docs)
    ensures Lookup(Upsert(docs, e), id) == if id == e.id then Some(e) else Lookup(docs, id)
  {
    UpsertKeepsIdsDistinct(docs, e);
    var after := Upsert(docs, e);
    var i := Position(docs, e.id);
    if id == e.id {
      assert after[i] == e;
      LookupFinds(after, i);
    } else {
      var j := Position(docs, id);
      if j < |docs| {
        assert after[j] == docs[j];
        LookupFinds(after, j);
      } else {
        LookupMember(after, id);
        assert forall k :: 0 <= k < |docs| ==> docs[k].id != id;
        assert !HasId(after, id);
      }
    }
  }

  /** A delivery leaves every id with its last written value, whatever was stored before and
      however often the id is repeated. */
  lemma {:induction false} LookupAfterDelivery(docs: seq<Event>, es: seq<Event>, id: string)
    requires DistinctIds(docs)
    ensures DistinctIds(UpsertAll(docs, es))
    ensures Lookup(UpsertAll(docs, es), id) == LastWritten(Lookup(docs, id), es, id)
  {
    if es != [] {
      var n := |es| - 1;
      LookupAfterDelivery(docs, es[..n], id);
      UpsertKeepsIdsDistinct(UpsertAll(docs, es[..n]), es[n]);
      LookupAfterUpsert(UpsertAll(docs, es[..n]), es[n], id);
    }
  }

  lemma {:induction false} UpsertAllConcat(docs: seq<Event>, es: seq<Event>, more: seq<Event>)
    ensures UpsertAll(docs, es + more) == UpsertAll(UpsertAll(docs, es), more)
  {
    if more == [] {
      assert es + more == es;
    } else {
      var n := |more| - 1;
      assert (es + more)[..|es| + n] == es + more[..n];
      UpsertAllConcat(docs, es, more[..n]);
    }
  }

  lemma {:induction false} LastWrittenOfConsistent(before: Option<Event>, es: seq<Event>, i: nat)
    requires Consistent(es) && i < |es|
    ensures LastWritten(before, es, es[i].id) == Some(es[i])
  {
    var n := |es| - 1;
    if es[n].id != es[i].id {
      LastWrittenOfConsistent(before, es[..n], i);
    }
  }

  lemma {:induction false} LastWrittenIsMember(before: Option<Event>, es: seq<Event>, id: string)
    ensures HasId(es, id) ==>
              LastWritten(before, es, id).Some? && LastWritten(before, es, id).value in es &&
              LastWritten(before, es, id).value.id == id
    ensures !HasId(es, id) ==> LastWritten(before, es, id) == before
  {
    if es != [] {
      var n := |es| - 1;
      LastWrittenIsMember(before, es[..n], id);
      if es[n].id != id && HasId(es, id) {
        var i :| 0 <= i < |es| && es[i].id == id;
        assert es[..n][i].id == id;
      }
      if es[n].id != id && HasId(es[..n], id) {
        var i :| 0 <= i < n && es[..n][i].id == id;
        assert es[i].id == id;
      }
    }
  }

  /** Order, repeats and batch splits do not matter: two deliveries of the same events leave
      the same table. */
  lemma DeliveryOrderDoesNotMatter(docs: seq<Event>, es: seq<Event>, fs: seq<Event>)
    requires DistinctIds(docs) && Consistent(es) && Consistent(fs)
    requires forall e :: e in es <==> e in fs
    ensures SameContents(UpsertAll(docs, es), UpsertAll(docs, fs))
  {
    forall id ensures Lookup(UpsertAll(docs, es), id) == Lookup(UpsertAll(docs, fs), id) {
      LookupAfterDelivery(docs, es, id);
      LookupAfterDelivery(docs, fs, id);
      LastWrittenIsMember(Lookup(docs, id), es, id);
      LastWrittenIsMember(Lookup(docs, id), fs, id);
      if HasId(es, id) {
        var i :| 0 <= i < |es| && es[i].id == id;
        assert es[i] in fs;
        var j :| 0 <= j < |fs| && fs[j] == es[i];
        LastWrittenOfConsistent(Lookup(docs, id), es, i);
        LastWrittenOfConsistent(Lookup(docs, id), fs, j);
      } else {
        assert forall j :: 0 <= j < |fs| ==> fs[j] in es;
      }
    }
  }

  /** When every event of a batch is stored as it is, delivering the batch writes nothing. */
  lemma {:induction false} StoredBatchIsQuiet(docs: seq<Event>, es: seq<Event>)
    requires DistinctIds(docs) && forall i :: 0 <= i < |es| ==> Lookup(docs, es[i].id) == Some(es[i])
    ensures UpsertAll(docs, es) == docs && Updates(docs, es) == 0
  {
    if es != [] {
      var n := |es| - 1;
      StoredBatchIsQuiet(docs, es[..n]);
      StoredEventIsQuiet(docs, es[n]);
    }
  }

  lemma StoredEventIsQuiet(docs: seq<Event>, e: Event)
    requires Lookup(docs, e.id) == Some(e)
    ensures Upsert(docs, e) == docs
  {
  }

  lemma {:induction false} QuietBatchIsStored(docs: seq<Event>, es: seq<Event>)
    requires DistinctIds(docs) && |UpsertAll(docs, es)| == |docs| && Updates(docs, es) == 0
    ensures UpsertAll(docs, es) == docs && forall i :: 0 <= i < |es| ==> Lookup(docs, es[i].id) == Some(es[i])
  {
    if es != [] {
      var n := |es| - 1;
      UpsertAllGrows(docs, es[..n]);
      QuietBatchIsStored(docs, es[..n]);
    }
  }

  lemma {:induction false} UpsertAllGrows(docs: seq<Event>, es: seq<Event>)
    ensures |UpsertAll(docs, es)| >= |docs|
    ensures forall i :: 0 <= i < |docs| ==> UpsertAll(docs, es)[i].id == docs[i].id
  {
    if es != [] {
      UpsertAllGrows(docs, es[..|es| - 1]);
    }
  }

  /** Redelivering a batch inserts and updates nothing exactly when the batch does not
      contradict itself. */
  lemma RedeliveryIsQuietIffConsistent(docs: seq<Event>, es: seq<Event>)
    requires DistinctIds(docs)
    ensures var after := UpsertAll(docs, es);
            |UpsertAll(after, es)| == |after| && Updates(after, es) == 0 <==> Consistent(es)
  {
    var after := UpsertAll(docs, es);
    LookupAfterDelivery(docs, es, "");
    if Consistent(es) {
      forall i | 0 <= i < |es| ensures Lookup(after, es[i].id) == Some(es[i]) {
        LookupAfterDelivery(docs, es, es[i].id);
        LastWrittenOfConsistent(Lookup(docs, es[i].id), es, i);
      }
      StoredBatchIsQuiet(after, es);
    }
    if |UpsertAll(after, es)| == |after| && Updates(after, es) == 0 {
      QuietBatchIsStored(after, es);
    }
  }

  /** A batch that contradicts itself is not quiet when it is delivered again. */
  lemma ContradictingBatchIsNotQuiet()
    ensures var es := [FinancingEvent("5", 5, None, 1.0, 0), FinancingEvent("5", 5, None, 2.0, 0)];
            var after := UpsertAll([], es);
            !Consistent(es) && !(|UpsertAll(after, es)| == |after| && Updates(after, es) == 0)
  {
    var es := [FinancingEvent("5", 5, None, 1.0, 0), FinancingEvent("5", 5, None, 2.0, 0)];
    assert es[0].id == es[1].id && es[0] != es[1];
    RedeliveryIsQuietIffConsistent([], es);
  }

  // ---- Listing -------------------------------------------------------------------------

  /** The sort key: time, padded transaction id, event id. */
  predicate Before(a: Event, b: Event) {
    a.time < b.time ||
    (a.time == b.time &&
     (LexLess(SortKey(a.transactionId), SortKey(b.transactionId)) ||
      (SortKey(a.transactionId) == SortKey(b.transactionId) && LexLess(a.id, b.id))))
  }

  lemma BeforeIsStrictOrder(a: Event, b: Event, c: Event)
    ensures !Before(a, a)
    ensures a.id != b.id ==> Before(a, b) || Before(b, a)
    ensures Before(a, b) && Before(b, c) ==> Before(a, c)
  {
    var ka, kb, kc := SortKey(a.transactionId), SortKey(b.transactionId), SortKey(c.transactionId);
    LexIrreflexive(ka);
    LexIrreflexive(a.id);
    LexTotal(ka, kb);
    LexTotal(a.id, b.id);
    if LexLess(ka, kb) && LexLess(kb, kc) { LexTransitive(ka, kb, kc); }
    if LexLess(a.id, b.id) && LexLess(b.id, c.id) { LexTransitive(a.id, b.id, c.id); }
  }

  ghost predicate InOrder(s: seq<Event>) {
    forall i, j :: 0 <= i < j < |s| ==> Before(s[i], s[j])
  }

  function Insert(e: Event, s: seq<Event>): seq<Event> {
    if s == [] || !Before(s[0], e) then [e] + s else [s[0]] + Insert(e, s[1..])
  }

  function InSequence(s: seq<Event>): seq<Event> {
    if s == [] then [] else Insert(s[0], InSequence(s[1..]))
  }

  lemma {:induction false} InsertKeepsMembers(e: Event, s: seq<Event>)
    ensures multiset(Insert(e, s)) == multiset(s) + multiset{e}
  {
    if s != [] && Before(s[0], e) {
      InsertKeepsMembers(e, s[1..]);
      assert s == [s[0]] + s[1..];
    }
  }

  lemma {:induction false} InsertKeepsOrder(e: Event, s: seq<Event>)
    requires InOrder(s) && forall x :: x in s ==> x.id != e.id
    ensures InOrder(Insert(e, s))
  {
    if s == [] {
    } else if !Before(s[0], e) {
      assert s[0] in s;
      BeforeIsStrictOrder(e, s[0], e);
      forall i | 0 <= i < |s| ensures Before(e, s[i]) {
        BeforeIsStrictOrder(e, s[0], s[i]);
      }
    } else {
      InsertKeepsOrder(e, s[1..]);
      InsertKeepsMembers(e, s[1..]);
      forall x | x in Insert(e, s[1..]) ensures Before(s[0], x) {
        assert x in multiset(Insert(e, s[1..]));
        BeforeIsStrictOrder(e, s[0], x);
        assert s[0] in s;
        BeforeIsStrictOrder(s[0], e, x);
        if x in s[1..] {
          var k :| 0 <= k < |s[1..]| && s[1..][k] == x;
          assert Before(s[0], s[k + 1]);
        }
      }
    }
  }

  lemma {:induction false} SortingIsSorting(s: seq<Event>)
    ensures multiset(InSequence(s)) == multiset(s)
    ensures DistinctIds(s) ==> InOrder(InSequence(s))
  {
    if s != [] {
      SortingIsSorting(s[1..]);
      InsertKeepsMembers(s[0], InSequence(s[1..]));
      assert s == [s[0]] + s[1..];
      if DistinctIds(s) {
        forall x | x in InSequence(s[1..]) ensures x.id != s[0].id {
          assert x in multiset(InSequence(s[1..]));
          var k :| 0 <= k < |s[1..]| && s[1..][k] == x;
          assert s[k + 1].id != s[0].id;
        }
        InsertKeepsOrder(s[0], InSequence(s[1..]));
      }
    }
  }

  /** A set of events has only one arrangement in order. */
  lemma {:induction false} OrderIsUnique(a: seq<Event>, b: seq<Event>)
    requires InOrder(a) && InOrder(b) && forall e :: e in a <==> e in b
    ensures a == b
  {
    assert b != [] ==> b[0] in a;
    if a != [] {
      assert a[0] in b;
      var i :| 0 <= i < |b| && b[i] == a[0];
      var j :| 0 <= j < |a| && a[j] == b[0];
      BeforeIsStrictOrder(a[0], b[0], a[0]);
      assert forall k :: 0 < k < |b| ==> Before(b[0], b[k]);
      assert forall k :: 0 < k < |a| ==> Before(a[0], a[k]);
      assert a[0] == b[0];
      forall e ensures e in a[1..] <==> e in b[1..] {
        if e in a[1..] {
          var k :| 1 <= k < |a| && a[k] == e;
          BeforeIsStrictOrder(a[0], a[0], a[0]);
          assert Before(a[0], e) && e in b;
        }
        if e in b[1..] {
          var k :| 1 <= k < |b| && b[k] == e;
          BeforeIsStrictOrder(b[0], b[0], b[0]);
          assert Before(b[0], e) && e in a;
        }
      }
      OrderIsUnique(a[1..], b[1..]);
    }
  }

  predicate Names(kinds: set<string>, name: string) {
    exists kind :: kind in kinds && Upper(kind) == name
  }

  /** The filters of a listing request; `None`, or no kinds, leaves a filter out. */
  datatype Query = Query(start: Option<int>, end: Option<int>, instrument: Option<string>, tradeId: Option<string>, kinds: set<string>)
  {
    predicate Matches(e: Event) {
      (start.Some? ==> start.value <= e.time) &&
      (end.Some? ==> e.time < end.value) &&
      (instrument.Some? ==>
         (if e.TradeEvent? then e.instrument == instrument.value else e.about == instrument)) &&
      (kinds != {} ==> Names(kinds, e.Label())) &&
      (tradeId.Some? ==> e.TradeEvent? && e.tradeId == tradeId.value)
    }
  }

  function Matching(docs: seq<Event>, query: Query): (found: seq<Event>)
    ensures forall e :: e in found <==> e in docs && query.Matches(e)
  {
    if docs == [] then []
    else
      var n := |docs| - 1;
      assert docs == docs[..n] + [docs[n]];
      Matching(docs[..n], query) + (if query.Matches(docs[n]) then [docs[n]] else [])
  }

  function Listing(docs: seq<Event>, query: Query): seq<Event> {
    InSequence(Matching(docs, query))
  }

  /** The stable descending sort. */
  function InsertDown(e: Event, s: seq<Event>): seq<Event> {
    if s == [] || !Before(e, s[0]) then [e] + s else [s[0]] + InsertDown(e, s[1..])
  }

  function InReverse(s: seq<Event>): seq<Event> {
    if s == [] then [] else InsertDown(s[0], InReverse(s[1..]))
  }

  function ListingDown(docs: seq<Event>, query: Query): seq<Event> {
    InReverse(Matching(docs, query))
  }

  function Reversed(s: seq<Event>): seq<Event> {
    if s == [] then [] else Reversed(s[1..]) + [s[0]]
  }

  lemma ReversedSnoc(s: seq<Event>, e: Event)
    ensures Reversed(s + [e]) == [e] + Reversed(s)
  {
    if s != [] {
      ReversedSnoc(s[1..], e);
      assert (s + [e])[1..] == s[1..] + [e];
      assert Reversed(s + [e]) == [e] + Reversed(s[1..]) + [s[0]];
    }
  }

  /** Inserting into a descending sequence is inserting into the ascending one. */
  lemma {:induction false} InsertingIsReversed(e: Event, s: seq<Event>)
    requires InOrder(s) && forall x <- s :: x.id != e.id
    ensures InsertDown(e, Reversed(s)) == Reversed(Insert(e, s))
  {
    if s != [] {
      var n := |s| - 1;
      var rest, last := s[..n], s[n];
      assert s == rest + [last] && last in s;
      ReversedSnoc(rest, last);
      BeforeIsStrictOrder(e, last, e);
      if Before(e, last) {
        InsertingIsReversed(e, rest);
        InsertBelow(e, rest, last);
        ReversedSnoc(Insert(e, rest), last);
        assert Reversed(s)[1..] == Reversed(rest);
      } else {
        forall x | x in s ensures Before(x, e) {
          BeforeIsStrictOrder(x, last, e);
        }
        InsertLast(e, s);
        ReversedSnoc(s, e);
      }
    }
  }

  lemma {:induction false} InsertBelow(e: Event, s: seq<Event>, last: Event)
    requires Before(e, last)
    ensures Insert(e, s + [last]) == Insert(e, s) + [last]
  {
    BeforeIsStrictOrder(e, last, e);
    if s != [] {
      assert (s + [last])[1..] == s[1..] + [last];
      InsertBelow(e, s[1..], last);
    }
  }

  lemma {:induction false} InsertLast(e: Event, s: seq<Event>)
    requires forall x <- s :: Before(x, e)
    ensures Insert(e, s) == s + [e]
  {
    if s != [] {
      assert s[0] in s;
      InsertLast(e, s[1..]);
    }
  }

  /** A descending listing is the ascending one backwards. */
  lemma DescendingIsReversed(docs: seq<Event>, query: Query)
    requires DistinctIds(docs)
    ensures ListingDown(docs, query) == Reversed(Listing(docs, query))
  {
    MatchingKeepsIdsDistinct(docs, query);
    SortingDownIsReversed(Matching(docs, query));
  }

  lemma {:induction false} SortingDownIsReversed(s: seq<Event>)
    requires DistinctIds(s)
    ensures InReverse(s) == Reversed(InSequence(s))
  {
    if s != [] {
      var rest := InSequence(s[1..]);
      SortingDownIsReversed(s[1..]);
      SortingIsSorting(s[1..]);
      forall x | x in rest ensures x.id != s[0].id {
        assert x in multiset(rest);
        var k :| 0 <= k < |s[1..]| && s[1..][k] == x;
        assert s[k + 1].id != s[0].id;
      }
      InsertingIsReversed(s[0], rest);
    }
  }

  method ListRecords(docs: seq<Event>, query: Query, descending: bool) returns (records: seq<Event>)
    ensures records == if descending then ListingDown(docs, query) else Listing(docs, query)
  {
    records := [];
    for i := 0 to |docs|
      invariant records == Matching(docs[..i], query)
    {
      assert docs[..i + 1][..i] == docs[..i];
      if query.Matches(docs[i]) {
        records := records + [docs[i]];
      }
    }
    assert docs[..|docs|] == docs;
    records := if descending then InReverse(records) else InSequence(records);
  }

  lemma {:induction false} MatchingKeepsIdsDistinct(docs: seq<Event>, query: Query)
    requires DistinctIds(docs)
    ensures DistinctIds(Matching(docs, query))
  {
    if docs != [] {
      var n := |docs| - 1;
      MatchingKeepsIdsDistinct(docs[..n], query);
      forall e | e in Matching(docs[..n], query) ensures e.id != docs[n].id {
        var k :| 0 <= k < n && docs[..n][k] == e;
        assert docs[k].id != docs[n].id;
      }
    }
  }

  /** A listing holds exactly the matching documents, in order. */
  lemma ListingIsTheMatchesInOrder(docs: seq<Event>, query: Query)
    requires DistinctIds(docs)
    ensures InOrder(Listing(docs, query))
    ensures forall e :: e in Listing(docs, query) <==> e in docs && query.Matches(e)
  {
    MatchingKeepsIdsDistinct(docs, query);
    SortingIsSorting(Matching(docs, query));
    forall e ensures e in Listing(docs, query) <==> e in Matching(docs, query) {
      assert e in Listing(docs, query) <==> e in multiset(Listing(docs, query));
    }
  }

  lemma Listed(docs: seq<Event>, query: Query, e: Event)
    requires DistinctIds(docs)
    ensures e in Listing(docs, query) <==> e in docs && query.Matches(e)
  {
    ListingIsTheMatchesInOrder(docs, query);
  }

  /** What each filter lets through, in the events' own fields. */
  lemma FiltersSay(docs: seq<Event>, e: Event, instrument: string, tradeId: string, kind: string, start: int, end: int)
    requires DistinctIds(docs)
    ensures e in Listing(docs, Query(None, None, None, None, {})) <==> e in docs
    ensures e in Listing(docs, Query(None, None, Some(instrument), None, {})) <==>
            e in docs && if e.TradeEvent? then e.instrument == instrument else e.about == Some(instrument)
    ensures e in Listing(docs, Query(None, None, None, Some(tradeId), {})) <==> e in docs && e.TradeEvent? && e.tradeId == tradeId
    ensures e in Listing(docs, Query(Some(start), None, None, None, {})) <==> e in docs && start <= e.time
    ensures e in Listing(docs, Query(None, Some(end), None, None, {})) <==> e in docs && e.time < end
    ensures e in Listing(docs, Query(None, None, None, None, {kind})) <==>
            e in docs && Upper(kind) == if e.FinancingEvent? then "DAILY_FINANCING"
                                        else if e.kind.Open? then "OPEN" else if e.kind.Close? then "CLOSE" else "PARTIAL_CLOSE"
  {
    Listed(docs, Query(None, None, None, None, {}), e);
    Listed(docs, Query(None, None, Some(instrument), None, {}), e);
    Listed(docs, Query(None, None, None, Some(tradeId), {}), e);
    Listed(docs, Query(Some(start), None, None, None, {}), e);
    Listed(docs, Query(None, Some(end), None, None, {}), e);
    Listed(docs, Query(None, None, None, None, {kind}), e);
    assert kind in {kind};
  }

  /** Filters given together let through what each of them does alone. */
  lemma FiltersCombine(docs: seq<Event>, query: Query, e: Event)
    requires DistinctIds(docs)
    ensures e in Listing(docs, query) <==>
            e in Listing(docs, Query(query.start, None, None, None, {})) &&
            e in Listing(docs, Query(None, query.end, None, None, {})) &&
            e in Listing(docs, Query(None, None, query.instrument, None, {})) &&
            e in Listing(docs, Query(None, None, None, query.tradeId, {})) &&
            e in Listing(docs, Query(None, None, None, None, query.kinds))
  {
    Listed(docs, query, e);
    Listed(docs, Query(query.start, None, None, None, {}), e);
    Listed(docs, Query(None, query.end, None, None, {}), e);
    Listed(docs, Query(None, None, query.instrument, None, {}), e);
    Listed(docs, Query(None, None, None, query.tradeId, {}), e);
    Listed(docs, Query(None, None, None, None, query.kinds), e);
  }

  /** Several kinds let through what any of them does. */
  lemma KindsCombine(docs: seq<Event>, kinds: set<string>, e: Event)
    requires DistinctIds(docs) && kinds != {}
    ensures e in Listing(docs, Query(None, None, None, None, kinds)) <==>
            exists kind <- kinds :: e in Listing(docs, Query(None, None, None, None, {kind}))
  {
    Listed(docs, Query(None, None, None, None, kinds), e);
    forall kind | kind in kinds
      ensures e in Listing(docs, Query(None, None, None, None, {kind})) <==> e in docs && Upper(kind) == e.Label()
    {
      Listed(docs, Query(None, None, None, None, {kind}), e);
      assert kind in {kind};
    }
  }

  /** A listing goes by time, and at one time by transaction, as long as the transaction ids fit
      the sort key. */
  lemma ListingGoesByTimeAndTransaction(docs: seq<Event>, query: Query, i: nat, j: nat)
    requires DistinctIds(docs) && i < j < |Listing(docs, query)|
    ensures var a, b := Listing(docs, query)[i], Listing(docs, query)[j];
            a.time <= b.time &&
            (a.time == b.time && a.transactionId < Pow10(KEY_WIDTH) && b.transactionId < Pow10(KEY_WIDTH) ==>
               a.transactionId <= b.transactionId)
  {
    var a, b := Listing(docs, query)[i], Listing(docs, query)[j];
    ListingIsTheMatchesInOrder(docs, query);
    if a.transactionId < Pow10(KEY_WIDTH) && b.transactionId < Pow10(KEY_WIDTH) {
      PaddedOrder(a.transactionId, b.transactionId, KEY_WIDTH);
    }
  }

  /** The listing is a function of what the table holds, not of the order it was written in. */
  lemma ListingIgnoresInsertionOrder(a: seq<Event>, b: seq<Event>, query: Query)
    requires DistinctIds(a) && DistinctIds(b) && SameContents(a, b)
    ensures Listing(a, query) == Listing(b, query)
  {
    ListingIsTheMatchesInOrder(a, query);
    ListingIsTheMatchesInOrder(b, query);
    forall e ensures e in a <==> e in b {
      SameMembers(a, b, e);
      SameMembers(b, a, e);
    }
    OrderIsUnique(Listing(a, query), Listing(b, query));
  }

  lemma SameMembers(a: seq<Event>, b: seq<Event>, e: Event)
    requires DistinctIds(a) && SameContents(a, b)
    ensures e in a ==> e in b
  {
    if e in a {
      var i :| 0 <= i < |a| && a[i] == e;
      LookupFinds(a, i);
      LookupMember(b, e.id);
      assert Lookup(a, e.id) == Lookup(b, e.id);
    }
  }
}
