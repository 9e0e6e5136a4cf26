/** Bid/ask candles over a window, fetched in chunks a broker request can carry. */
module RangeFetch {
  import opened Basics
  import opened TimeRows

  const MAX_PER_REQUEST: int := 5000

  datatype Side = Side(opening: real, high: real, low: real, closing: real)
  datatype Quote = Quote(time: int, complete: bool, bid: Option<Side>, ask: Option<Side>, volume: int)
  datatype BidAsk = BidAsk(bid: Side, ask: Side, volume: int)

  /** Only complete candles with both sides become rows. */
  predicate Usable(q: Quote) {
    q.complete && q.bid.Some? && q.ask.Some?
  }

  function RowOf(q: Quote): Row<BidAsk>
    requires Usable(q)
  {
    Row(q.time, BidAsk(q.bid.value, q.ask.value, q.volume))
  }

  function RowsOf(payload: seq<Quote>): seq<Row<BidAsk>> {
    if payload == [] then []
    else
      var n := |payload| - 1;
      if Usable(payload[n]) then RowsOf(payload[..n]) + [RowOf(payload[n])] else RowsOf(payload[..n])
  }

  /** Whether the broker counts the end of a window as inside it is up to the broker. */
  predicate Inside(time: int, from: int, to: int, closedEnd: bool) {
    from <= time && (time < to || (closedEnd && time == to))
  }

  function Answer(quotes: seq<Quote>, from: int, to: int, closedEnd: bool): seq<Quote> {
    if quotes == [] then []
    else
      var n := |quotes| - 1;
      var before := Answer(quotes[..n], from, to, closedEnd);
      if Inside(quotes[n].time, from, to, closedEnd) then before + [quotes[n]] else before
  }

  /** The table one request for a window gives. */
  function OneRequest(quotes: seq<Quote>, from: int, to: int, closedEnd: bool): seq<Row<BidAsk>> {
    SortByTime(RowsOf(Answer(quotes, from, to, closedEnd)))
  }

  /** The broker has one candle per instant. */
  ghost predicate OnePerTime(quotes: seq<Quote>) {
    forall i, j :: 0 <= i < j < |quotes| ==> quotes[i].time != quotes[j].time
  }

  ghost predicate Shows(quotes: seq<Quote>, from: int, to: int, closedEnd: bool, r: Row<BidAsk>) {
    exists i :: 0 <= i < |quotes| && Usable(quotes[i]) && Inside(quotes[i].time, from, to, closedEnd) && RowOf(quotes[i]) == r
  }

  lemma RowsOfSnoc(payload: seq<Quote>, q: Quote)
    ensures RowsOf(payload + [q]) == if Usable(q) then RowsOf(payload) + [RowOf(q)] else RowsOf(payload)
  {
    assert (payload + [q])[..|payload|] == payload;
  }

  lemma ShowsLast(quotes: seq<Quote>, from: int, to: int, closedEnd: bool, r: Row<BidAsk>)
    requires quotes != []
    ensures var n := |quotes| - 1;
            Shows(quotes, from, to, closedEnd, r) <==>
            Shows(quotes[..n], from, to, closedEnd, r) ||
            (Usable(quotes[n]) && Inside(quotes[n].time, from, to, closedEnd) && RowOf(quotes[n]) == r)
  {
    var n := |quotes| - 1;
    assert quotes == quotes[..n] + [quotes[n]];
  }

  lemma {:induction false} AnswerRows(quotes: seq<Quote>, from: int, to: int, closedEnd: bool, r: Row<BidAsk>)
    ensures r in RowsOf(Answer(quotes, from, to, closedEnd)) <==> Shows(quotes, from, to, closedEnd, r)
  {
    if quotes != [] {
      var n := |quotes| - 1;
      AnswerRows(quotes[..n], from, to, closedEnd, r);
      RowsOfSnoc(Answer(quotes[..n], from, to, closedEnd), quotes[n]);
      ShowsLast(quotes, from, to, closedEnd, r);
    }
  }

  /** Rows that hold exactly what the broker shows inside a window. */
  ghost predicate Covers(rows: seq<Row<BidAsk>>, quotes: seq<Quote>, from: int, to: int, closedEnd: bool) {
    forall r :: r in rows <==> Shows(quotes, from, to, closedEnd, r)
  }

  lemma OneRequestCovers(quotes: seq<Quote>, from: int, to: int, closedEnd: bool)
    ensures Covers(OneRequest(quotes, from, to, closedEnd), quotes, from, to, closedEnd)
  {
    forall r ensures r in OneRequest(quotes, from, to, closedEnd) <==> Shows(quotes, from, to, closedEnd, r) {
      SortMember(RowsOf(Answer(quotes, from, to, closedEnd)), r);
      AnswerRows(quotes, from, to, closedEnd, r);
    }
  }

  lemma AdjacentWindowsJoin(
    quotes: seq<Quote>, held: seq<Row<BidAsk>>, next: seq<Row<BidAsk>>, from: int, cut: int, to: int, closedEnd: bool)
    requires from < cut < to && Covers(held, quotes, from, cut, closedEnd) && Covers(next, quotes, cut, to, closedEnd)
    ensures Covers(held + next, quotes, from, to, closedEnd)
  {
    forall r ensures r in held + next <==> Shows(quotes, from, to, closedEnd, r) {
      assert r in held <==> Shows(quotes, from, cut, closedEnd, r);
      assert r in next <==> Shows(quotes, cut, to, closedEnd, r);
      ShowsSplits(quotes, from, cut, to, closedEnd, r);
    }
  }

  lemma ShowsSplits(quotes: seq<Quote>, from: int, cut: int, to: int, closedEnd: bool, r: Row<BidAsk>)
    requires from < cut < to
    ensures Shows(quotes, from, to, closedEnd, r) <==> Shows(quotes, from, cut, closedEnd, r) || Shows(quotes, cut, to, closedEnd, r)
  {
  }

  lemma RowsAgree(rows: seq<Row<BidAsk>>, quotes: seq<Quote>, from: int, to: int, closedEnd: bool)
    requires OnePerTime(quotes) && Covers(rows, quotes, from, to, closedEnd)
    ensures forall i, j :: 0 <= i < j < |rows| && rows[i].time == rows[j].time ==> rows[i] == rows[j]
  {
    forall i, j | 0 <= i < j < |rows| && rows[i].time == rows[j].time ensures rows[i] == rows[j] {
      assert rows[i] in rows && rows[j] in rows;
      var a :| 0 <= a < |quotes| && Usable(quotes[a]) && Inside(quotes[a].time, from, to, closedEnd) && RowOf(quotes[a]) == rows[i];
      var b :| 0 <= b < |quotes| && Usable(quotes[b]) && Inside(quotes[b].time, from, to, closedEnd) && RowOf(quotes[b]) == rows[j];
    }
  }

  function Combined(rows: seq<Row<BidAsk>>): seq<Row<BidAsk>> {
    SortByTime(KeepFirst(rows))
  }

  lemma CombinedIsAscending(rows: seq<Row<BidAsk>>, quotes: seq<Quote>, from: int, to: int, closedEnd: bool)
    requires OnePerTime(quotes) && Covers(rows, quotes, from, to, closedEnd)
    ensures Ascending(Combined(rows)) && Covers(Combined(rows), quotes, from, to, closedEnd)
  {
    RowsAgree(rows, quotes, from, to, closedEnd);
    KeepFirstIsDistinct(rows);
    SortAscends(KeepFirst(rows));
    forall r ensures r in Combined(rows) <==> Shows(quotes, from, to, closedEnd, r) {
      SortMember(KeepFirst(rows), r);
      assert r in rows <==> Shows(quotes, from, to, closedEnd, r);
      if r in rows { KeepFirstKeeps(rows, r); }
    }
  }

  lemma {:induction false} AnswerIsDistinct(quotes: seq<Quote>, from: int, to: int, closedEnd: bool)
    requires OnePerTime(quotes)
    ensures DistinctTimes(RowsOf(Answer(quotes, from, to, closedEnd)))
  {
    if quotes != [] {
      var n := |quotes| - 1;
      var before := Answer(quotes[..n], from, to, closedEnd);
      AnswerIsDistinct(quotes[..n], from, to, closedEnd);
      RowsOfSnoc(before, quotes[n]);
      forall k | 0 <= k < |RowsOf(before)| ensures RowsOf(before)[k].time != quotes[n].time {
        AnswerRows(quotes[..n], from, to, closedEnd, RowsOf(before)[k]);
      }
    }
  }

  /** One request gives the usable candles inside the window in strictly increasing order, and
      nothing else. */
  lemma OneRequestIsTheWindow(quotes: seq<Quote>, from: int, to: int, closedEnd: bool)
    requires OnePerTime(quotes)
    ensures var rows := OneRequest(quotes, from, to, closedEnd);
            Ascending(rows) && Covers(rows, quotes, from, to, closedEnd)
  {
    AnswerIsDistinct(quotes, from, to, closedEnd);
    SortAscends(RowsOf(Answer(quotes, from, to, closedEnd)));
    OneRequestCovers(quotes, from, to, closedEnd);
  }

  /** In the quotes' own fields: a row stands in the table exactly when some complete quote of
      that time inside the window has the row's bid as its bid, its ask as its ask, and its volume. */
  lemma RowsShowTheQuotes(quotes: seq<Quote>, from: int, to: int, closedEnd: bool, r: Row<BidAsk>)
    requires OnePerTime(quotes)
    ensures r in OneRequest(quotes, from, to, closedEnd) <==>
            exists i :: 0 <= i < |quotes| && quotes[i].complete && quotes[i].time == r.time &&
                        quotes[i].bid == Some(r.data.bid) && quotes[i].ask == Some(r.data.ask) &&
                        quotes[i].volume == r.data.volume &&
                        from <= r.time && (if closedEnd then r.time <= to else r.time < to)
  {
    OneRequestIsTheWindow(quotes, from, to, closedEnd);
    assert r in OneRequest(quotes, from, to, closedEnd) <==> Shows(quotes, from, to, closedEnd, r);
  }

  lemma ChunksMakeOneRequest(rows: seq<Row<BidAsk>>, quotes: seq<Quote>, from: int, to: int, closedEnd: bool)
    requires OnePerTime(quotes) && Covers(rows, quotes, from, to, closedEnd)
    ensures Combined(rows) == OneRequest(quotes, from, to, closedEnd)
  {
    var chunked, one := Combined(rows), OneRequest(quotes, from, to, closedEnd);
    CombinedIsAscending(rows, quotes, from, to, closedEnd);
    OneRequestIsTheWindow(quotes, from, to, closedEnd);
    forall r ensures r in chunked <==> r in one {
      assert r in chunked <==> Shows(quotes, from, to, closedEnd, r);
    }
    AscendingIsUnique(chunked, one);
  }

  method Normalize(payload: seq<Quote>) returns (frame: seq<Row<BidAsk>>)
    ensures frame == SortByTime(RowsOf(payload))
  {
    var rows: seq<Row<BidAsk>> := [];
    for i := 0 to |payload|
      invariant rows == RowsOf(payload[..i])
    {
      assert payload[..i + 1][..i] == payload[..i];
      if Usable(payload[i]) {
        rows := rows + [RowOf(payload[i])];
      }
    }
    assert payload[..|payload|] == payload;
    frame := SortByTime(rows);
  }

  /** Fetching in chunks gives the table of one unbounded request, whether or not neighbouring
      chunks overlap in the candle at their border. */
  method FetchRange(quotes: seq<Quote>, from: int, to: int, delta: int, maxCount: int, closedEnd: bool)
    returns (result: Option<seq<Row<BidAsk>>>)
    requires delta > 0 && OnePerTime(quotes)
    ensures result.None? <==> maxCount <= 0 || maxCount > MAX_PER_REQUEST
    ensures result.Some? ==> result.value == if to <= from then [] else OneRequest(quotes, from, to, closedEnd)
  {
    if maxCount <= 0 || maxCount > MAX_PER_REQUEST {
      return None;
    }
    if to <= from {
      return Some([]);
    }
    var rows: seq<Row<BidAsk>> := [];
    var span := delta * maxCount;
    assert span > 0;
    var cursor := from;
    while cursor < to
      invariant from <= cursor <= to
      invariant if cursor == from then rows == [] else Covers(rows, quotes, from, cursor, closedEnd)
    {
      var next := Min(to, cursor + span);
      var frame := Normalize(Answer(quotes, cursor, next, closedEnd));
      OneRequestCovers(quotes, cursor, next, closedEnd);
      if cursor > from {
        AdjacentWindowsJoin(quotes, rows, frame, from, cursor, next, closedEnd);
      } else {
        assert rows + frame == frame;
      }
      rows := rows + frame;
      cursor := next;
    }
    ChunksMakeOneRequest(rows, quotes, from, to, closedEnd);
    result := Some(Combined(rows));
  }

  /** Candle starts at least one candle apart, in order. */
  ghost predicate Spaced(quotes: seq<Quote>, delta: int) {
    forall i, j :: 0 <= i < j < |quotes| ==> quotes[i].time + delta <= quotes[j].time
  }

  /** A chunk never asks for more than the request can carry; a broker that counts the end as
      inside can answer with one candle more. */
  lemma ChunksFitTheRequest(quotes: seq<Quote>, from: int, delta: int, maxCount: int, to: int, closedEnd: bool)
    requires delta > 0 && maxCount > 0 && Spaced(quotes, delta) && from < to <= from + delta * maxCount
    ensures |Answer(quotes, from, to, closedEnd)| <= if closedEnd then maxCount + 1 else maxCount
  {
    var n := |Answer(quotes, from, to, closedEnd)|;
    if n > 0 {
      AnswerSpan(quotes, from, to, closedEnd, delta);
      var reach := (n - 1) * delta;
      if n - 1 > maxCount {
        Grows(delta, maxCount + 1, n - 1);
      } else if n - 1 == maxCount {
        assert reach == delta * maxCount;
      }
    }
  }

  lemma Grows(delta: int, a: int, b: int)
    requires delta > 0 && a <= b
    ensures delta * a <= delta * b
  {
  }

  lemma {:induction false} AnswerSpan(quotes: seq<Quote>, from: int, to: int, closedEnd: bool, delta: int)
    requires delta > 0 && Spaced(quotes, delta) && Answer(quotes, from, to, closedEnd) != []
    ensures var answer := Answer(quotes, from, to, closedEnd);
            answer[|answer| - 1] in quotes && Inside(answer[|answer| - 1].time, from, to, closedEnd) &&
            from + (|answer| - 1) * delta <= answer[|answer| - 1].time
  {
    var n := |quotes| - 1;
    var before := Answer(quotes[..n], from, to, closedEnd);
    if before != [] {
      AnswerSpan(quotes[..n], from, to, closedEnd, delta);
      if Inside(quotes[n].time, from, to, closedEnd) {
        var k :| 0 <= k < n && quotes[..n][k] == before[|before| - 1];
        assert quotes[k].time + delta <= quotes[n].time;
        assert |before| * delta == (|before| - 1) * delta + delta;
      }
    }
  }
}
