/** Tables of rows keyed by an instant: dropping duplicates and sorting. */
module TimeRows {

  datatype Row<T> = Row(time: int, data: T)

  function HasTime<T>(rows: seq<Row<T>>, time: int): bool {
    exists i :: 0 <= i < |rows| && rows[i].time == time
  }

  /** Of rows with the same time the last one stays. */
  function KeepLast<T>(rows: seq<Row<T>>): seq<Row<T>> {
    if rows == [] then []
    else (if HasTime(rows[1..], rows[0].time) then [] else [rows[0]]) + KeepLast(rows[1..])
  }

  /** Of rows with the same time the first one stays. */
  function KeepFirst<T>(rows: seq<Row<T>>): seq<Row<T>> {
    if rows == [] then []
    else
      var n := |rows| - 1;
      if HasTime(rows[..n], rows[n].time) then KeepFirst(rows[..n]) else KeepFirst(rows[..n]) + [rows[n]]
  }

  function InsertByTime<T>(row: Row<T>, rows: seq<Row<T>>): seq<Row<T>> {
    if rows == [] || row.time <= rows[0].time then [row] + rows else [rows[0]] + InsertByTime(row, rows[1..])
  }

  function SortByTime<T>(rows: seq<Row<T>>): seq<Row<T>> {
    if rows == [] then [] else InsertByTime(rows[0], SortByTime(rows[1..]))
  }

  ghost predicate Ascending<T>(rows: seq<Row<T>>) {
    forall i, j :: 0 <= i < j < |rows| ==> rows[i].time < rows[j].time
  }

  lemma {:induction false} AscendingIsLeftAlone<T>(rows: seq<Row<T>>)
    requires Ascending(rows)
    ensures KeepLast(rows) == rows && SortByTime(rows) == rows
  {
    if rows != [] {
      AscendingIsLeftAlone(rows[1..]);
      assert rows == [rows[0]] + rows[1..];
      if rows[1..] != [] {
        assert rows[0].time < rows[1..][0].time;
      }
    }
  }

  lemma NoLaterTime<T>(row: Row<T>, rows: seq<Row<T>>)
    requires Ascending([row] + rows)
    ensures !HasTime(rows, row.time) && Ascending(rows)
  {
    var all := [row] + rows;
    assert forall i :: 0 <= i < |rows| ==> all[i + 1] == rows[i] && all[0].time < all[i + 1].time;
  }

  lemma KeepLastFirst<T>(row: Row<T>, rows: seq<Row<T>>)
    requires !HasTime(rows, row.time)
    ensures KeepLast([row] + rows) == [row] + KeepLast(rows)
  {
    assert ([row] + rows)[1..] == rows;
  }

  lemma KeepLastSkips<T>(row: Row<T>, rows: seq<Row<T>>)
    requires HasTime(rows, row.time)
    ensures KeepLast([row] + rows) == KeepLast(rows)
  {
    assert ([row] + rows)[1..] == rows;
  }

  lemma FewerTimes<T>(rows: seq<Row<T>>, more: seq<Row<T>>, time: int)
    requires (forall r <- rows :: r in more) && !HasTime(more, time)
    ensures !HasTime(rows, time)
  {
    forall i | 0 <= i < |rows| ensures rows[i].time != time {
      assert rows[i] in more;
    }
  }

  /** A row that is held already and comes again is kept once. */
  lemma {:induction false} RepeatIsDropped<T>(a: seq<Row<T>>, x: Row<T>, b: seq<Row<T>>)
    requires Ascending(a + [x] + b)
    ensures KeepLast(a + [x] + ([x] + b)) == a + [x] + b
  {
    if a == [] {
      assert a + [x] + b == [x] + b && a + [x] + ([x] + b) == [x] + ([x] + b);
      assert ([x] + b)[0].time == x.time;
      KeepLastSkips(x, [x] + b);
      AscendingIsLeftAlone([x] + b);
    } else {
      var rest, repeated := a[1..] + [x] + b, a[1..] + [x] + ([x] + b);
      assert a + [x] + b == [a[0]] + rest && a + [x] + ([x] + b) == [a[0]] + repeated;
      NoLaterTime(a[0], rest);
      FewerTimes(repeated, rest, a[0].time);
      KeepLastFirst(a[0], repeated);
      RepeatIsDropped(a[1..], x, b);
    }
  }

  ghost predicate DistinctTimes<T>(rows: seq<Row<T>>) {
    forall i, j :: 0 <= i < j < |rows| ==> rows[i].time != rows[j].time
  }

  lemma {:induction false} InsertMember<T>(row: Row<T>, rows: seq<Row<T>>, r: Row<T>)
    ensures r in InsertByTime(row, rows) <==> r == row || r in rows
  {
    if rows != [] && row.time > rows[0].time {
      InsertMember(row, rows[1..], r);
      assert rows == [rows[0]] + rows[1..];
    }
  }

  lemma {:induction false} SortMember<T>(rows: seq<Row<T>>, r: Row<T>)
    ensures r in SortByTime(rows) <==> r in rows
  {
    if rows != [] {
      SortMember(rows[1..], r);
      InsertMember(rows[0], SortByTime(rows[1..]), r);
      assert rows == [rows[0]] + rows[1..];
    }
  }

  lemma {:induction false} InsertAscends<T>(row: Row<T>, rows: seq<Row<T>>)
    requires Ascending(rows) && !HasTime(rows, row.time)
    ensures Ascending(InsertByTime(row, rows))
  {
    if rows != [] && row.time > rows[0].time {
      var rest := InsertByTime(row, rows[1..]);
      InsertAscends(row, rows[1..]);
      forall k | 0 <= k < |rest| ensures rows[0].time < rest[k].time {
        InsertMember(row, rows[1..], rest[k]);
      }
    }
  }

  /** Sorting rows of distinct times puts them in strictly increasing order. */
  lemma {:induction false} SortAscends<T>(rows: seq<Row<T>>)
    requires DistinctTimes(rows)
    ensures Ascending(SortByTime(rows))
  {
    if rows != [] {
      var rest := SortByTime(rows[1..]);
      SortAscends(rows[1..]);
      if HasTime(rest, rows[0].time) {
        var i :| 0 <= i < |rest| && rest[i].time == rows[0].time;
        SortMember(rows[1..], rest[i]);
        assert false;
      }
      InsertAscends(rows[0], rest);
    }
  }

  lemma {:induction false} KeepFirstIsDistinct<T>(rows: seq<Row<T>>)
    ensures DistinctTimes(KeepFirst(rows))
    ensures forall r :: r in KeepFirst(rows) ==> r in rows
  {
    if rows != [] {
      var n := |rows| - 1;
      KeepFirstIsDistinct(rows[..n]);
      forall k | 0 <= k < |KeepFirst(rows[..n])| ensures HasTime(rows[..n], KeepFirst(rows[..n])[k].time) {
        assert KeepFirst(rows[..n])[k] in rows[..n];
      }
    }
  }

  /** Nothing is lost when rows that share a time are the same row. */
  lemma {:induction false} KeepFirstKeeps<T>(rows: seq<Row<T>>, r: Row<T>)
    requires forall i, j :: 0 <= i < j < |rows| && rows[i].time == rows[j].time ==> rows[i] == rows[j]
    requires r in rows
    ensures r in KeepFirst(rows)
  {
    var n := |rows| - 1;
    if r in rows[..n] {
      KeepFirstKeeps(rows[..n], r);
    }
  }

  /** A strictly increasing sequence is determined by its rows. */
  lemma {:induction false} AscendingIsUnique<T>(a: seq<Row<T>>, b: seq<Row<T>>)
    requires Ascending(a) && Ascending(b) && forall r :: r in a <==> r in b
    ensures a == b
  {
    assert (a != [] ==> a[0] in b) && (b != [] ==> b[0] in a);
    if a != [] {
      var m, n := |a| - 1, |b| - 1;
      assert a[m] in b && b[n] in a;
      forall r ensures r in a[..m] <==> r in b[..n] {
        assert r in a <==> r in b;
      }
      AscendingIsUnique(a[..m], b[..n]);
    }
  }
}
