/**
 * The three-level candle cache: memory, CSV with metadata, and the broker.
 *
 * The broker is a feed over the true candle series of one frame.  Every request is answered
 * from that series as of one instant.
 */
module CandleCaches {
  import opened Basics
  import opened CandlePolicy
  import opened TimeRows

  datatype Prices = Prices(opening: real, high: real, low: real, closing: real, volume: int)
  type Candle = Row<Prices>

  const MAX_CANDLES: nat := 5000

  // ---- The broker ----------------------------------------------------------------------

  /** The true series.  `ends` says from when on the broker marks each candle as complete;
      `page` is the most rows it returns for a request with a start time, and `covering` whether
      the candle under way at that time is among them. */
  datatype Feed = Feed(series: seq<Candle>, ends: seq<int>, frame: Timeframe, page: nat, covering: bool)
  {
    /** Candles follow one another, each complete by when the next one starts. */
    ghost predicate Ordered() {
      page > 0 && |ends| == |series| && forall i: nat, j: nat :: i < j < |series| ==> Follows(i, j)
    }

    predicate Follows(i: nat, j: nat)
      requires |ends| == |series| && i < j < |series|
    {
      series[i].time < series[j].time && ends[i] <= ends[j] && ends[i] <= series[j].time
    }

    /** Candles start at least one candle apart. */
    ghost predicate Valid() {
      Ordered() && forall i: nat, j: nat :: i < j < |series| ==> Apart(i, j)
    }

    predicate Apart(i: nat, j: nat)
      requires i < j < |series|
    {
      series[i].time + frame.Delta() <= series[j].time
    }

    /** A weekly candle is complete no earlier than the next Friday's anchor. */
    ghost predicate WeeksEndOnFridays(cal: Calendar, now: int)
      requires |ends| == |series|
    {
      forall i :: 0 <= i < |series| && ends[i] <= now ==> FridayWithin(cal, series[i].time, ends[i])
    }

    ghost predicate FridayWithin(cal: Calendar, start: int, end: int) {
      exists d: nat :: IsFriday(cal, d) && start < cal.anchors[d] <= end
    }

    /** A candle counts as closed when the broker calls it complete and its frame is over. */
    function ClosedAt(i: nat): int
      requires i < |series|
    {
      var over := series[i].time + frame.Delta();
      if i < |ends| && over < ends[i] then ends[i] else over
    }

    /** How many candles start at or before an instant. */
    function Count(limit: int): (n: nat)
      ensures n <= |series|
    {
      CountFirst(|series|, limit)
    }

    function CountFirst(n: nat, limit: int): (k: nat)
      requires n <= |series|
      ensures k <= n
    {
      if n == 0 || series[n - 1].time <= limit then n else CountFirst(n - 1, limit)
    }

    /** How many candles are closed. */
    function ClosedCount(now: int): (n: nat)
      ensures n <= |series|
    {
      ClosedFirst(|series|, now)
    }

    function ClosedFirst(n: nat, now: int): (k: nat)
      requires n <= |series|
      ensures k <= n
    {
      if n == 0 || ClosedAt(n - 1) <= now then n else ClosedFirst(n - 1, now)
    }

    /** How many candles the broker marks as complete. */
    function CompleteCount(now: int): (n: nat)
    {
      CompleteFirst(|ends|, now)
    }

    function CompleteFirst(n: nat, now: int): (k: nat)
      requires n <= |ends|
    {
      if n == 0 || ends[n - 1] <= now then n else CompleteFirst(n - 1, now)
    }

    /** The closed candles: what an uncached client would see. */
    function Closed(now: int): seq<Candle> {
      series[..ClosedCount(now)]
    }

    /** The first candle of an answer from an instant on. */
    function FirstFrom(since: int): (n: nat)
      ensures n <= |series|
    {
      var started := Count(since);
      if covering && 0 < started <= |ends| && since < ends[started - 1] then started - 1 else Count(since - 1)
    }

    /** A request for the newest `count` closed candles: one more is asked for, up to the
        broker's maximum, because the newest may still be forming. */
    function Latest(count: nat, now: int): seq<Candle> {
      var started, closed := Count(now), ClosedCount(now);
      var asked := if count + 1 < MAX_CANDLES then count + 1 else MAX_CANDLES;
      var first := if started < asked then 0 else started - asked;
      if first <= closed then series[first..closed] else []
    }

    /** A request from a start time.  `None` raises: nothing has started there yet, or what the
        broker marks as complete there is not over yet. */
    function From(since: int, now: int): Option<seq<Candle>> {
      var started, closed, first := Count(now), ClosedCount(now), FirstFrom(since);
      if started <= first || closed <= first < CompleteCount(now) then None
      else
        var last := if started - first < page then started else first + page;
        Some(series[first..if closed < first then first else if closed < last then closed else last])
    }

    lemma CountIs(limit: int, i: nat)
      requires Ordered() && i < |series|
      ensures series[i].time <= limit <==> i < Count(limit)
    {
      CountFirstIs(|series|, limit, i);
    }

    lemma {:induction false} CountFirstIs(n: nat, limit: int, i: nat)
      requires Ordered() && i < n <= |series|
      ensures series[i].time <= limit <==> i < CountFirst(n, limit)
    {
      if series[n - 1].time <= limit {
        assert i < n - 1 ==> Follows(i, n - 1);
      } else if i < n - 1 {
        CountFirstIs(n - 1, limit, i);
      }
    }

    lemma ClosedIs(now: int, i: nat)
      requires Ordered() && i < |series|
      ensures ClosedAt(i) <= now <==> i < ClosedCount(now)
    {
      ClosedFirstIs(|series|, now, i);
    }

    lemma {:induction false} ClosedFirstIs(n: nat, now: int, i: nat)
      requires Ordered() && i < n <= |series|
      ensures ClosedAt(i) <= now <==> i < ClosedFirst(n, now)
    {
      if ClosedAt(n - 1) <= now {
        assert i < n - 1 ==> Follows(i, n - 1);
      } else if i < n - 1 {
        ClosedFirstIs(n - 1, now, i);
      }
    }

    lemma ClosedMonotone(a: int, b: int)
      requires Ordered() && a <= b
      ensures ClosedCount(a) <= ClosedCount(b)
    {
      if ClosedCount(a) > 0 {
        ClosedIs(a, ClosedCount(a) - 1);
        ClosedIs(b, ClosedCount(a) - 1);
      }
    }

    /** At most the newest started candle is still forming. */
    lemma AtMostOneForms(now: int)
      requires Valid()
      ensures ClosedCount(now) <= Count(now) <= ClosedCount(now) + 1
    {
      var n, c := Count(now), ClosedCount(now);
      if c > 0 {
        ClosedIs(now, c - 1);
        CountIs(now, c - 1);
      }
      if n >= 2 {
        CountIs(now, n - 1);
        ClosedIs(now, n - 2);
        assert Follows(n - 2, n - 1) && Apart(n - 2, n - 1);
      }
    }

    /** The first row of a refresh after a candle is the next candle, or that candle again where
        it outlasts its frame and the broker sends the one under way. */
    lemma NextIsFirstFrom(last: nat)
      requires Valid() && last < |series|
      ensures last <= FirstFrom(series[last].time + frame.Delta()) <= last + 1
    {
      var since := series[last].time + frame.Delta();
      CountIs(since - 1, last);
      CountIs(since, last);
      if last + 1 < |series| {
        CountIs(since - 1, last + 1);
        assert Apart(last, last + 1);
      }
      if last + 2 < |series| {
        assert Apart(last + 1, last + 2);
        CountIs(since, last + 2);
      }
    }

    /** A freshness test that passes means that nothing newer is closed. */
    lemma FreshMeansNewest(cal: Calendar, last: nat, now: int)
      requires Valid() && cal.Valid() && cal.Covers(now) && last < |series|
      requires frame.W? ==> WeeksEndOnFridays(cal, now)
      requires StalenessOf(cal, series[last].time, frame, now) == 0
      ensures ClosedCount(now) <= last + 1
    {
      if last + 1 < |series| {
        assert Apart(last, last + 1);
        ClosedIs(now, last + 1);
        if !frame.W? {
          OnlyWeeksRunLong(cal, now, frame);
        } else if ends[last + 1] <= now {
          assert FridayWithin(cal, series[last + 1].time, ends[last + 1]);
          WeeklyFloorIsTheLastFriday(cal, now);
        }
      }
    }
  }

  // ---- Rows ----------------------------------------------------------------------------

  function Tail(rows: seq<Candle>, count: nat): seq<Candle> {
    if |rows| <= count then rows else rows[|rows| - count..]
  }

  /** The newest rows, at most `count` of them. */
  lemma TailIsTheNewest(rows: seq<Candle>, count: nat)
    ensures |Tail(rows, count)| == Min(|rows|, count)
    ensures forall i :: 0 <= i < |Tail(rows, count)| ==> Tail(rows, count)[i] == rows[|rows| - |Tail(rows, count)| + i]
  {
  }

  function Combine(held: seq<Candle>, newer: seq<Candle>): seq<Candle> {
    SortByTime(KeepLast(held + newer))
  }

  // ---- One key of the cache ------------------------------------------------------------

  datatype Entry = Entry(candles: seq<Candle>, last: int, count: int)
  datatype Metadata = Metadata(last: int, count: int)
  datatype Slot = Slot(memory: Option<Entry>, csv: Option<seq<Candle>>, meta: Option<Metadata>)

  /** A metadata write that fails is only logged; a CSV write that fails raises; `up` says
      whether the broker answers at all. */
  datatype Faults = Faults(up: bool, csvWrites: bool, loadMeta: bool, saveMeta: bool)

  function EntryOf(rows: seq<Candle>, count: int): Entry
    requires rows != []
  {
    Entry(rows, rows[|rows| - 1].time, count)
  }

  /** A lookup's view of the cache before it asks the broker: the memory entry, or the one
      loaded from the CSV file, whose metadata is bootstrapped when there is none. */
  function Loaded(s: Slot, faults: Faults): Slot {
    if s.memory.Some? || s.csv.None? || s.csv.value == [] then s
    else
      var rows := s.csv.value;
      var count := if s.meta.Some? then s.meta.value.count else |rows|;
      var entry := EntryOf(rows, count);
      Slot(Some(entry), s.csv, if s.meta.None? && faults.loadMeta then Some(Metadata(entry.last, count)) else s.meta)
  }

  /** Writes the rows through the levels, CSV first, memory last. */
  function Persisted(s: Slot, rows: seq<Candle>, faults: Faults): Slot
    requires rows != []
  {
    var entry := EntryOf(rows, |rows|);
    if !faults.csvWrites then s
    else Slot(Some(entry), Some(rows), if faults.saveMeta then Some(Metadata(entry.last, entry.count)) else s.meta)
  }

  datatype Request = Request(count: nat, checkedAt: int, fetchedAt: int, faults: Faults)

  predicate IsFresh(cal: Calendar, frame: Timeframe, last: int, now: int)
    requires cal.Valid() && cal.Covers(now)
  {
    StalenessOf(cal, last, frame, now) == 0
  }

  /** The rows a lookup wants to persist: `None` when it answers from the cache or raises. */
  function Fetched(cal: Calendar, feed: Feed, s: Slot, r: Request): Option<seq<Candle>>
    requires cal.Valid() && cal.Covers(r.checkedAt)
  {
    var entry := Loaded(s, r.faults).memory;
    if !r.faults.up then None
    else if entry.Some? && !IsFresh(cal, feed.frame, entry.value.last, r.checkedAt) then
      var newer := feed.From(entry.value.last + feed.frame.Delta(), r.fetchedAt);
      if newer.None? || newer.value == [] then None
      else
        var rows := Combine(entry.value.candles, newer.value);
        if rows == [] then None else Some(rows)
    else if entry.Some? && entry.value.count >= r.count then None
    else
      var rows := feed.Latest(r.count, r.fetchedAt);
      if rows == [] then None else Some(rows)
  }

  function SlotAfter(cal: Calendar, feed: Feed, s: Slot, r: Request): Slot
    requires cal.Valid() && cal.Covers(r.checkedAt)
  {
    var rows := Fetched(cal, feed, s, r);
    if rows.Some? then Persisted(Loaded(s, r.faults), rows.value, r.faults) else Loaded(s, r.faults)
  }

  /** What the caller gets; `None` is an exception. */
  function Answer(cal: Calendar, feed: Feed, s: Slot, r: Request): Option<seq<Candle>>
    requires cal.Valid() && cal.Covers(r.checkedAt)
  {
    var entry := Loaded(s, r.faults).memory;
    var rows := Fetched(cal, feed, s, r);
    if rows.Some? then
      if r.faults.csvWrites then Some(Tail(rows.value, r.count)) else None
    else if entry.None? then None
    else if IsFresh(cal, feed.frame, entry.value.last, r.checkedAt) then
      if entry.value.count >= r.count then Some(Tail(entry.value.candles, r.count)) else None
    else if !r.faults.up then None
    else
      var newer := feed.From(entry.value.last + feed.frame.Delta(), r.fetchedAt);
      if newer.None? || newer.value != [] then None else Some(Tail(entry.value.candles, r.count))
  }

  /** A lookup starting from the loaded slot goes on as the lookup that loaded it. */
  lemma LoadingTwice(cal: Calendar, feed: Feed, s: Slot, r: Request)
    requires cal.Valid() && cal.Covers(r.checkedAt)
    ensures SlotAfter(cal, feed, Loaded(s, r.faults), r) == SlotAfter(cal, feed, s, r)
    ensures Answer(cal, feed, Loaded(s, r.faults), r) == Answer(cal, feed, s, r)
  {
    assert Loaded(Loaded(s, r.faults), r.faults) == Loaded(s, r.faults);
  }

  /** A lookup with a fresh entry in memory that is too short. */
  lemma ReplacingLookup(cal: Calendar, feed: Feed, s: Slot, r: Request)
    requires cal.Valid() && cal.Covers(r.checkedAt) && s.memory.Some?
    requires IsFresh(cal, feed.frame, s.memory.value.last, r.checkedAt) && s.memory.value.count < r.count
    ensures var rows := feed.Latest(r.count, r.fetchedAt);
            if !r.faults.up || rows == [] then SlotAfter(cal, feed, s, r) == s && Answer(cal, feed, s, r) == None
            else SlotAfter(cal, feed, s, r) == Persisted(s, rows, r.faults) &&
                 Answer(cal, feed, s, r) == if r.faults.csvWrites then Some(Tail(rows, r.count)) else None
  {
  }

  /** The rows a refresh of an entry leaves, `None` when it leaves none. */
  function RefreshedRows(feed: Feed, held: Entry, fetchedAt: int): Option<seq<Candle>> {
    var newer := feed.From(held.last + feed.frame.Delta(), fetchedAt);
    if newer.None? || newer.value == [] || Combine(held.candles, newer.value) == [] then None
    else Some(Combine(held.candles, newer.value))
  }

  /** What the append path answers, and what it leaves. */
  function AppendResult(feed: Feed, held: Entry, count: nat, fetchedAt: int, faults: Faults): Option<seq<Candle>> {
    var newer, rows := feed.From(held.last + feed.frame.Delta(), fetchedAt), RefreshedRows(feed, held, fetchedAt);
    if !faults.up || newer.None? then None
    else if newer.value == [] then Some(Tail(held.candles, count))
    else if rows.Some? && faults.csvWrites then Some(Tail(rows.value, count)) else None
  }

  function AppendedSlot(feed: Feed, s: Slot, held: Entry, fetchedAt: int, faults: Faults): Slot {
    var rows := RefreshedRows(feed, held, fetchedAt);
    if faults.up && rows.Some? then Persisted(s, rows.value, faults) else s
  }

  /** A lookup with a stale entry in memory. */
  lemma AppendingLookup(cal: Calendar, feed: Feed, s: Slot, r: Request)
    requires cal.Valid() && cal.Covers(r.checkedAt) && s.memory.Some?
    requires !IsFresh(cal, feed.frame, s.memory.value.last, r.checkedAt)
    ensures SlotAfter(cal, feed, s, r) == AppendedSlot(feed, s, s.memory.value, r.fetchedAt, r.faults)
    ensures Answer(cal, feed, s, r) == AppendResult(feed, s.memory.value, r.count, r.fetchedAt, r.faults)
  {
    StaleFetch(cal, feed, s, r);
  }

  lemma StaleFetch(cal: Calendar, feed: Feed, s: Slot, r: Request)
    requires cal.Valid() && cal.Covers(r.checkedAt) && s.memory.Some?
    requires !IsFresh(cal, feed.frame, s.memory.value.last, r.checkedAt)
    ensures Fetched(cal, feed, s, r) == if r.faults.up then RefreshedRows(feed, s.memory.value, r.fetchedAt) else None
  {
  }

  lemma LoadedFetch(cal: Calendar, feed: Feed, s: Slot, r: Request)
    requires cal.Valid() && cal.Covers(r.checkedAt)
    ensures Fetched(cal, feed, Loaded(s, r.faults), r) == Fetched(cal, feed, s, r)
  {
    assert Loaded(Loaded(s, r.faults), r.faults) == Loaded(s, r.faults);
  }

  class CandleCache {
    const cal: Calendar
    var memory: map<string, Entry>
    var csv: map<string, seq<Candle>>
    var meta: map<string, Metadata>

    function At(key: string): Slot
      reads this
    {
      Slot(if key in memory then Some(memory[key]) else None,
           if key in csv then Some(csv[key]) else None,
           if key in meta then Some(meta[key]) else None)
    }

    constructor (cal: Calendar)
      ensures this.cal == cal && memory == map[] && csv == map[] && meta == map[]
    {
      this.cal, memory, csv, meta := cal, map[], map[], map[];
    }

    method GetCandles(key: string, feed: Feed, count: int, checkedAt: int, fetchedAt: int, faults: Faults)
      returns (result: Option<seq<Candle>>)
      requires cal.Valid() && cal.Covers(checkedAt)
      requires key in csv ==> csv[key] != []
      modifies this
      ensures forall other :: other != key ==> At(other) == old(At(other))
      ensures count <= 0 ==> result == None && At(key) == old(At(key))
      ensures count > 0 ==>
                var r := Request(count, checkedAt, fetchedAt, faults);
                At(key) == SlotAfter(cal, feed, old(At(key)), r) && result == Answer(cal, feed, old(At(key)), r)
    {
      if count <= 0 {
        return None;
      }
      if key in memory {
        result := Serve(key, feed, count, checkedAt, fetchedAt, faults, memory[key]);
        return;
      }
      if key in csv {
        ghost var before := At(key);
        var entry := LoadCsvEntry(key, faults);
        memory := memory[key := entry];
        assert At(key) == Loaded(before, faults);
        LoadingTwice(cal, feed, before, Request(count, checkedAt, fetchedAt, faults));
        result := Serve(key, feed, count, checkedAt, fetchedAt, faults, entry);
        return;
      }
      result := ReplaceFromApi(key, feed, count, fetchedAt, faults);
    }

    method Serve(key: string, feed: Feed, count: nat, checkedAt: int, fetchedAt: int, faults: Faults, entry: Entry)
      returns (result: Option<seq<Candle>>)
      requires cal.Valid() && cal.Covers(checkedAt) && key in memory && memory[key] == entry && count > 0
      modifies this
      ensures forall other :: other != key ==> At(other) == old(At(other))
      ensures var r := Request(count, checkedAt, fetchedAt, faults);
              At(key) == SlotAfter(cal, feed, old(At(key)), r) && result == Answer(cal, feed, old(At(key)), r)
    {
      if IsFresh(cal, feed.frame, entry.last, checkedAt) {
        if entry.count >= count {
          return Some(Tail(entry.candles, count));
        }
        ReplacingLookup(cal, feed, At(key), Request(count, checkedAt, fetchedAt, faults));
        result := ReplaceFromApi(key, feed, count, fetchedAt, faults);
        return;
      }
      AppendingLookup(cal, feed, At(key), Request(count, checkedAt, fetchedAt, faults));
      result := AppendRefresh(key, feed, count, fetchedAt, faults, entry);
    }

    method LoadCsvEntry(key: string, faults: Faults) returns (entry: Entry)
      requires key in csv && csv[key] != [] && key !in memory
      modifies this`meta
      ensures forall other :: other != key ==> At(other) == old(At(other))
      ensures Slot(Some(entry), At(key).csv, At(key).meta) == Loaded(old(At(key)), faults)
    {
      var rows := csv[key];
      if key in meta {
        return EntryOf(rows, meta[key].count);
      }
      entry := EntryOf(rows, |rows|);
      if faults.loadMeta {
        meta := meta[key := Metadata(entry.last, entry.count)];
      }
    }

    method ReplaceFromApi(key: string, feed: Feed, count: nat, fetchedAt: int, faults: Faults) returns (result: Option<seq<Candle>>)
      modifies this
      ensures forall other :: other != key ==> At(other) == old(At(other))
      ensures var rows := feed.Latest(count, fetchedAt);
              if !faults.up || rows == [] then At(key) == old(At(key)) && result == None
              else At(key) == Persisted(old(At(key)), rows, faults) &&
                   result == if faults.csvWrites then Some(Tail(rows, count)) else None
    {
      var rows := feed.Latest(count, fetchedAt);
      if !faults.up || rows == [] {
        return None;
      }
      var ok := PersistEntry(key, rows, faults);
      result := if ok then Some(Tail(rows, count)) else None;
    }

    method AppendRefresh(key: string, feed: Feed, count: nat, fetchedAt: int, faults: Faults, held: Entry)
      returns (result: Option<seq<Candle>>)
      modifies this
      ensures forall other :: other != key ==> At(other) == old(At(other))
      ensures At(key) == AppendedSlot(feed, old(At(key)), held, fetchedAt, faults)
      ensures result == AppendResult(feed, held, count, fetchedAt, faults)
    {
      var newer := feed.From(held.last + feed.frame.Delta(), fetchedAt);
      if !faults.up || newer.None? {
        return None;
      }
      if newer.value == [] {
        return Some(Tail(held.candles, count));
      }
      var rows := Combine(held.candles, newer.value);
      if rows == [] {
        return None;
      }
      var ok := PersistEntry(key, rows, faults);
      result := if ok then Some(Tail(rows, count)) else None;
    }

    method PersistEntry(key: string, rows: seq<Candle>, faults: Faults) returns (ok: bool)
      requires rows != []
      modifies this
      ensures forall other :: other != key ==> At(other) == old(At(other))
      ensures At(key) == Persisted(old(At(key)), rows, faults) && ok == faults.csvWrites
    {
      if !faults.csvWrites {
        return false;
      }
      var entry := EntryOf(rows, |rows|);
      csv := csv[key := rows];
      if faults.saveMeta {
        meta := meta[key := Metadata(entry.last, entry.count)];
      }
      memory := memory[key := entry];
      ok := true;
    }

    method ClearMemory()
      modifies this`memory
      ensures forall key :: At(key) == old(At(key)).(memory := None)
    {
      memory := map[];
    }
  }

  /** The only way to the cache: counts beyond the broker's maximum are refused. */
  class MarketDataProvider {
    const cache: CandleCache

    constructor (cache: CandleCache)
      ensures this.cache == cache
    {
      this.cache := cache;
    }

    method GetCandles(key: string, feed: Feed, count: int, checkedAt: int, fetchedAt: int, faults: Faults)
      returns (result: Option<seq<Candle>>)
      requires cache.cal.Valid() && cache.cal.Covers(checkedAt)
      requires key in cache.csv ==> cache.csv[key] != []
      modifies cache
      ensures forall other :: other != key ==> cache.At(other) == old(cache.At(other))
      ensures count <= 0 || count > MAX_CANDLES ==> result == None && cache.At(key) == old(cache.At(key))
      ensures 0 < count <= MAX_CANDLES ==>
                var r := Request(count, checkedAt, fetchedAt, faults);
                cache.At(key) == SlotAfter(cache.cal, feed, old(cache.At(key)), r) &&
                result == Answer(cache.cal, feed, old(cache.At(key)), r)
    {
      if count <= 0 || count > MAX_CANDLES {
        return None;
      }
      result := cache.GetCandles(key, feed, count, checkedAt, fetchedAt, faults);
    }
  }

  // ---- Invariant -----------------------------------------------------------------------

  /** The rows are a nonempty, gap-free, duplicate-free run of the true closed series. */
  ghost predicate IsRun(feed: Feed, rows: seq<Candle>, now: int) {
    exists i: nat, j: nat :: IsRunAt(feed, rows, now, i, j)
  }

  ghost predicate IsRunAt(feed: Feed, rows: seq<Candle>, now: int, i: nat, j: nat) {
    i < j <= feed.ClosedCount(now) && rows == feed.series[i..j]
  }

  ghost predicate GoodSlot(feed: Feed, s: Slot, now: int) {
    (s.csv.Some? ==> IsRun(feed, s.csv.value, now)) &&
    (s.meta.Some? ==> s.csv.Some? && s.meta.value.count <= |s.csv.value|) &&
    (s.memory.Some? ==>
       s.csv == Some(s.memory.value.candles) && s.memory.value == EntryOf(s.memory.value.candles, s.memory.value.count) &&
       s.memory.value.count <= |s.memory.value.candles| &&
       (s.meta.Some? ==> s.meta.value.count <= s.memory.value.count))
  }

  lemma RunsStayRuns(feed: Feed, rows: seq<Candle>, now: int, later: int)
    requires feed.Valid() && now <= later && IsRun(feed, rows, now)
    ensures IsRun(feed, rows, later)
  {
    var i: nat, j: nat :| IsRunAt(feed, rows, now, i, j);
    feed.ClosedMonotone(now, later);
    assert IsRunAt(feed, rows, later, i, j);
  }

  lemma TimePassesGood(feed: Feed, s: Slot, now: int, later: int)
    requires feed.Valid() && now <= later && GoodSlot(feed, s, now)
    ensures GoodSlot(feed, s, later)
  {
    if s.csv.Some? {
      RunsStayRuns(feed, s.csv.value, now, later);
    }
  }

  lemma LoadingIsGood(feed: Feed, s: Slot, now: int, faults: Faults)
    requires feed.Valid() && GoodSlot(feed, s, now)
    ensures GoodSlot(feed, Loaded(s, faults), now) && Loaded(s, faults).csv == s.csv
    ensures s.csv.Some? <==> Loaded(s, faults).memory.Some?
  {
    if s.csv.Some? {
      var i: nat, j: nat :| IsRunAt(feed, s.csv.value, now, i, j);
      assert s.csv.value != [];
    }
  }

  /** Where the rows of a refresh after the first j candles begin and end. */
  function PageStart(feed: Feed, j: nat): nat
    requires 0 < j <= |feed.series|
  {
    feed.FirstFrom(feed.series[j - 1].time + feed.frame.Delta())
  }

  function PageEnd(feed: Feed, j: nat, now: int): int
    requires 0 < j <= |feed.series|
  {
    Min(feed.ClosedCount(now), PageStart(feed, j) + feed.page)
  }

  lemma PageIs(feed: Feed, j: nat, now: int)
    requires feed.Valid() && 0 < j <= feed.ClosedCount(now)
    ensures var newer := feed.From(feed.series[j - 1].time + feed.frame.Delta(), now);
            j - 1 <= PageStart(feed, j) <= j <= PageEnd(feed, j, now) <= feed.ClosedCount(now) &&
            (newer.Some? ==> newer.value == feed.series[PageStart(feed, j)..PageEnd(feed, j, now)])
  {
    feed.NextIsFirstFrom(j - 1);
    feed.AtMostOneForms(now);
  }

  lemma SliceAscends(feed: Feed, i: nat, k: nat)
    requires feed.Ordered() && i <= k <= |feed.series|
    ensures Ascending(feed.series[i..k])
  {
    forall a: nat, b: nat | a < b < k - i ensures feed.series[i..k][a].time < feed.series[i..k][b].time {
      assert feed.Follows(i + a, i + b);
    }
  }

  /** A refresh of a run from where it ends is the longer run: nothing is lost, doubled or
      skipped in between. */
  lemma RefreshExtendsTheRun(feed: Feed, held: seq<Candle>, now: int, i: nat, j: nat)
    requires feed.Valid() && IsRunAt(feed, held, now, i, j)
    ensures j - 1 <= PageStart(feed, j) <= j <= PageEnd(feed, j, now) <= feed.ClosedCount(now)
    ensures var newer := feed.From(held[|held| - 1].time + feed.frame.Delta(), now);
            newer.Some? ==> newer.value == feed.series[PageStart(feed, j)..PageEnd(feed, j, now)] &&
                            Combine(held, newer.value) == feed.series[i..PageEnd(feed, j, now)]
  {
    PageIs(feed, j, now);
    assert held[|held| - 1] == feed.series[j - 1];
    SlicesCombine(feed, i, j, PageStart(feed, j), PageEnd(feed, j, now));
  }

  /** Two slices that meet, or share one candle, combine to one. */
  lemma SlicesCombine(feed: Feed, i: nat, j: nat, first: nat, k: nat)
    requires feed.Ordered() && i < j <= k <= |feed.series| && j - 1 <= first <= j
    ensures Combine(feed.series[i..j], feed.series[first..k]) == feed.series[i..k]
  {
    if first == j {
      SlicesMeet(feed, i, j, k);
    } else {
      SlicesShare(feed, i, j, k);
    }
  }

  lemma SlicesMeet(feed: Feed, i: nat, j: nat, k: nat)
    requires feed.Ordered() && i <= j <= k <= |feed.series|
    ensures Combine(feed.series[i..j], feed.series[j..k]) == feed.series[i..k]
  {
    assert feed.series[i..j] + feed.series[j..k] == feed.series[i..k];
    SliceAscends(feed, i, k);
    AscendingIsLeftAlone(feed.series[i..k]);
  }

  lemma SlicesShare(feed: Feed, i: nat, j: nat, k: nat)
    requires feed.Ordered() && i < j <= k <= |feed.series|
    ensures Combine(feed.series[i..j], feed.series[j - 1..k]) == feed.series[i..k]
  {
    var a, x, b := feed.series[i..j - 1], feed.series[j - 1], feed.series[j..k];
    assert feed.series[i..j] == a + [x] && feed.series[j - 1..k] == [x] + b && feed.series[i..k] == a + [x] + b;
    SliceAscends(feed, i, k);
    RepeatIsDropped(a, x, b);
    AscendingIsLeftAlone(a + [x] + b);
  }

  /** The newest rows are a run that ends with the newest closed candle, and hold at least
      `count` rows unless the series is shorter or the count reaches the broker's maximum. */
  lemma LatestIsTheNewestRun(feed: Feed, count: nat, now: int)
    requires feed.Valid() && feed.Latest(count, now) != []
    ensures exists i: nat :: IsRunAt(feed, feed.Latest(count, now), now, i, feed.ClosedCount(now))
    ensures |feed.Latest(count, now)| >= Min(Min(count, MAX_CANDLES - 1), feed.ClosedCount(now))
  {
    feed.AtMostOneForms(now);
    var started := feed.Count(now);
    var asked := if count + 1 < MAX_CANDLES then count + 1 else MAX_CANDLES;
    var first := if started < asked then 0 else started - asked;
    assert IsRunAt(feed, feed.Latest(count, now), now, first, feed.ClosedCount(now));
  }

  /** What a refresh leaves of a run is a run again, and no shorter. */
  lemma RefreshedIsARun(feed: Feed, entry: Entry, now: int)
    requires feed.Valid() && IsRun(feed, entry.candles, now) && entry.candles != [] && entry.last == entry.candles[|entry.candles| - 1].time
    ensures var rows := RefreshedRows(feed, entry, now);
            rows.Some? ==> IsRun(feed, rows.value, now) && |rows.value| >= |entry.candles|
    ensures var newer := feed.From(entry.last + feed.frame.Delta(), now);
            newer.Some? && newer.value != [] ==> RefreshedRows(feed, entry, now).Some?
  {
    var i: nat, j: nat :| IsRunAt(feed, entry.candles, now, i, j);
    RefreshedIs(feed, entry, now, i, j);
    LongerRun(feed, entry.candles, now, i, j, PageEnd(feed, j, now));
  }

  lemma RefreshedIs(feed: Feed, entry: Entry, now: int, i: nat, j: nat)
    requires feed.Valid() && IsRunAt(feed, entry.candles, now, i, j) && entry.last == entry.candles[|entry.candles| - 1].time
    ensures j <= PageEnd(feed, j, now) <= feed.ClosedCount(now)
    ensures var newer := feed.From(entry.last + feed.frame.Delta(), now);
            RefreshedRows(feed, entry, now) ==
            if newer.Some? && newer.value != [] then Some(feed.series[i..PageEnd(feed, j, now)]) else None
  {
    RefreshExtendsTheRun(feed, entry.candles, now, i, j);
    CombinedRows(feed, entry, now, feed.series[i..PageEnd(feed, j, now)]);
  }

  lemma CombinedRows(feed: Feed, entry: Entry, now: int, rows: seq<Candle>)
    requires var newer := feed.From(entry.last + feed.frame.Delta(), now);
             newer.Some? ==> Combine(entry.candles, newer.value) == rows && rows != []
    ensures var newer := feed.From(entry.last + feed.frame.Delta(), now);
            RefreshedRows(feed, entry, now) == if newer.Some? && newer.value != [] then Some(rows) else None
  {
  }

  lemma LongerRun(feed: Feed, held: seq<Candle>, now: int, i: nat, j: nat, k: nat)
    requires IsRunAt(feed, held, now, i, j) && j <= k <= feed.ClosedCount(now)
    ensures IsRun(feed, feed.series[i..k], now) && |feed.series[i..k]| >= |held|
  {
    assert IsRunAt(feed, feed.series[i..k], now, i, k);
  }

  lemma LatestIsARun(feed: Feed, count: nat, now: int)
    requires feed.Valid() && feed.Latest(count, now) != []
    ensures IsRun(feed, feed.Latest(count, now), now)
    ensures |feed.Latest(count, now)| >= Min(Min(count, MAX_CANDLES - 1), feed.ClosedCount(now))
  {
    LatestIsTheNewestRun(feed, count, now);
  }

  lemma RunsFitTheSeries(feed: Feed, rows: seq<Candle>, now: int)
    requires IsRun(feed, rows, now)
    ensures 0 < |rows| <= feed.ClosedCount(now)
  {
  }

  /** What a lookup persists is again a run. */
  lemma FetchedIsARun(cal: Calendar, feed: Feed, s: Slot, r: Request)
    requires feed.Valid() && cal.Valid() && cal.Covers(r.checkedAt)
    requires GoodSlot(feed, s, r.fetchedAt) && Fetched(cal, feed, s, r).Some?
    ensures IsRun(feed, Fetched(cal, feed, s, r).value, r.fetchedAt)
    ensures var entry := Loaded(s, r.faults).memory;
            entry.Some? && !IsFresh(cal, feed.frame, entry.value.last, r.checkedAt) ==>
              |entry.value.candles| <= |Fetched(cal, feed, s, r).value|
  {
    LoadingIsGood(feed, s, r.fetchedAt, r.faults);
    var entry := Loaded(s, r.faults).memory;
    if entry.Some? && !IsFresh(cal, feed.frame, entry.value.last, r.checkedAt) {
      RunsFitTheSeries(feed, entry.value.candles, r.fetchedAt);
      LoadedFetch(cal, feed, s, r);
      StaleFetch(cal, feed, Loaded(s, r.faults), r);
      RefreshedIsARun(feed, entry.value, r.fetchedAt);
    } else {
      LatestIsARun(feed, r.count, r.fetchedAt);
    }
  }

  lemma PersistingIsGoodIff(feed: Feed, s: Slot, rows: seq<Candle>, faults: Faults, now: int)
    requires GoodSlot(feed, s, now) && rows != [] && IsRun(feed, rows, now)
    ensures GoodSlot(feed, Persisted(s, rows, faults), now) <==>
            !(faults.csvWrites && !faults.saveMeta && s.meta.Some? && s.meta.value.count > |rows|)
  {
  }

  /** A fresh entry is replaced by fewer rows than the metadata claims, and the metadata write
      fails. */
  predicate Overstates(cal: Calendar, feed: Feed, s: Slot, r: Request)
    requires cal.Valid() && cal.Covers(r.checkedAt)
  {
    var loaded, rows := Loaded(s, r.faults), feed.Latest(r.count, r.fetchedAt);
    r.faults.up && r.faults.csvWrites && !r.faults.saveMeta &&
    loaded.memory.Some? && IsFresh(cal, feed.frame, loaded.memory.value.last, r.checkedAt) &&
    loaded.memory.value.count < r.count &&
    rows != [] && loaded.meta.Some? && loaded.meta.value.count > |rows|
  }

  /** A lookup of any count, whatever fails in it, leaves runs of the true series at all levels
      and counts that promise no more than the rows can give, except in exactly one case. */
  lemma LookupKeepsGoodIff(cal: Calendar, feed: Feed, s: Slot, r: Request, now: int)
    requires feed.Valid() && cal.Valid() && cal.Covers(r.checkedAt) && now <= r.checkedAt <= r.fetchedAt
    requires GoodSlot(feed, s, now)
    ensures GoodSlot(feed, SlotAfter(cal, feed, s, r), r.fetchedAt) <==> !Overstates(cal, feed, s, r)
  {
    TimePassesGood(feed, s, now, r.fetchedAt);
    LoadingIsGood(feed, s, r.fetchedAt, r.faults);
    if Fetched(cal, feed, s, r).Some? {
      var rows := Fetched(cal, feed, s, r).value;
      FetchedIsARun(cal, feed, s, r);
      RunsFitTheSeries(feed, rows, r.fetchedAt);
      PersistingIsGoodIff(feed, Loaded(s, r.faults), rows, r.faults, r.fetchedAt);
    }
  }

  /** Up to the count the provider lets through, that case never arises. */
  lemma AcceptedCountsNeverOverstate(cal: Calendar, feed: Feed, s: Slot, r: Request)
    requires feed.Valid() && cal.Valid() && cal.Covers(r.checkedAt) && r.count <= MAX_CANDLES
    requires GoodSlot(feed, s, r.fetchedAt)
    ensures !Overstates(cal, feed, s, r)
  {
    LoadingIsGood(feed, s, r.fetchedAt, r.faults);
    var loaded := Loaded(s, r.faults);
    if loaded.memory.Some? && feed.Latest(r.count, r.fetchedAt) != [] {
      RunsFitTheSeries(feed, loaded.memory.value.candles, r.fetchedAt);
      LatestIsARun(feed, r.count, r.fetchedAt);
    }
  }

  /** Every lookup the provider lets through keeps the levels good. */
  lemma LookupKeepsGood(cal: Calendar, feed: Feed, s: Slot, r: Request, now: int)
    requires feed.Valid() && cal.Valid() && cal.Covers(r.checkedAt) && now <= r.checkedAt <= r.fetchedAt
    requires GoodSlot(feed, s, now) && r.count <= MAX_CANDLES
    ensures GoodSlot(feed, SlotAfter(cal, feed, s, r), r.fetchedAt)
  {
    TimePassesGood(feed, s, now, r.fetchedAt);
    AcceptedCountsNeverOverstate(cal, feed, s, r);
    LookupKeepsGoodIff(cal, feed, s, r, now);
  }

  // ---- Runs with crashes ---------------------------------------------------------------

  /** The process dies during a lookup: memory is lost, and what is on disk is what the writes
      so far have left there, in their order: bootstrapped metadata, CSV, metadata. */
  function DiskAt(cal: Calendar, feed: Feed, s: Slot, r: Request, writes: nat): Slot
    requires cal.Valid() && cal.Covers(r.checkedAt)
  {
    var reached :=
      if writes == 0 then s
      else if writes == 1 then Loaded(s, r.faults)
      else if writes == 2 then SlotAfter(cal, feed, s, r.(faults := r.faults.(saveMeta := false)))
      else SlotAfter(cal, feed, s, r);
    reached.(memory := None)
  }

  /** A read that never asks the broker; it loads the CSV file only next to metadata. */
  function CachedOnly(s: Slot): Slot {
    if s.memory.None? && s.meta.None? then s else Loaded(s, Faults(false, false, false, false))
  }

  datatype Action = Lookup(r: Request) | Crash(r: Request, writes: nat) | Peek | Clear | Wait

  ghost predicate Next(cal: Calendar, feed: Feed, s: Slot, now: int, s': Slot, now': int, action: Action)
    requires cal.Valid()
  {
    match action
    case Lookup(r) =>
      cal.Covers(r.checkedAt) && now <= r.checkedAt <= r.fetchedAt == now' && r.count <= MAX_CANDLES && s' == SlotAfter(cal, feed, s, r)
    case Crash(r, writes) =>
      cal.Covers(r.checkedAt) && now <= r.checkedAt <= r.fetchedAt == now' && r.count <= MAX_CANDLES && s' == DiskAt(cal, feed, s, r, writes)
    case Peek => now' == now && s' == CachedOnly(s)
    case Clear => now' == now && s' == s.(memory := None)
    case Wait => now <= now' && s' == s
  }

  ghost predicate IsHistory(cal: Calendar, feed: Feed, slots: seq<Slot>, times: seq<int>, actions: seq<Action>) {
    |slots| == |times| == |actions| + 1 && feed.Valid() && cal.Valid() && GoodSlot(feed, slots[0], times[0]) &&
    forall i :: 0 <= i < |actions| ==> Next(cal, feed, slots[i], times[i], slots[i + 1], times[i + 1], actions[i])
  }

  lemma ForgettingIsGood(feed: Feed, s: Slot, now: int)
    requires GoodSlot(feed, s, now)
    ensures GoodSlot(feed, s.(memory := None), now)
  {
  }

  lemma CrashKeepsGood(cal: Calendar, feed: Feed, s: Slot, r: Request, now: int, writes: nat)
    requires feed.Valid() && cal.Valid() && cal.Covers(r.checkedAt) && now <= r.checkedAt <= r.fetchedAt
    requires GoodSlot(feed, s, now) && r.count <= MAX_CANDLES
    ensures GoodSlot(feed, DiskAt(cal, feed, s, r, writes), r.fetchedAt)
  {
    if writes <= 1 {
      TimePassesGood(feed, s, now, r.fetchedAt);
      LoadingIsGood(feed, s, r.fetchedAt, r.faults);
      ForgettingIsGood(feed, if writes == 0 then s else Loaded(s, r.faults), r.fetchedAt);
    } else {
      var r' := if writes == 2 then r.(faults := r.faults.(saveMeta := false)) else r;
      LookupKeepsGood(cal, feed, s, r', now);
      ForgettingIsGood(feed, SlotAfter(cal, feed, s, r'), r.fetchedAt);
    }
  }

  /** At every point of every history of lookups, partial failures, crashes and restarts, each
      level holds a run of the true closed series, and
      metadata count <= entry count <= rows held. */
  lemma {:induction false} EveryHistoryStaysGood(cal: Calendar, feed: Feed, slots: seq<Slot>, times: seq<int>, actions: seq<Action>, i: nat)
    requires IsHistory(cal, feed, slots, times, actions) && i < |slots|
    ensures GoodSlot(feed, slots[i], times[i])
  {
    if i > 0 {
      var s, now, action := slots[i - 1], times[i - 1], actions[i - 1];
      EveryHistoryStaysGood(cal, feed, slots, times, actions, i - 1);
      assert Next(cal, feed, s, now, slots[i], times[i], action);
      match action
      case Lookup(r) => LookupKeepsGood(cal, feed, s, r, now);
      case Crash(r, writes) => CrashKeepsGood(cal, feed, s, r, now, writes);
      case Peek => LoadingIsGood(feed, s, now, Faults(false, false, false, false));
      case Clear =>
      case Wait => TimePassesGood(feed, s, now, times[i]);
    }
  }

  // ---- What callers get ----------------------------------------------------------------

  /** What a client without a cache would return. */
  function Uncached(feed: Feed, count: nat, now: int): seq<Candle> {
    Tail(feed.Latest(count, now), count)
  }

  /** A request for `count` rows reaches them all.  At the broker's maximum there is no room
      for the forming candle, so one row is missing as long as a candle is forming. */
  predicate Reaches(feed: Feed, count: nat, now: int) {
    count < MAX_CANDLES || feed.Count(now) <= MAX_CANDLES ||
    (count == MAX_CANDLES && feed.Count(now) == feed.ClosedCount(now))
  }

  lemma UncachedIsTheNewestIff(feed: Feed, count: nat, now: int)
    requires feed.Valid() && 0 < count
    ensures Uncached(feed, count, now) == Tail(feed.Closed(now), count) <==> Reaches(feed, count, now)
    ensures feed.Latest(count, now) == [] <==> feed.ClosedCount(now) == 0
  {
    var first := LatestFrom(feed, count, now);
    if feed.ClosedCount(now) > 0 {
      TailsOfOneEnd(feed.series, first, feed.ClosedCount(now), count);
    }
  }

  lemma LatestFrom(feed: Feed, count: nat, now: int) returns (first: nat)
    requires feed.Valid() && 0 < count
    ensures first <= feed.ClosedCount(now) && (first < feed.ClosedCount(now) || feed.ClosedCount(now) == 0)
    ensures feed.Latest(count, now) == feed.series[first..feed.ClosedCount(now)]
    ensures count <= feed.ClosedCount(now) - first || first == 0 <==> Reaches(feed, count, now)
  {
    feed.AtMostOneForms(now);
    var asked := Min(count + 1, MAX_CANDLES);
    first := if feed.Count(now) < asked then 0 else feed.Count(now) - asked;
  }

  /** A hit on a fresh entry answers exactly what an uncached fetch would: the newest `count`
      closed candles, never fewer. */
  lemma FreshHitEqualsAnUncachedFetch(cal: Calendar, feed: Feed, s: Slot, r: Request)
    requires feed.Valid() && cal.Valid() && cal.Covers(r.checkedAt) && 0 < r.count
    requires GoodSlot(feed, s, r.checkedAt) && (feed.frame.W? ==> feed.WeeksEndOnFridays(cal, r.checkedAt))
    requires var entry := Loaded(s, r.faults).memory;
             entry.Some? && IsFresh(cal, feed.frame, entry.value.last, r.checkedAt) && entry.value.count >= r.count
    ensures Answer(cal, feed, s, r) == Some(Tail(feed.Closed(r.checkedAt), r.count))
    ensures |Answer(cal, feed, s, r).value| == r.count
    ensures Answer(cal, feed, s, r) == Some(Uncached(feed, r.count, r.checkedAt)) <==> Reaches(feed, r.count, r.checkedAt)
  {
    LoadingIsGood(feed, s, r.checkedAt, r.faults);
    FreshRowsAreTheNewest(cal, feed, Loaded(s, r.faults).memory.value, r.checkedAt, r.count);
    UncachedIsTheNewestIff(feed, r.count, r.checkedAt);
  }

  lemma FreshRowsAreTheNewest(cal: Calendar, feed: Feed, entry: Entry, now: int, count: nat)
    requires feed.Valid() && cal.Valid() && cal.Covers(now) && IsRun(feed, entry.candles, now)
    requires feed.frame.W? ==> feed.WeeksEndOnFridays(cal, now)
    requires entry.candles != [] && entry.last == entry.candles[|entry.candles| - 1].time
    requires IsFresh(cal, feed.frame, entry.last, now) && 0 < count <= |entry.candles|
    ensures Tail(entry.candles, count) == Tail(feed.Closed(now), count) && |Tail(entry.candles, count)| == count
  {
    var i: nat, j: nat :| IsRunAt(feed, entry.candles, now, i, j);
    RunEndsAt(feed, entry.candles, now, i, j);
    feed.FreshMeansNewest(cal, j - 1, now);
    assert j == feed.ClosedCount(now) && |entry.candles| == j - i;
    TailsOfOneEnd(feed.series, i, j, count);
    TailIsTheNewest(entry.candles, count);
  }

  /** A lookup that replaces the entry answers the newest closed candles as of its fetch, as
      many as were asked for, exactly when the request reaches them. */
  lemma ReplacementIsTheNewestIff(cal: Calendar, feed: Feed, s: Slot, r: Request)
    requires feed.Valid() && cal.Valid() && cal.Covers(r.checkedAt) && 0 < r.count
    requires var entry := Loaded(s, r.faults).memory;
             entry.None? || (IsFresh(cal, feed.frame, entry.value.last, r.checkedAt) && entry.value.count < r.count)
    requires r.faults.up && r.faults.csvWrites
    ensures Answer(cal, feed, s, r).None? <==> feed.ClosedCount(r.fetchedAt) == 0
    ensures Answer(cal, feed, s, r).Some? ==>
              (Answer(cal, feed, s, r).value == Tail(feed.Closed(r.fetchedAt), r.count) <==> Reaches(feed, r.count, r.fetchedAt))
  {
    UncachedIsTheNewestIff(feed, r.count, r.fetchedAt);
  }

  /** When the broker does not answer, nothing the cache knew is lost: the CSV rows stay, and
      memory holds what it held or what the CSV file holds. */
  lemma FailedFetchChangesNothing(cal: Calendar, feed: Feed, s: Slot, r: Request)
    requires cal.Valid() && cal.Covers(r.checkedAt) && !r.faults.up
    ensures SlotAfter(cal, feed, s, r) == Loaded(s, r.faults) && SlotAfter(cal, feed, s, r).csv == s.csv
    ensures s.memory.Some? ==> SlotAfter(cal, feed, s, r) == s
  {
  }

  /** A stale entry is only appended to, so its answer is the newest closed candles exactly
      when the broker's page reaches the newest one and the longer run either is long enough
      or starts where the series starts. */
  lemma StaleRefreshIsTheNewestIff(feed: Feed, held: seq<Candle>, count: nat, now: int, i: nat, j: nat)
    requires feed.Valid() && IsRunAt(feed, held, now, i, j) && count > 0
    requires feed.From(held[|held| - 1].time + feed.frame.Delta(), now).Some?
    ensures var newer := feed.From(held[|held| - 1].time + feed.frame.Delta(), now).value;
            Tail(Combine(held, newer), count) == Tail(feed.Closed(now), count) <==>
            feed.ClosedCount(now) <= PageStart(feed, j) + feed.page && (count <= feed.ClosedCount(now) - i || i == 0)
  {
    RefreshExtendsTheRun(feed, held, now, i, j);
    TailsOfRuns(feed, i, PageEnd(feed, j, now), feed.ClosedCount(now), count);
  }

  lemma TailsOfRuns(feed: Feed, i: nat, k: nat, n: nat, count: nat)
    requires feed.Valid() && i < k <= n <= |feed.series| && count > 0
    ensures Tail(feed.series[i..k], count) == Tail(feed.series[..n], count) <==> k == n && (count <= n - i || i == 0)
  {
    if k < n {
      TailsEndApart(feed, i, k, n, count);
    } else {
      TailsOfOneEnd(feed.series, i, n, count);
    }
  }

  lemma TailsEndApart(feed: Feed, i: nat, k: nat, n: nat, count: nat)
    requires feed.Valid() && i < k < n <= |feed.series| && count > 0
    ensures Tail(feed.series[i..k], count) != Tail(feed.series[..n], count)
  {
    TailEndsAlike(feed.series[i..k], count);
    TailEndsAlike(feed.series[..n], count);
    assert feed.Apart(k - 1, n - 1);
  }

  lemma TailEndsAlike(rows: seq<Candle>, count: nat)
    requires rows != [] && count > 0
    ensures Tail(rows, count) != [] && Tail(rows, count)[|Tail(rows, count)| - 1] == rows[|rows| - 1]
  {
  }

  lemma TailsOfOneEnd(rows: seq<Candle>, i: nat, n: nat, count: nat)
    requires i < n <= |rows| && count > 0
    ensures Tail(rows[i..n], count) == Tail(rows[..n], count) <==> count <= n - i || i == 0
  {
    var a, b := Tail(rows[i..n], count), Tail(rows[..n], count);
    assert |a| == (if n - i <= count then n - i else count) && |b| == (if n <= count then n else count);
  }

  /** The lookup finds an entry that is the run [i..j) of the series and is not fresh. */
  ghost predicate FindsStaleRun(cal: Calendar, feed: Feed, s: Slot, r: Request, i: nat, j: nat) {
    feed.Valid() && cal.Valid() && cal.Covers(r.checkedAt) && GoodSlot(feed, s, r.fetchedAt) &&
    var entry := Loaded(s, r.faults).memory;
    entry.Some? && IsRunAt(feed, entry.value.candles, r.fetchedAt, i, j) &&
    !IsFresh(cal, feed.frame, entry.value.last, r.checkedAt)
  }

  /** What a stale lookup answers, when it does: the newest of the run from where the held rows
      began to where the broker's page ended.  Those rows are in memory and in the CSV file. */
  lemma StaleLookupAnswersTheLongerRun(cal: Calendar, feed: Feed, s: Slot, r: Request, i: nat, j: nat)
    requires FindsStaleRun(cal, feed, s, r, i, j) && Answer(cal, feed, s, r).Some?
    ensures Min(feed.ClosedCount(r.fetchedAt), j - 1 + feed.page) <= PageEnd(feed, j, r.fetchedAt) <= feed.ClosedCount(r.fetchedAt)
    ensures j <= PageEnd(feed, j, r.fetchedAt)
    ensures var rows := feed.series[i..PageEnd(feed, j, r.fetchedAt)];
            Answer(cal, feed, s, r).value == Tail(rows, r.count) && HeldIs(SlotAfter(cal, feed, s, r), rows)
  {
    LoadingIsGood(feed, s, r.fetchedAt, r.faults);
    LoadingTwice(cal, feed, s, r);
    StaleAnswerIs(cal, feed, Loaded(s, r.faults), r, i, j);
  }

  /** The rows are in memory, and in the CSV file. */
  predicate HeldIs(s: Slot, rows: seq<Candle>) {
    s.memory.Some? && s.memory.value.candles == rows && s.csv == Some(rows)
  }

  lemma StaleAnswerIs(cal: Calendar, feed: Feed, s: Slot, r: Request, i: nat, j: nat)
    requires FindsStaleRun(cal, feed, s, r, i, j) && s.memory.Some? && Answer(cal, feed, s, r).Some?
    ensures Min(feed.ClosedCount(r.fetchedAt), j - 1 + feed.page) <= PageEnd(feed, j, r.fetchedAt) <= feed.ClosedCount(r.fetchedAt)
    ensures j <= PageEnd(feed, j, r.fetchedAt)
    ensures var rows := feed.series[i..PageEnd(feed, j, r.fetchedAt)];
            Answer(cal, feed, s, r).value == Tail(rows, r.count) && HeldIs(SlotAfter(cal, feed, s, r), rows)
  {
    var k := PageEnd(feed, j, r.fetchedAt);
    AppendingLookup(cal, feed, s, r);
    LongerRunIs(feed, s.memory.value, r.fetchedAt, i, j);
    AppendedIs(feed, s, r, feed.series[i..k]);
  }

  /** Which rows a refresh leaves of a run, whether it brings any or not. */
  lemma LongerRunIs(feed: Feed, held: Entry, now: int, i: nat, j: nat)
    requires feed.Valid() && IsRunAt(feed, held.candles, now, i, j) && held.last == held.candles[|held.candles| - 1].time
    ensures Min(feed.ClosedCount(now), j - 1 + feed.page) <= PageEnd(feed, j, now) <= feed.ClosedCount(now)
    ensures j <= PageEnd(feed, j, now)
    ensures LeavesRows(feed, held, now, feed.series[i..PageEnd(feed, j, now)])
  {
    RunEndsAt(feed, held.candles, now, i, j);
    PageReaches(feed, j, now);
    RefreshedIs(feed, held, now, i, j);
  }

  predicate LeavesRows(feed: Feed, held: Entry, now: int, rows: seq<Candle>) {
    var newer := feed.From(held.last + feed.frame.Delta(), now);
    newer.Some? ==> if newer.value == [] then rows == held.candles else RefreshedRows(feed, held, now) == Some(rows)
  }

  lemma AppendedIs(feed: Feed, s: Slot, r: Request, rows: seq<Candle>)
    requires s.memory.Some? && HeldIs(s, s.memory.value.candles) && LeavesRows(feed, s.memory.value, r.fetchedAt, rows)
    requires AppendResult(feed, s.memory.value, r.count, r.fetchedAt, r.faults).Some?
    ensures AppendResult(feed, s.memory.value, r.count, r.fetchedAt, r.faults).value == Tail(rows, r.count)
    ensures HeldIs(AppendedSlot(feed, s, s.memory.value, r.fetchedAt, r.faults), rows)
  {
  }

  /** A page ends no earlier than it must, and with the held rows when it brings none. */
  lemma PageReaches(feed: Feed, j: nat, now: int)
    requires feed.Valid() && 0 < j <= feed.ClosedCount(now)
    ensures Min(feed.ClosedCount(now), j - 1 + feed.page) <= PageEnd(feed, j, now)
    ensures feed.From(feed.series[j - 1].time + feed.frame.Delta(), now) == Some([]) ==> PageEnd(feed, j, now) == j
  {
    PageIs(feed, j, now);
    FromIs(feed, feed.series[j - 1].time + feed.frame.Delta(), now);
  }

  lemma RunEndsAt(feed: Feed, rows: seq<Candle>, now: int, i: nat, j: nat)
    requires IsRunAt(feed, rows, now, i, j)
    ensures rows[|rows| - 1] == feed.series[j - 1]
  {
  }

  /** So a stale lookup answers the newest closed candles, as many as there are up to the count,
      exactly when the broker's page reaches the newest one and the longer run either is long
      enough or starts where the series starts. */
  lemma StaleLookupIsTheNewestIff(cal: Calendar, feed: Feed, s: Slot, r: Request, i: nat, j: nat)
    requires FindsStaleRun(cal, feed, s, r, i, j) && Answer(cal, feed, s, r).Some? && r.count > 0
    ensures Answer(cal, feed, s, r).value == Tail(feed.Closed(r.fetchedAt), r.count) <==>
            feed.ClosedCount(r.fetchedAt) <= PageStart(feed, j) + feed.page &&
            (r.count <= feed.ClosedCount(r.fetchedAt) - i || i == 0)
  {
    StaleLookupAnswersTheLongerRun(cal, feed, s, r, i, j);
    TailsOfRuns(feed, i, PageEnd(feed, j, r.fetchedAt), feed.ClosedCount(r.fetchedAt), r.count);
  }

  /** Whatever path a lookup takes, what it answers is the newest of the rows it leaves in
      memory and in the CSV file. */
  lemma AnswersAreKept(cal: Calendar, feed: Feed, s: Slot, r: Request)
    requires feed.Valid() && cal.Valid() && cal.Covers(r.checkedAt) && GoodSlot(feed, s, r.fetchedAt)
    requires Answer(cal, feed, s, r).Some?
    ensures var after := SlotAfter(cal, feed, s, r);
            after.memory.Some? && HeldIs(after, after.memory.value.candles) &&
            Answer(cal, feed, s, r).value == Tail(after.memory.value.candles, r.count)
  {
    LoadingIsGood(feed, s, r.fetchedAt, r.faults);
  }

  /** A lookup that has to replace the entry reads up to the newest closed candle, from where its
      request begins: one row more than the count back, but no more than the broker's maximum. */
  lemma ReplacementAnswersFrom(cal: Calendar, feed: Feed, s: Slot, r: Request)
    requires feed.Valid() && cal.Valid() && cal.Covers(r.checkedAt) && GoodSlot(feed, s, r.fetchedAt)
    requires var entry := Loaded(s, r.faults).memory;
             entry.None? || (IsFresh(cal, feed.frame, entry.value.last, r.checkedAt) && entry.value.count < r.count)
    requires Answer(cal, feed, s, r).Some?
    ensures var started := feed.Count(r.fetchedAt);
            var first := started - Min(started, Min(r.count + 1, MAX_CANDLES));
            first < feed.ClosedCount(r.fetchedAt) &&
            HeldIs(SlotAfter(cal, feed, s, r), feed.series[first..feed.ClosedCount(r.fetchedAt)]) &&
            Answer(cal, feed, s, r).value == Tail(feed.series[first..feed.ClosedCount(r.fetchedAt)], r.count)
  {
    AnswersAreKept(cal, feed, s, r);
  }

  /** A stale lookup answers unless the broker cannot be reached, or no candle is under way or
      has started since, or what is complete there is not over, or there are new rows and they
      cannot be written.  Held rows are only returned when the answer has none that is complete. */
  lemma StaleLookupAnswersIff(cal: Calendar, feed: Feed, s: Slot, r: Request)
    requires feed.Valid() && cal.Valid() && cal.Covers(r.checkedAt) && GoodSlot(feed, s, r.fetchedAt)
    requires var entry := Loaded(s, r.faults).memory;
             entry.Some? && !IsFresh(cal, feed.frame, entry.value.last, r.checkedAt)
    ensures var first := feed.FirstFrom(Loaded(s, r.faults).memory.value.last + feed.frame.Delta());
            Answer(cal, feed, s, r).None? <==>
            !r.faults.up || feed.Count(r.fetchedAt) <= first ||
            feed.ClosedCount(r.fetchedAt) <= first < feed.CompleteCount(r.fetchedAt) ||
            (first < feed.ClosedCount(r.fetchedAt) && !r.faults.csvWrites)
  {
    LoadingIsGood(feed, s, r.fetchedAt, r.faults);
    LoadingTwice(cal, feed, s, r);
    StaleAnswersIff(cal, feed, Loaded(s, r.faults), r);
  }

  lemma StaleAnswersIff(cal: Calendar, feed: Feed, s: Slot, r: Request)
    requires feed.Valid() && cal.Valid() && cal.Covers(r.checkedAt) && GoodSlot(feed, s, r.fetchedAt)
    requires s.memory.Some? && !IsFresh(cal, feed.frame, s.memory.value.last, r.checkedAt)
    ensures var first := feed.FirstFrom(s.memory.value.last + feed.frame.Delta());
            Answer(cal, feed, s, r).None? <==>
            !r.faults.up || feed.Count(r.fetchedAt) <= first ||
            feed.ClosedCount(r.fetchedAt) <= first < feed.CompleteCount(r.fetchedAt) ||
            (first < feed.ClosedCount(r.fetchedAt) && !r.faults.csvWrites)
  {
    RunsFitTheSeries(feed, s.memory.value.candles, r.fetchedAt);
    RefreshedIsARun(feed, s.memory.value, r.fetchedAt);
    AppendingLookup(cal, feed, s, r);
    AppendAnswersIff(feed, s.memory.value, r);
  }

  lemma AppendAnswersIff(feed: Feed, held: Entry, r: Request)
    requires feed.page > 0
    requires var newer := feed.From(held.last + feed.frame.Delta(), r.fetchedAt);
             newer.Some? && newer.value != [] ==> RefreshedRows(feed, held, r.fetchedAt).Some?
    ensures var first := feed.FirstFrom(held.last + feed.frame.Delta());
            AppendResult(feed, held, r.count, r.fetchedAt, r.faults).None? <==>
            !r.faults.up || feed.Count(r.fetchedAt) <= first ||
            feed.ClosedCount(r.fetchedAt) <= first < feed.CompleteCount(r.fetchedAt) ||
            (first < feed.ClosedCount(r.fetchedAt) && !r.faults.csvWrites)
  {
    FromIs(feed, held.last + feed.frame.Delta(), r.fetchedAt);
  }

  lemma FromIs(feed: Feed, since: int, now: int)
    requires feed.page > 0
    ensures var first := feed.FirstFrom(since);
            (feed.From(since, now).None? <==>
             feed.Count(now) <= first || feed.ClosedCount(now) <= first < feed.CompleteCount(now)) &&
            (feed.From(since, now).Some? ==> (feed.From(since, now).value == [] <==> feed.ClosedCount(now) <= first))
  {
  }

  /** A refresh asks from one frame after the last held candle.  Where two candles start closer
      together than that, as weekly candles do when clocks go forward, a broker that leaves out
      the candle under way leaves out the next one.  The rows stay gap-free exactly when the next
      candle starts late enough, or is still under way and sent. */
  lemma RefreshLeavesNoGapIff(feed: Feed, held: seq<Candle>, now: int, i: nat, j: nat)
    requires feed.Ordered() && IsRunAt(feed, held, now, i, j) && j < |feed.series|
    requires var newer := feed.From(held[|held| - 1].time + feed.frame.Delta(), now);
             newer.Some? && newer.value != []
    ensures var since := held[|held| - 1].time + feed.frame.Delta();
            IsRun(feed, Combine(held, feed.From(since, now).value), now) <==>
            since <= feed.series[j].time || (feed.covering && since < feed.ends[j])
  {
    var since := held[|held| - 1].time + feed.frame.Delta();
    RunEndsAt(feed, held, now, i, j);
    RefreshSkipsTo(feed, j, since, now);
    var newer, first := feed.From(since, now).value, feed.FirstFrom(since);
    assert newer == feed.series[first..first + |newer|] && |newer| > 0;
    JumpIsARunIff(feed, now, i, j, first, first + |newer|);
  }

  lemma JumpIsARunIff(feed: Feed, now: int, i: nat, j: nat, first: nat, k: nat)
    requires feed.Ordered() && i < j <= first + 1 && first < k <= feed.ClosedCount(now)
    ensures IsRun(feed, Combine(feed.series[i..j], feed.series[first..k]), now) <==> first <= j
  {
    if first <= j {
      ShortOverlap(feed, now, i, j, first, k);
    } else {
      JumpCombines(feed, i, j, first, k);
      NoRunWithAJump(feed, now, i, j, first, k);
    }
  }

  lemma ShortOverlap(feed: Feed, now: int, i: nat, j: nat, first: nat, k: nat)
    requires feed.Ordered() && i < j && j - 1 <= first <= j && first < k <= feed.ClosedCount(now)
    ensures IsRun(feed, Combine(feed.series[i..j], feed.series[first..k]), now)
  {
    SlicesCombine(feed, i, j, first, k);
    assert IsRunAt(feed, feed.series[i..k], now, i, k);
  }

  /** When each two neighbouring candles together outlast a frame, a broker that sends the candle
      under way loses nothing. */
  lemma CoveringRefreshLeavesNoGap(feed: Feed, held: seq<Candle>, now: int, i: nat, j: nat)
    requires feed.Ordered() && feed.covering && IsRunAt(feed, held, now, i, j) && j < |feed.series|
    requires forall n :: 0 < n < |feed.series| ==> Outlasts(feed, n)
    requires var newer := feed.From(held[|held| - 1].time + feed.frame.Delta(), now);
             newer.Some? && newer.value != []
    ensures IsRun(feed, Combine(held, feed.From(held[|held| - 1].time + feed.frame.Delta(), now).value), now)
  {
    assert held[|held| - 1] == feed.series[j - 1] && Outlasts(feed, j);
    RefreshLeavesNoGapIff(feed, held, now, i, j);
  }

  ghost predicate Outlasts(feed: Feed, n: nat)
    requires |feed.ends| == |feed.series| && 0 < n < |feed.series|
  {
    feed.series[n - 1].time + feed.frame.Delta() < feed.ends[n]
  }

  /** The rows of a refresh start no earlier than with the last held candle, and no later than
      with the next one exactly when that starts late enough, or is under way and sent. */
  lemma RefreshSkipsTo(feed: Feed, j: nat, since: int, now: int)
    requires feed.Ordered() && 0 < j < |feed.series| && since == feed.series[j - 1].time + feed.frame.Delta()
    requires feed.From(since, now).Some? && feed.From(since, now).value != []
    ensures var newer, first := feed.From(since, now).value, feed.FirstFrom(since);
            j - 1 <= first && first + |newer| <= feed.ClosedCount(now) && newer == feed.series[first..first + |newer|] &&
            (first <= j <==> since <= feed.series[j].time || (feed.covering && since < feed.ends[j]))
  {
    RowsFollowTheFirst(feed, since, now);
    FirstRowIs(feed, j, since);
  }

  lemma RowsFollowTheFirst(feed: Feed, since: int, now: int)
    requires feed.page > 0 && feed.From(since, now).Some? && feed.From(since, now).value != []
    ensures var newer, first := feed.From(since, now).value, feed.FirstFrom(since);
            first + |newer| <= feed.ClosedCount(now) && newer == feed.series[first..first + |newer|]
  {
  }

  lemma FirstRowIs(feed: Feed, j: nat, since: int)
    requires feed.Ordered() && 0 < j < |feed.series| && since == feed.series[j - 1].time + feed.frame.Delta()
    ensures var first := feed.FirstFrom(since);
            j - 1 <= first && (first <= j <==> since <= feed.series[j].time || (feed.covering && since < feed.ends[j]))
  {
    feed.CountIs(since - 1, j - 1);
    feed.CountIs(since - 1, j);
    feed.CountIs(since, j - 1);
    feed.CountIs(since, j);
    if j + 1 < |feed.series| {
      feed.CountIs(since, j + 1);
      assert feed.Follows(j, j + 1);
    }
    StartedAreAhead(feed, since, j);
  }

  /** Only the newest started candle can still be under way. */
  lemma StartedAreAhead(feed: Feed, since: int, j: nat)
    requires feed.Ordered() && j < |feed.series|
    ensures since < feed.ends[j] && j < feed.Count(since) ==> feed.Count(since) == j + 1
  {
    var n := feed.Count(since);
    if j + 1 < n {
      feed.CountIs(since, n - 1);
      assert feed.Follows(j, n - 1);
    }
  }

  lemma NoRunWithAJump(feed: Feed, now: int, i: nat, j: nat, first: nat, k: nat)
    requires feed.Ordered() && i < j < first < k <= feed.ClosedCount(now)
    ensures !IsRun(feed, feed.series[i..j] + feed.series[first..k], now)
  {
    forall a: nat, b: nat ensures !IsRunAt(feed, feed.series[i..j] + feed.series[first..k], now, a, b) {
      if a <= b <= |feed.series| {
        JumpIsNoRun(feed, i, j, first, k, a, b);
      }
    }
  }

  lemma JumpCombines(feed: Feed, i: nat, j: nat, first: nat, k: nat)
    requires feed.Ordered() && i < j <= first <= k <= |feed.series|
    ensures Combine(feed.series[i..j], feed.series[first..k]) == feed.series[i..j] + feed.series[first..k]
  {
    var rows := feed.series[i..j] + feed.series[first..k];
    forall a: nat, b: nat | a < b < |rows| ensures rows[a].time < rows[b].time {
      assert feed.Follows(if a < j - i then i + a else first + a - (j - i), if b < j - i then i + b else first + b - (j - i));
    }
    AscendingIsLeftAlone(rows);
  }

  lemma JumpIsNoRun(feed: Feed, i: nat, j: nat, first: nat, k: nat, a: nat, b: nat)
    requires feed.Ordered() && i < j < first < k <= |feed.series| && a <= b <= |feed.series|
    ensures feed.series[i..j] + feed.series[first..k] != feed.series[a..b]
  {
    var rows := feed.series[i..j] + feed.series[first..k];
    assert rows[0] == feed.series[i] && rows[j - i] == feed.series[first];
    assert a < b ==> feed.series[a..b][0] == feed.series[a];
    assert j - i < b - a ==> feed.series[a..b][j - i] == feed.series[a + j - i];
    assert a < b && a < i ==> feed.Follows(a, i);
    assert a < b && i < a ==> feed.Follows(i, a);
    assert feed.Follows(j, first);
  }

  // ---- Examples ------------------------------------------------------------------------

  function Bar(start: int): Candle {
    Row(start, Prices(1.0, 1.0, 1.0, 1.0, 1))
  }

  /** n hourly candles without a pause. */
  function Hourly(n: nat): Feed {
    Feed(seq(n, i requires 0 <= i < n => Bar(i * HOUR)), seq(n, i requires 0 <= i < n => (i + 1) * HOUR), H1, n + 1, false)
  }

  lemma HoursApart(i: nat, j: nat)
    requires i < j
    ensures i * HOUR < i * HOUR + HOUR == (i + 1) * HOUR <= j * HOUR < (j + 1) * HOUR
  {
    assert (j - i - 1) * HOUR >= 0;
  }

  lemma HourlyIsValid(n: nat)
    ensures Hourly(n).Valid()
  {
    var feed := Hourly(n);
    forall i, j | 0 <= i < j < n
      ensures feed.series[i].time + HOUR <= feed.series[j].time && feed.ends[i] <= feed.ends[j] && feed.ends[i] <= feed.series[j].time
    {
      HoursApart(i, j);
    }
  }

  lemma HourlyCounts(n: nat, closed: nat)
    requires closed < n
    ensures Hourly(n).Count(closed * HOUR) == closed + 1 && Hourly(n).ClosedCount(closed * HOUR) == closed
  {
    var feed, now := Hourly(n), closed * HOUR;
    HourlyIsValid(n);
    feed.CountIs(now, closed);
    feed.ClosedIs(now, closed);
    if closed + 1 < n { feed.CountIs(now, closed + 1); }
    if closed > 0 { feed.ClosedIs(now, closed - 1); }
  }

  /** The slot that holds one hourly candle. */
  function Holding(i: nat): Slot {
    Slot(Some(Entry([Bar(i * HOUR)], i * HOUR, 1)), Some([Bar(i * HOUR)]), None)
  }

  const AT_201: Request := Request(3, 201 * HOUR, 201 * HOUR, Faults(true, true, true, true))

  /** 201 hourly candles are closed, one that is stale is held and three are asked for: the lookup
      answers two. */
  lemma StaleRefreshCanBeShort()
    ensures var feed := Hourly(202);
            CLOCKS_BACK.Valid() && CLOCKS_BACK.Covers(201 * HOUR) && feed.Valid() && GoodSlot(feed, Holding(199), 201 * HOUR) &&
            Answer(CLOCKS_BACK, feed, Holding(199), AT_201) == Some([Bar(199 * HOUR), Bar(200 * HOUR)]) &&
            Tail(feed.Closed(201 * HOUR), 3) == [Bar(198 * HOUR), Bar(199 * HOUR), Bar(200 * HOUR)]
  {
    var feed, s := Hourly(202), Holding(199);
    OneIsHeld();
    ThreeAreClosed();
    TheBrokerAnswers();
    StaleLookupAnswersTheLongerRun(CLOCKS_BACK, feed, s, AT_201, 199, 200);
  }

  lemma TheBrokerAnswers()
    ensures CLOCKS_BACK.Valid() && CLOCKS_BACK.Covers(201 * HOUR)
    ensures Answer(CLOCKS_BACK, Hourly(202), Holding(199), AT_201).Some?
  {
    OneIsHeld();
    ThreeAreClosed();
    StaleLookupAnswersIff(CLOCKS_BACK, Hourly(202), Holding(199), AT_201);
  }

  lemma ThreeAreClosed()
    ensures var feed := Hourly(202);
            feed.Count(201 * HOUR) == 202 && feed.ClosedCount(201 * HOUR) == 201 &&
            feed.series[199..201] == [Bar(199 * HOUR), Bar(200 * HOUR)] &&
            Tail(feed.Closed(201 * HOUR), 3) == [Bar(198 * HOUR), Bar(199 * HOUR), Bar(200 * HOUR)]
  {
    HourlyCounts(202, 201);
  }

  lemma OneIsHeld()
    ensures Hourly(202).FirstFrom(200 * HOUR) <= 200 && CLOCKS_BACK.Valid() && CLOCKS_BACK.Covers(201 * HOUR)
    ensures FindsStaleRun(CLOCKS_BACK, Hourly(202), Holding(199), AT_201, 199, 200)
  {
    var feed := Hourly(202);
    ClocksBackIsValid();
    HourlyIsValid(202);
    HourlyCounts(202, 201);
    feed.NextIsFirstFrom(199);
    assert feed.series[199..200] == [Bar(199 * HOUR)];
    assert IsRunAt(feed, [Bar(199 * HOUR)], 201 * HOUR, 199, 200);
    FloorIsUnique(0, HOUR, 201 * HOUR, 201);
  }

  /** 5000 candles are closed and one is forming: a request for 5000 returns 4999. */
  lemma LargestRequestCanBeShort()
    ensures var feed, now := Hourly(5001), 5000 * HOUR;
            feed.Valid() && Uncached(feed, 5000, now) != Tail(feed.Closed(now), 5000)
  {
    HourlyIsValid(5001);
    HourlyCounts(5001, 5000);
    UncachedIsTheNewestIff(Hourly(5001), 5000, 5000 * HOUR);
  }

  /** Nothing has started since the last held candle, as over a weekend: the lookup raises,
      although it holds rows. */
  lemma LookupInAPauseRaises()
    ensures var s, t := Slot(Some(Entry([Bar(0)], 0, 1)), Some([Bar(0)]), None), 200 * HOUR;
            CLOCKS_BACK.Valid() && CLOCKS_BACK.Covers(t) && Hourly(1).Valid() && GoodSlot(Hourly(1), s, t) &&
            Answer(CLOCKS_BACK, Hourly(1), s, Request(1, t, t, Faults(true, true, true, true))) == None
  {
    var feed, s, t := Hourly(1), Slot(Some(Entry([Bar(0)], 0, 1)), Some([Bar(0)]), None), 200 * HOUR;
    ClocksBackIsValid();
    HourlyIsValid(1);
    OneCandle(t);
    FloorIsUnique(0, HOUR, t, 200);
    StaleLookupAnswersIff(CLOCKS_BACK, feed, s, Request(1, t, t, Faults(true, true, true, true)));
  }

  lemma OneCandle(t: int)
    requires HOUR <= t
    ensures Hourly(1).Count(t) == 1 == Hourly(1).FirstFrom(HOUR) && IsRunAt(Hourly(1), [Bar(0)], t, 0, 1)
  {
    var feed := Hourly(1);
    HourlyIsValid(1);
    feed.ClosedIs(t, 0);
    feed.CountIs(t, 0);
    feed.CountIs(HOUR - 1, 0);
    assert feed.series[0..1] == [Bar(0)];
  }

  /** Three weeks, the first an hour short because the clocks go forward. */
  function Weeks(covering: bool): Feed {
    Feed([Bar(0), Bar(167 * HOUR), Bar(335 * HOUR)], [167 * HOUR, 335 * HOUR, 503 * HOUR], W, 10, covering)
  }

  /** Refreshed after the first week, a broker that leaves out the candle under way loses the
      second week; one that sends it does not. */
  lemma ShortWeekRefresh(covering: bool)
    ensures var feed, now := Weeks(covering), 503 * HOUR;
            var newer := feed.From(168 * HOUR, now);
            feed.Ordered() && IsRunAt(feed, [Bar(0)], now, 0, 1) && newer.Some? && newer.value != [] &&
            (IsRun(feed, Combine([Bar(0)], newer.value), now) <==> covering)
  {
    var feed, now := Weeks(covering), 503 * HOUR;
    feed.ClosedIs(now, 2);
    feed.CountIs(now, 2);
    assert feed.ClosedCount(now) == 3 && feed.Count(now) == 3;
    SecondWeekIsUnderWay(covering);
    FromIs(feed, 168 * HOUR, now);
    RefreshLeavesNoGapIff(feed, [Bar(0)], now, 0, 1);
  }

  lemma SecondWeekIsUnderWay(covering: bool)
    ensures Weeks(covering).Ordered() && Weeks(covering).FirstFrom(168 * HOUR) == if covering then 1 else 2
  {
    var feed := Weeks(covering);
    feed.CountIs(168 * HOUR - 1, 1);
    feed.CountIs(168 * HOUR - 1, 2);
    feed.CountIs(168 * HOUR, 1);
    feed.CountIs(168 * HOUR, 2);
  }
}
