/** The versioned snapshot store and the trackers pinned to its versions. */
module MarketState {
  import opened Basics

  datatype Key = Key(instrument: string, timeframe: string)

  /** A published analysis; `content` stands for everything but its identity and version. */
  datatype Snapshot = Snapshot(instrument: string, timeframe: string, version: nat, content: int)
  {
    function At(): Key {
      Key(instrument, timeframe)
    }
  }

  datatype Tracker = Tracker(instrument: string, version: nat, pins: map<string, nat>, content: int)

  /** The oldest index still kept after n publications. */
  function FirstKept(n: nat, retention: nat): nat {
    if n <= retention + 1 then 0 else n - (retention + 1)
  }

  /** A version is available while it is among the newest `retention + 1` ones. */
  predicate Available(n: nat, retention: nat, version: nat) {
    FirstKept(n, retention) < version <= n
  }

  /** Version numbers count the publications for a key. */
  ghost predicate Numbered(key: Key, all: seq<Snapshot>) {
    all == [] ||
    (var n := |all|; all[n - 1].version == n && all[n - 1].At() == key && Numbered(key, all[..n - 1]))
  }

  lemma {:induction false} NumberedAt(key: Key, all: seq<Snapshot>, i: nat)
    requires Numbered(key, all) && i < |all|
    ensures all[i].version == i + 1 && all[i].At() == key
  {
    if i < |all| - 1 {
      NumberedAt(key, all[..|all| - 1], i);
    }
  }

  /** What the store keeps for a key, against everything published for it. */
  ghost predicate Consistent(key: Key, all: seq<Snapshot>, kept: seq<Snapshot>, version: nat, latest: Snapshot, retention: nat) {
    all != [] && version == |all| && latest == all[|all| - 1] &&
    kept == all[FirstKept(|all|, retention)..] && Numbered(key, all)
  }

  ghost predicate Channels(
    latest: map<Key, Snapshot>, history: map<Key, seq<Snapshot>>, versions: map<Key, nat>,
    published: map<Key, seq<Snapshot>>, retention: nat)
  {
    (forall key :: (key in latest <==> key in published) && (key in history <==> key in published) && (key in versions <==> key in published)) &&
    forall key :: key in published ==> Consistent(key, published[key], history[key], versions[key], latest[key], retention)
  }

  function Publications(published: map<Key, seq<Snapshot>>, key: Key): nat {
    if key in published then |published[key]| else 0
  }

  function AllOf(published: map<Key, seq<Snapshot>>, key: Key): seq<Snapshot> {
    if key in published then published[key] else []
  }

  function Publish(published: map<Key, seq<Snapshot>>, snapshot: Snapshot): map<Key, seq<Snapshot>> {
    var key := snapshot.At();
    published[key := AllOf(published, key) + [snapshot.(version := Publications(published, key) + 1)]]
  }

  /** What has been published after a run of further publications, for any keys. */
  function PublishRun(published: map<Key, seq<Snapshot>>, run: seq<Snapshot>): map<Key, seq<Snapshot>> {
    if run == [] then published else Publish(PublishRun(published, run[..|run| - 1]), run[|run| - 1])
  }

  function CountOf(run: seq<Snapshot>, key: Key): nat {
    if run == [] then 0
    else CountOf(run[..|run| - 1], key) + if run[|run| - 1].At() == key then 1 else 0
  }

  lemma {:induction false} RunsOnlyAppend(published: map<Key, seq<Snapshot>>, run: seq<Snapshot>, key: Key)
    ensures Publications(PublishRun(published, run), key) == Publications(published, key) + CountOf(run, key)
    ensures AllOf(published, key) <= AllOf(PublishRun(published, run), key)
  {
    if run != [] {
      RunsOnlyAppend(published, run[..|run| - 1], key);
    }
  }

  /** A version that resolves goes on resolving, to the same snapshot, exactly as long as the
      later publications of its own key fit in the retention. */
  lemma VersionsResolveUntilEvicted(
    published: map<Key, seq<Snapshot>>, run: seq<Snapshot>, key: Key, version: nat, retention: nat)
    requires Available(Publications(published, key), retention, version)
    ensures var after := PublishRun(published, run);
            (Available(Publications(after, key), retention, version) <==>
             CountOf(run, key) + (Publications(published, key) - version) <= retention) &&
            AllOf(published, key) <= AllOf(after, key)
  {
    RunsOnlyAppend(published, run, key);
  }

  /** Every pin of a current tracker names a version that was published. */
  ghost predicate Pinned(trackers: map<string, Tracker>, trackerVersions: map<string, nat>, published: map<Key, seq<Snapshot>>) {
    (forall instrument :: instrument in trackers <==> instrument in trackerVersions) &&
    (forall instrument :: instrument in trackers ==>
       trackers[instrument].instrument == instrument && trackers[instrument].version == trackerVersions[instrument] &&
       PinsExist(trackers[instrument], published))
  }

  ghost predicate PinsExist(tracker: Tracker, published: map<Key, seq<Snapshot>>) {
    forall timeframe :: timeframe in tracker.pins ==>
      1 <= tracker.pins[timeframe] <= Publications(published, Key(tracker.instrument, timeframe))
  }

  lemma PinsStay(
    trackers: map<string, Tracker>, trackerVersions: map<string, nat>, published: map<Key, seq<Snapshot>>, published': map<Key, seq<Snapshot>>)
    requires Pinned(trackers, trackerVersions, published)
    requires forall key :: Publications(published, key) <= Publications(published', key)
    ensures Pinned(trackers, trackerVersions, published')
  {
    forall instrument | instrument in trackers ensures PinsExist(trackers[instrument], published') {
      forall timeframe | timeframe in trackers[instrument].pins
        ensures trackers[instrument].pins[timeframe] <= Publications(published', Key(instrument, timeframe))
      {
        assert Publications(published, Key(instrument, timeframe)) <= Publications(published', Key(instrument, timeframe));
      }
    }
  }

  lemma EvictionKeepsTheNewest(all: seq<Snapshot>, held: seq<Snapshot>, next: Snapshot, retention: nat)
    requires held == all[FirstKept(|all|, retention)..]
    ensures (held + [next])[FirstKept(|held| + 1, retention)..] == (all + [next])[FirstKept(|all| + 1, retention)..]
  {
    assert held + [next] == (all + [next])[FirstKept(|all|, retention)..];
  }

  lemma PublishingIsConsistent(key: Key, before: seq<Snapshot>, held: seq<Snapshot>, kept: seq<Snapshot>, stamped: Snapshot, retention: nat)
    requires before == [] ==> held == []
    requires before != [] ==> Consistent(key, before, held, |before|, before[|before| - 1], retention)
    requires stamped.At() == key && stamped.version == |before| + 1
    requires kept == (held + [stamped])[FirstKept(|held| + 1, retention)..]
    ensures Consistent(key, before + [stamped], kept, |before| + 1, stamped, retention)
  {
    EvictionKeepsTheNewest(before, held, stamped, retention);
    assert (before + [stamped])[..|before|] == before;
  }

  lemma ChannelsAfter(
    latest: map<Key, Snapshot>, history: map<Key, seq<Snapshot>>, versions: map<Key, nat>, published: map<Key, seq<Snapshot>>,
    retention: nat, key: Key, all: seq<Snapshot>, kept: seq<Snapshot>, version: nat, newest: Snapshot)
    requires Channels(latest, history, versions, published, retention)
    requires Consistent(key, all, kept, version, newest, retention)
    ensures Channels(latest[key := newest], history[key := kept], versions[key := version], published[key := all], retention)
  {
  }

  lemma PinsAfter(
    trackers: map<string, Tracker>, trackerVersions: map<string, nat>, published: map<Key, seq<Snapshot>>, key: Key,
    before: seq<Snapshot>, stamped: Snapshot)
    requires before == (if key in published then published[key] else []) && Pinned(trackers, trackerVersions, published)
    ensures Pinned(trackers, trackerVersions, published[key := before + [stamped]])
  {
    PinsStay(trackers, trackerVersions, published, published[key := before + [stamped]]);
  }

  class MarketStateStore {
    const retention: nat
    var latest: map<Key, Snapshot>
    var history: map<Key, seq<Snapshot>>
    var versions: map<Key, nat>
    var trackers: map<string, Tracker>
    var trackerVersions: map<string, nat>

    /** Everything ever published for a key, in order. */
    ghost var published: map<Key, seq<Snapshot>>

    /** Version numbers count publications; the history is the newest of them, in order; and
        every pin of a current tracker names a version that was published. */
    ghost predicate Valid()
      reads this
    {
      ChannelsValid() && Pinned(trackers, trackerVersions, published)
    }

    ghost predicate ChannelsValid()
      reads this
    {
      Channels(latest, history, versions, published, retention)
    }

    ghost function Published(key: Key): nat
      reads this
    {
      Publications(published, key)
    }

    constructor (retention: nat)
      ensures Valid() && this.retention == retention && published == map[] && trackers == map[]
    {
      this.retention := retention;
      latest, history, versions, published := map[], map[], map[], map[];
      trackers, trackerVersions := map[], map[];
    }

    method PublishSnapshot(snapshot: Snapshot) returns (stamped: Snapshot)
      requires Valid()
      modifies this
      ensures Valid()
      ensures stamped == snapshot.(version := old(Published(snapshot.At())) + 1)
      ensures published == Publish(old(published), snapshot)
      ensures trackers == old(trackers)
    {
      var key := snapshot.At();
      var next := (if key in versions then versions[key] else 0) + 1;
      stamped := snapshot.(version := next);
      var kept := Retain(key, stamped);
      assert Publish(published, snapshot) == published[key := Before(key) + [stamped]];
      PinsAfter(trackers, trackerVersions, published, key, Before(key), stamped);
      Install(key, stamped, kept);
    }

    /** The history of a key with one more version, the oldest evicted. */
    method Retain(key: Key, stamped: Snapshot) returns (kept: seq<Snapshot>)
      requires Valid() && stamped.At() == key && stamped.version == Published(key) + 1
      ensures Consistent(key, Before(key) + [stamped], kept, stamped.version, stamped, retention)
    {
      var held := if key in history then history[key] else [];
      kept := Evict(held + [stamped]);
      PublishingIsConsistent(key, Before(key), held, kept, stamped, retention);
    }

    method Install(key: Key, stamped: Snapshot, kept: seq<Snapshot>)
      requires ChannelsValid() && Consistent(key, Before(key) + [stamped], kept, stamped.version, stamped, retention)
      modifies this`latest, this`history, this`versions, this`published
      ensures ChannelsValid() && published == old(published)[key := old(Before(key)) + [stamped]]
    {
      ghost var all := Before(key) + [stamped];
      ChannelsAfter(latest, history, versions, published, retention, key, all, kept, stamped.version, stamped);
      published, latest := published[key := all], latest[key := stamped];
      versions, history := versions[key := stamped.version], history[key := kept];
    }

    ghost function Before(key: Key): seq<Snapshot>
      reads this
    {
      AllOf(published, key)
    }

    /** Drops the oldest versions until at most `retention + 1` are left. */
    method Evict(kept: seq<Snapshot>) returns (rest: seq<Snapshot>)
      ensures rest == kept[FirstKept(|kept|, retention)..]
    {
      rest := kept;
      while |rest| > retention + 1
        invariant |rest| <= |kept| && rest == kept[|kept| - |rest|..]
        invariant |rest| >= Min(retention + 1, |kept|)
      {
        rest := rest[1..];
      }
    }

    method GetSnapshot(instrument: string, timeframe: string) returns (found: Option<Snapshot>)
      requires Valid()
      ensures var key := Key(instrument, timeframe);
              found == if key in published then Some(published[key][|published[key]| - 1]) else None
    {
      var key := Key(instrument, timeframe);
      found := if key in latest then Some(latest[key]) else None;
    }

    /** A version lookup returns what was published under that version, or nothing once the
        version has been evicted or if it never existed. */
    method GetSnapshotVersion(instrument: string, timeframe: string, version: nat) returns (found: Option<Snapshot>)
      requires Valid()
      ensures var key := Key(instrument, timeframe);
              found == if Available(Published(key), retention, version) then Some(published[key][version - 1]) else None
    {
      var key := Key(instrument, timeframe);
      if key !in history {
        return None;
      }
      var kept := history[key];
      ghost var first := FirstKept(|published[key]|, retention);
      found := None;
      for i := 0 to |kept|
        invariant found == None
        invariant !(first < version <= first + i)
      {
        NumberedAt(key, published[key], first + i);
        if kept[i].version == version {
          return Some(kept[i]);
        }
      }
    }

    /** Publishes a tracker when all its pins resolve; otherwise raises and changes nothing. */
    method PublishOrderBlockTracker(tracker: Tracker) returns (stamped: Option<Tracker>)
      requires Valid()
      modifies this
      ensures Valid() && published == old(published)
      ensures stamped.Some? <==> forall timeframe :: timeframe in tracker.pins ==>
                Available(Published(Key(tracker.instrument, timeframe)), retention, tracker.pins[timeframe])
      ensures stamped.None? ==> trackers == old(trackers)
      ensures stamped.Some? ==>
                var before := if tracker.instrument in old(trackerVersions) then old(trackerVersions)[tracker.instrument] else 0;
                stamped.value == tracker.(version := before + 1) &&
                trackers == old(trackers)[tracker.instrument := stamped.value]
    {
      var resolved := PinsResolve(tracker);
      if !resolved {
        return None;
      }
      var next := (if tracker.instrument in trackerVersions then trackerVersions[tracker.instrument] else 0) + 1;
      var result := tracker.(version := next);
      trackers := trackers[tracker.instrument := result];
      trackerVersions := trackerVersions[tracker.instrument := next];
      stamped := Some(result);
    }

    method PinsResolve(tracker: Tracker) returns (ok: bool)
      requires Valid()
      ensures ok <==> forall timeframe :: timeframe in tracker.pins ==>
                Available(Published(Key(tracker.instrument, timeframe)), retention, tracker.pins[timeframe])
    {
      var todo := tracker.pins.Keys;
      while todo != {}
        invariant todo <= tracker.pins.Keys
        invariant forall timeframe :: timeframe in tracker.pins && timeframe !in todo ==>
                    Available(Published(Key(tracker.instrument, timeframe)), retention, tracker.pins[timeframe])
        decreases todo
      {
        var timeframe :| timeframe in todo;
        var found := GetSnapshotVersion(tracker.instrument, timeframe, tracker.pins[timeframe]);
        if found.None? {
          return false;
        }
        todo := todo - {timeframe};
      }
      ok := true;
    }
  }
}
