/** The runtime lock: one operating-system lock per database path, shared by a process's stores. */
module ProcessLock {

  datatype Opened = Ready | StorageFailed | LockUnavailable

  /** The stores that own a path. */
  function OwnersOf(owners: map<nat, string>, path: string): set<nat> {
    set id | id in owners && owners[id] == path
  }

  lemma OwnerAdded(owners: map<nat, string>, id: nat, path: string, p: string)
    requires id !in owners
    ensures |OwnersOf(owners[id := path], p)| == |OwnersOf(owners, p)| + if p == path then 1 else 0
  {
    var after := OwnersOf(owners[id := path], p);
    assert after == if p == path then OwnersOf(owners, p) + {id} else OwnersOf(owners, p);
  }

  lemma OwnerRemoved(owners: map<nat, string>, id: nat, p: string)
    requires id in owners
    ensures |OwnersOf(owners - {id}, p)| == |OwnersOf(owners, p)| - if p == owners[id] then 1 else 0
  {
    OwnerAdded(owners - {id}, id, owners[id], p);
    assert (owners - {id})[id := owners[id]] == owners;
  }

  ghost predicate CountedAt(refcounts: map<string, int>, owners: map<nat, string>, p: string) {
    if p in refcounts then refcounts[p] == |OwnersOf(owners, p)| > 0 else |OwnersOf(owners, p)| == 0
  }

  /** The process's lock table counts the owners of every path. */
  ghost predicate Counted(refcounts: map<string, int>, owners: map<nat, string>) {
    forall p :: CountedAt(refcounts, owners, p)
  }

  function Raised(refcounts: map<string, int>, path: string): map<string, int> {
    refcounts[path := if path in refcounts then refcounts[path] + 1 else 1]
  }

  function Lowered(refcounts: map<string, int>, path: string): map<string, int>
    requires path in refcounts
  {
    if refcounts[path] > 1 then refcounts[path := refcounts[path] - 1] else refcounts - {path}
  }

  lemma CountedUp(refcounts: map<string, int>, owners: map<nat, string>, id: nat, path: string)
    requires Counted(refcounts, owners) && id !in owners
    ensures Counted(Raised(refcounts, path), owners[id := path])
  {
    var raised, more := Raised(refcounts, path), owners[id := path];
    forall p ensures CountedAt(raised, more, p) {
      assert CountedAt(refcounts, owners, p);
      OwnerAdded(owners, id, path, p);
    }
  }

  lemma CountedDown(refcounts: map<string, int>, owners: map<nat, string>, id: nat)
    requires Counted(refcounts, owners) && id in owners
    ensures var path := owners[id];
            path in refcounts && refcounts[path] > 0 &&
            Counted(Lowered(refcounts, path), owners - {id})
  {
    var path := owners[id];
    assert CountedAt(refcounts, owners, path) && id in OwnersOf(owners, path);
    var lowered, fewer := Lowered(refcounts, path), owners - {id};
    forall p ensures CountedAt(lowered, fewer, p) {
      assert CountedAt(refcounts, owners, p);
      OwnerRemoved(owners, id, p);
    }
  }

  /** Every lock call but those of the paths still held is matched by one unlock call. */
  ghost predicate Balanced(locked: multiset<string>, unlocked: multiset<string>, held: set<string>) {
    locked == unlocked + multiset(held)
  }

  lemma RaisedThenLowered(refcounts: map<string, int>, owners: map<nat, string>, path: string)
    requires Counted(refcounts, owners)
    ensures Lowered(Raised(refcounts, path), path) == refcounts
  {
    assert CountedAt(refcounts, owners, path);
    if path !in refcounts {
      assert refcounts[path := 1] - {path} == refcounts;
    }
  }

  lemma BalancedDown(locked: multiset<string>, unlocked: multiset<string>, held: set<string>, path: string)
    requires Balanced(locked, unlocked, held) && path in held
    ensures Balanced(locked, unlocked + multiset{path}, held - {path})
  {
    assert multiset(held) == multiset{path} + multiset(held - {path});
  }

  lemma BalancedUp(locked: multiset<string>, unlocked: multiset<string>, held: set<string>, path: string)
    requires Balanced(locked, unlocked, held) && path !in held
    ensures Balanced(locked + multiset{path}, unlocked, held + {path})
  {
    assert multiset(held + {path}) == multiset{path} + multiset(held);
  }

  function Once(path: string, needed: bool): multiset<string> {
    if needed then multiset{path} else multiset{}
  }

  /** A path is locked exactly while some store owns it, its count is the number of owners,
      and lock and unlock calls balance. */
  ghost predicate Good(
    refcounts: map<string, int>, owners: map<nat, string>, held: set<string>, locked: multiset<string>, unlocked: multiset<string>)
  {
    Counted(refcounts, owners) && held == refcounts.Keys && Balanced(locked, unlocked, held)
  }

  /** The operating system holds a path for this process exactly while some store owns it, and
      has been asked to lock it once more than to unlock it exactly then. */
  lemma LockedExactlyWhileOwned(
    refcounts: map<string, int>, owners: map<nat, string>, held: set<string>, locked: multiset<string>, unlocked: multiset<string>,
    path: string)
    requires Good(refcounts, owners, held, locked, unlocked)
    ensures path in held <==> exists id :: id in owners && owners[id] == path
    ensures path in held ==> refcounts[path] == |OwnersOf(owners, path)|
    ensures locked[path] == unlocked[path] + if path in held then 1 else 0
  {
    assert CountedAt(refcounts, owners, path);
    if path in held {
      assert OwnersOf(owners, path) != {};
      var id :| id in OwnersOf(owners, path);
    } else {
      assert OwnersOf(owners, path) == {};
      assert forall id :: id in owners && owners[id] == path ==> id in OwnersOf(owners, path);
    }
  }

  lemma GoodUp(
    refcounts: map<string, int>, owners: map<nat, string>, held: set<string>, locked: multiset<string>, unlocked: multiset<string>,
    id: nat, path: string)
    requires Good(refcounts, owners, held, locked, unlocked) && id !in owners
    ensures Good(Raised(refcounts, path), owners[id := path], held + {path}, locked + Once(path, path !in held), unlocked)
  {
    CountedUp(refcounts, owners, id, path);
    if path in held {
      assert held + {path} == held;
      assert locked + multiset{} == locked;
    } else {
      BalancedUp(locked, unlocked, held, path);
    }
  }

  lemma GoodDown(
    refcounts: map<string, int>, owners: map<nat, string>, held: set<string>, locked: multiset<string>, unlocked: multiset<string>,
    id: nat)
    requires Good(refcounts, owners, held, locked, unlocked) && id in owners
    ensures var path := owners[id];
            path in refcounts &&
            Good(Lowered(refcounts, path), owners - {id}, if refcounts[path] > 1 then held else held - {path},
                 locked, unlocked + Once(path, refcounts[path] <= 1))
  {
    var path := owners[id];
    CountedDown(refcounts, owners, id);
    if refcounts[path] > 1 {
      assert unlocked + multiset{} == unlocked;
    } else {
      BalancedDown(locked, unlocked, held, path);
    }
  }

  /** A process and its stores; a store's lock path is the value of its own field. */
  class Process {
    var refcounts: map<string, int>
    var lockPaths: map<nat, string>
    var ready: set<nat>
    /** Locks the operating system grants this process, and every lock and unlock call made. */
    ghost var held: set<string>
    ghost var locked: multiset<string>
    ghost var unlocked: multiset<string>

    /** Lock table, owners and operating system agree, and only owners have their storage open. */
    ghost predicate Valid()
      reads this
    {
      Good(refcounts, lockPaths, held, locked, unlocked) && ready <= lockPaths.Keys
    }

    constructor ()
      ensures Valid() && refcounts == map[] && lockPaths == map[]
    {
      refcounts, lockPaths, ready, held, locked, unlocked := map[], map[], {}, {}, multiset{}, multiset{};
    }

    /** `free` says whether no other process holds the path. */
    method Acquire(path: string, free: bool, id: nat) returns (ok: bool)
      requires Valid() && id !in lockPaths
      modifies this`refcounts, this`lockPaths, this`held, this`locked
      ensures Valid()
      ensures ok <==> old(path in held) || free
      ensures ok ==> lockPaths == old(lockPaths)[id := path] && refcounts == Raised(old(refcounts), path) &&
                     held == old(held) + {path} && locked == old(locked) + Once(path, path !in old(held))
      ensures !ok ==> lockPaths == old(lockPaths) && refcounts == old(refcounts) && held == old(held) && locked == old(locked)
    {
      if path !in refcounts && !free {
        return false;
      }
      GoodUp(refcounts, lockPaths, held, locked, unlocked, id, path);
      locked, held := locked + Once(path, path !in held), held + {path};
      if path in refcounts {
        refcounts := refcounts[path := refcounts[path] + 1];
      } else {
        refcounts := refcounts[path := 1];
      }
      lockPaths := lockPaths[id := path];
      ok := true;
    }

    /** Closing a store gives up its lock once; closing it again changes nothing. */
    method Close(id: nat)
      requires Valid()
      modifies this
      ensures Valid()
      ensures lockPaths == old(lockPaths) - {id} && ready == old(ready) - {id} && locked == old(locked)
      ensures id !in old(lockPaths) ==> refcounts == old(refcounts) && held == old(held) && unlocked == old(unlocked)
      ensures id in old(lockPaths) ==>
                var path := old(lockPaths)[id];
                path in old(refcounts) && refcounts == Lowered(old(refcounts), path) &&
                unlocked == old(unlocked) + Once(path, path !in refcounts)
    {
      ready := ready - {id};
      if id in lockPaths {
        GoodDown(refcounts, lockPaths, held, locked, unlocked, id);
        var path := lockPaths[id];
        lockPaths := lockPaths - {id};
        Release(path);
      } else {
        assert lockPaths == lockPaths - {id};
      }
    }

    /** One owner of a path less; the last one unlocks it. */
    method Release(path: string)
      requires path in refcounts && path in held
      modifies this`refcounts, this`held, this`unlocked
      ensures refcounts == Lowered(old(refcounts), path)
      ensures held == if old(refcounts[path]) > 1 then old(held) else old(held) - {path}
      ensures unlocked == old(unlocked) + Once(path, old(refcounts[path]) <= 1)
    {
      var left := refcounts[path] - 1;
      if left > 0 {
        refcounts := refcounts[path := left];
      } else {
        unlocked, held := unlocked + multiset{path}, held - {path};
        refcounts := refcounts - {path};
      }
    }

    /** Closing a store that never got its lock changes nothing. */
    method CloseUnlocked(id: nat)
      requires Valid() && id !in lockPaths
      modifies this
      ensures Valid() && lockPaths == old(lockPaths) && ready == old(ready) && refcounts == old(refcounts) && held == old(held)
    {
      Close(id);
      assert lockPaths == old(lockPaths) && ready == old(ready);
    }

    /** Closing a store right after it acquired its lock leaves no trace. */
    method Undo(id: nat, path: string, ghost counts: map<string, int>, ghost owners: map<nat, string>)
      requires Valid() && id !in owners && Counted(counts, owners)
      requires refcounts == Raised(counts, path) && lockPaths == owners[id := path]
      modifies this
      ensures Valid()
      ensures refcounts == counts && lockPaths == owners && held == counts.Keys && ready == old(ready) - {id}
    {
      RaisedThenLowered(counts, owners, path);
      Close(id);
    }

    /** Opens a store.  When the storage cannot be read the store is closed again, and owns nothing. */
    method Open(id: nat, path: string, free: bool, storageReads: bool) returns (outcome: Opened)
      requires Valid() && id !in lockPaths
      modifies this
      ensures Valid()
      ensures outcome == if path !in old(held) && !free then LockUnavailable
                         else if storageReads then Ready else StorageFailed
      ensures outcome == Ready ==>
                lockPaths == old(lockPaths)[id := path] && ready == old(ready) + {id} && held == old(held) + {path}
      ensures outcome != Ready ==>
                lockPaths == old(lockPaths) && ready == old(ready) && refcounts == old(refcounts) && held == old(held)
    {
      var ok := Acquire(path, free, id);
      if !ok {
        CloseUnlocked(id);
        return LockUnavailable;
      }
      if !storageReads {
        Undo(id, path, old(refcounts), old(lockPaths));
        return StorageFailed;
      }
      ready := ready + {id};
      outcome := Ready;
    }
  }
}
