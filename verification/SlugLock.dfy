/** The keyed mutex with reclaimed entries (internal/platform/sluglock/sluglock.go), as a system of threads whose
    steps interleave freely. What a thread does under the map lock is one step. */
module SlugLock {
  import opened Wrappers

  /** A thread inside With: behind acquire and waiting for the entry's mutex, running the caller's function, or
      behind the unlock and about to release. Threads outside With are not in the table. */
  datatype Stage = Waiting | Running | Leaving

  datatype Thread = Thread(key: string, entry: nat, stage: Stage)

  /** An entry: how many callers it counts, and which thread holds its mutex. */
  datatype Entry = Entry(waiters: int, holder: Option<nat>)

  /** The map of entries (by their addresses), all entries ever made, and the threads inside With. */
  datatype System = System(locks: map<string, nat>, entries: seq<Entry>, threads: map<nat, Thread>)

  const START := System(map[], [], map[])

  // ----- the steps

  /** The entry of a key, made when there is none. */
  function WithEntry(s: System, key: string): System {
    if key in s.locks then s else System(s.locks[key := |s.entries|], s.entries + [Entry(0, None)], s.threads)
  }

  /** The caller is counted in at the key's entry. */
  predicate CountIn(s: System, t: System, id: nat, key: string) {
    && id !in s.threads && key in s.locks && s.locks[key] < |s.entries|
    && var e := s.locks[key];
       t == System(s.locks, s.entries[e := s.entries[e].(waiters := s.entries[e].waiters + 1)],
                   s.threads[id := Thread(key, e, Waiting)])
  }

  /** acquire: find or make the key's entry, and count the caller in. */
  predicate Acquire(s: System, t: System, id: nat, key: string) {
    CountIn(WithEntry(s, key), t, id, key)
  }

  /** The mutex of a thread's entry goes to it while nobody holds it. */
  predicate Lock(s: System, t: System, id: nat) {
    && id in s.threads && s.threads[id].stage == Waiting && s.threads[id].entry < |s.entries|
    && var e := s.threads[id].entry;
       && s.entries[e].holder == None
       && t == System(s.locks, s.entries[e := s.entries[e].(holder := Some(id))],
                      s.threads[id := s.threads[id].(stage := Running)])
  }

  predicate Unlock(s: System, t: System, id: nat) {
    && id in s.threads && s.threads[id].stage == Running && s.threads[id].entry < |s.entries|
    && var e := s.threads[id].entry;
       t == System(s.locks, s.entries[e := s.entries[e].(holder := None)],
                   s.threads[id := s.threads[id].(stage := Leaving)])
  }

  /** release: count the caller out, and drop the key once nobody is left. */
  predicate Release(s: System, t: System, id: nat) {
    && id in s.threads && s.threads[id].stage == Leaving && s.threads[id].entry < |s.entries|
    && var Thread(key, e, _) := s.threads[id];
       var n := s.entries[e].waiters - 1;
       t == System(if n == 0 then s.locks - {key} else s.locks, s.entries[e := s.entries[e].(waiters := n)],
                   s.threads - {id})
  }

  ghost predicate Step(s: System, t: System) {
    || (exists id, key :: Acquire(s, t, id, key))
    || (exists id :: Lock(s, t, id)) || (exists id :: Unlock(s, t, id)) || (exists id :: Release(s, t, id))
  }

  /** A run: any interleaving of the threads' steps. */
  ghost predicate Run(run: seq<System>) {
    run != [] && run[0] == START && forall i :: 0 < i < |run| ==> Step(run[i - 1], run[i])
  }

  // ----- what every run keeps

  /** The threads inside With that use entry `e`. */
  function Users(s: System, e: nat): set<nat> {
    set id | id in s.threads && s.threads[id].entry == e
  }

  predicate Shared(s: System) {
    forall id :: id in s.threads ==> s.threads[id].key in s.locks && s.locks[s.threads[id].key] == s.threads[id].entry
  }

  /** Every entry in the map is one of the entries made, and no two keys share one. */
  predicate Separate(s: System) {
    && (forall k :: k in s.locks ==> s.locks[k] < |s.entries|)
    && (forall k, l :: k in s.locks && l in s.locks && s.locks[k] == s.locks[l] ==> k == l)
  }

  predicate Counted(s: System)
    requires Separate(s)
  {
    forall k :: k in s.locks ==> s.entries[s.locks[k]].waiters == |Users(s, s.locks[k])|
  }

  /** No key is kept in the map without a thread that uses its entry; `but` is the key just put in. */
  predicate InUse(s: System, but: set<string>) {
    forall k :: k in s.locks && k !in but ==> Users(s, s.locks[k]) != {}
  }

  predicate HolderRuns(s: System, e: nat)
    requires e < |s.entries|
  {
    match s.entries[e].holder
    case None => true
    case Some(id) => id in s.threads && s.threads[id].stage == Running && s.threads[id].entry == e
  }

  predicate Held(s: System)
    requires Separate(s) && Shared(s)
  {
    && (forall id :: id in s.threads && s.threads[id].stage == Running ==>
          s.entries[s.threads[id].entry].holder == Some(id))
    && (forall k :: k in s.locks ==> HolderRuns(s, s.locks[k]))
  }

  predicate Inv(s: System) {
    AlmostInv(s, {})
  }

  predicate AlmostInv(s: System, but: set<string>) {
    Separate(s) && Shared(s) && Counted(s) && Held(s) && InUse(s, but)
  }

  lemma NoUsersYet(s: System, t: System, e: nat)
    requires Separate(s) && Shared(s) && t.threads == s.threads && e >= |s.entries|
    ensures Users(t, e) == {}
  {
  }

  lemma EntryKeeps(s: System, key: string)
    requires Inv(s)
    ensures AlmostInv(WithEntry(s, key), {key})
  {
    if key !in s.locks {
      NoUsersYet(s, WithEntry(s, key), |s.entries|);
      NewEntryCounted(s, WithEntry(s, key), key);
      NewEntryHeld(s, WithEntry(s, key), key);
    }
  }

  lemma NewEntryShared(s: System, t: System, key: string)
    requires Inv(s) && key !in s.locks && t == WithEntry(s, key)
    ensures Separate(t) && Shared(t)
  {
  }

  lemma NewEntryCounted(s: System, t: System, key: string)
    requires Inv(s) && key !in s.locks && t == WithEntry(s, key) && Users(t, |s.entries|) == {}
    ensures Separate(t) && Shared(t) && Counted(t) && InUse(t, {key})
  {
    NewEntryShared(s, t, key);
    forall k | k in s.locks ensures t.locks[k] == s.locks[k] && Users(t, t.locks[k]) == Users(s, s.locks[k]) {
    }
  }

  lemma NewEntryHeld(s: System, t: System, key: string)
    requires Inv(s) && key !in s.locks && t == WithEntry(s, key) && Separate(t) && Shared(t)
    ensures Held(t)
  {
    forall k | k in t.locks ensures HolderRuns(t, t.locks[k]) {
      assert k != key ==> HolderRuns(s, s.locks[k]);
    }
  }

  lemma CountInUsers(s: System, t: System, id: nat, key: string)
    requires Separate(s) && CountIn(s, t, id, key)
    ensures id !in Users(s, s.locks[key]) && Users(t, s.locks[key]) == Users(s, s.locks[key]) + {id}
    ensures forall k :: k in s.locks && k != key ==> Users(t, s.locks[k]) == Users(s, s.locks[k])
  {
    forall k | k in s.locks && k != key ensures Users(t, s.locks[k]) == Users(s, s.locks[k]) {
      assert s.locks[k] != s.locks[key];
    }
  }

  lemma CountInFrame(s: System, t: System, id: nat, key: string)
    requires Separate(s) && Shared(s) && CountIn(s, t, id, key)
    ensures Separate(t) && Shared(t)
  {
  }

  lemma CountInCounted(s: System, t: System, id: nat, key: string)
    requires AlmostInv(s, {key}) && CountIn(s, t, id, key)
    ensures Separate(t) && Shared(t) && Counted(t) && InUse(t, {})
  {
    CountInFrame(s, t, id, key);
    CountInUsers(s, t, id, key);
    forall k | k in t.locks ensures t.entries[t.locks[k]].waiters == |Users(t, t.locks[k])| {
      assert k != key ==> t.entries[t.locks[k]] == s.entries[s.locks[k]];
    }
  }

  lemma CountInHeld(s: System, t: System, id: nat, key: string)
    requires AlmostInv(s, {key}) && CountIn(s, t, id, key) && Separate(t) && Shared(t)
    ensures Held(t)
  {
    forall i | i in t.threads && t.threads[i].stage == Running ensures t.entries[t.threads[i].entry].holder == Some(i) {
      assert i in s.threads && s.threads[i] == t.threads[i];
    }
    forall k | k in t.locks ensures HolderRuns(t, t.locks[k]) {
      assert HolderRuns(s, s.locks[k]);
    }
  }

  /** A step that changes one thread's stage and the holder of its entry. */
  predicate Turns(s: System, t: System, id: nat, holder: Option<nat>, stage: Stage) {
    && id in s.threads && s.threads[id].entry < |s.entries|
    && var e := s.threads[id].entry;
       t == System(s.locks, s.entries[e := s.entries[e].(holder := holder)],
                   s.threads[id := s.threads[id].(stage := stage)])
  }

  lemma TurnUsers(s: System, t: System, id: nat, holder: Option<nat>, stage: Stage, e: nat)
    requires Turns(s, t, id, holder, stage)
    ensures Users(t, e) == Users(s, e)
  {
  }

  lemma TurnShared(s: System, t: System, id: nat, holder: Option<nat>, stage: Stage)
    requires Inv(s) && Turns(s, t, id, holder, stage)
    ensures Separate(t) && Shared(t) && t.locks == s.locks
  {
  }

  lemma TurnFrame(s: System, t: System, id: nat, holder: Option<nat>, stage: Stage)
    requires Inv(s) && Turns(s, t, id, holder, stage)
    ensures Separate(t) && Shared(t) && Counted(t) && InUse(t, {})
  {
    TurnShared(s, t, id, holder, stage);
    forall k | k in t.locks ensures Users(t, t.locks[k]) == Users(s, s.locks[k]) {
      TurnUsers(s, t, id, holder, stage, t.locks[k]);
    }
  }

  predicate GoodTurn(s: System, id: nat, holder: Option<nat>, stage: Stage)
    requires id in s.threads && s.threads[id].entry < |s.entries|
  {
    if stage == Running then holder == Some(id) && s.entries[s.threads[id].entry].holder == None
    else holder == None && s.threads[id].stage == Running
  }

  lemma TurnRuns(s: System, t: System, id: nat, holder: Option<nat>, stage: Stage, i: nat)
    requires Inv(s) && Turns(s, t, id, holder, stage) && GoodTurn(s, id, holder, stage) && Separate(t) && Shared(t)
    requires i in t.threads && t.threads[i].stage == Running
    ensures t.entries[t.threads[i].entry].holder == Some(i)
  {
    if i != id {
      assert s.entries[s.threads[i].entry].holder == Some(i);
    }
  }

  lemma TurnHolds(s: System, t: System, id: nat, holder: Option<nat>, stage: Stage, k: string)
    requires Inv(s) && Turns(s, t, id, holder, stage) && GoodTurn(s, id, holder, stage) && Separate(t)
    requires k in t.locks
    ensures HolderRuns(t, t.locks[k])
  {
    assert HolderRuns(s, s.locks[k]);
  }

  lemma TurnHeld(s: System, t: System, id: nat, holder: Option<nat>, stage: Stage)
    requires Inv(s) && Turns(s, t, id, holder, stage) && GoodTurn(s, id, holder, stage) && Separate(t) && Shared(t)
    ensures Held(t)
  {
    forall i | i in t.threads && t.threads[i].stage == Running ensures t.entries[t.threads[i].entry].holder == Some(i) {
      TurnRuns(s, t, id, holder, stage, i);
    }
    forall k | k in t.locks ensures HolderRuns(t, t.locks[k]) {
      TurnHolds(s, t, id, holder, stage, k);
    }
  }

  lemma ReleaseUsers(s: System, t: System, id: nat, key: string, e: nat)
    requires Inv(s) && Release(s, t, id) && s.threads[id].key == key && s.threads[id].entry == e
    ensures key in s.locks && s.locks[key] == e && id in Users(s, e) && Users(t, e) == Users(s, e) - {id}
    ensures |Users(t, e)| == |Users(s, e)| - 1 == s.entries[e].waiters - 1
    ensures forall k :: k in s.locks && k != key ==> Users(t, s.locks[k]) == Users(s, s.locks[k])
  {
    assert id in Users(s, e);
    assert Users(t, e) == Users(s, e) - {id};
    forall k | k in s.locks && k != key ensures Users(t, s.locks[k]) == Users(s, s.locks[k]) {
      assert s.locks[k] != e;
    }
  }

  lemma ReleaseFrame(s: System, t: System, id: nat)
    requires Inv(s) && Release(s, t, id)
    ensures Separate(t) && Shared(t) && Counted(t) && InUse(t, {})
  {
    var Thread(key, e, _) := s.threads[id];
    ReleaseUsers(s, t, id, key, e);
    forall i | i in t.threads ensures t.threads[i].key in t.locks && t.locks[t.threads[i].key] == t.threads[i].entry {
      assert i in s.threads && s.threads[i] == t.threads[i];
      if t.threads[i].key == key {
        assert i in Users(t, e);
      }
    }
    forall k | k in t.locks
      ensures t.entries[t.locks[k]].waiters == |Users(t, t.locks[k])| && Users(t, t.locks[k]) != {}
    {
      assert k in s.locks && t.locks[k] == s.locks[k];
    }
  }

  lemma ReleaseHeld(s: System, t: System, id: nat)
    requires Inv(s) && Release(s, t, id) && Separate(t) && Shared(t)
    ensures Held(t)
  {
    forall i | i in t.threads && t.threads[i].stage == Running ensures t.entries[t.threads[i].entry].holder == Some(i) {
      assert i in s.threads && s.threads[i] == t.threads[i];
    }
    forall k | k in t.locks ensures HolderRuns(t, t.locks[k]) {
      assert k in s.locks && t.locks[k] == s.locks[k] && HolderRuns(s, s.locks[k]);
      ReleaseKeepsHolder(s, t, id, s.locks[k]);
    }
  }

  /** The thread that leaves does not hold its mutex any more. */
  lemma ReleaseKeepsHolder(s: System, t: System, id: nat, e: nat)
    requires Release(s, t, id) && e < |s.entries| && HolderRuns(s, e)
    ensures HolderRuns(t, e)
  {
    assert t.entries[e].holder == s.entries[e].holder;
  }

  lemma AcquireKeeps(s: System, t: System, id: nat, key: string)
    requires Inv(s) && Acquire(s, t, id, key)
    ensures Inv(t)
  {
    EntryKeeps(s, key);
    CountInCounted(WithEntry(s, key), t, id, key);
    CountInHeld(WithEntry(s, key), t, id, key);
  }

  lemma LockKeeps(s: System, t: System, id: nat)
    requires Inv(s) && Lock(s, t, id)
    ensures Inv(t)
  {
    TurnFrame(s, t, id, Some(id), Running);
    TurnHeld(s, t, id, Some(id), Running);
  }

  lemma UnlockKeeps(s: System, t: System, id: nat)
    requires Inv(s) && Unlock(s, t, id)
    ensures Inv(t)
  {
    TurnFrame(s, t, id, None, Leaving);
    TurnHeld(s, t, id, None, Leaving);
  }

  lemma ReleaseKeeps(s: System, t: System, id: nat)
    requires Inv(s) && Release(s, t, id)
    ensures Inv(t)
  {
    ReleaseFrame(s, t, id);
    ReleaseHeld(s, t, id);
  }

  lemma StepKeeps(s: System, t: System)
    requires Inv(s) && Step(s, t)
    ensures Inv(t)
  {
    if id, key :| Acquire(s, t, id, key) {
      AcquireKeeps(s, t, id, key);
    } else if id :| Lock(s, t, id) {
      LockKeeps(s, t, id);
    } else if id :| Unlock(s, t, id) {
      UnlockKeeps(s, t, id);
    } else {
      var id :| Release(s, t, id);
      ReleaseKeeps(s, t, id);
    }
  }

  lemma {:induction false} RunKeeps(run: seq<System>, i: nat)
    requires Run(run) && i < |run|
    ensures Inv(run[i])
  {
    if i > 0 {
      RunKeeps(run, i - 1);
      StepKeeps(run[i - 1], run[i]);
    }
  }

  // ----- what that is worth

  /** In every state of every run at most one thread runs its function under a key, even though entries are
      dropped and made anew. */
  lemma MutualExclusion(run: seq<System>, i: nat, a: nat, b: nat)
    requires Run(run) && i < |run|
    requires
      var s := run[i];
      && a in s.threads && b in s.threads && s.threads[a].key == s.threads[b].key
      && s.threads[a].stage == Running && s.threads[b].stage == Running
    ensures a == b
  {
    RunKeeps(run, i);
  }

  /** All threads inside With under a key use the one entry the map holds for it, and the entry's count is their
      number. */
  lemma OneEntryPerKey(run: seq<System>, i: nat, key: string)
    requires Run(run) && i < |run| && key in run[i].locks
    ensures
      var s := run[i];
      var inside := set id | id in s.threads && s.threads[id].key == key;
      && s.locks[key] < |s.entries|
      && (forall id :: id in inside ==> s.threads[id].entry == s.locks[key])
      && s.entries[s.locks[key]].waiters == |inside| > 0
  {
    RunKeeps(run, i);
    var s := run[i];
    assert (set id | id in s.threads && s.threads[id].key == key) == Users(s, s.locks[key]);
  }

  /** The map holds exactly the keys in flight, so it is empty whenever no thread is inside With. */
  lemma KeysInFlight(run: seq<System>, i: nat)
    requires Run(run) && i < |run|
    ensures run[i].locks.Keys == set id | id in run[i].threads :: run[i].threads[id].key
  {
    RunKeeps(run, i);
    var s := run[i];
    forall k | k in s.locks ensures exists id :: id in s.threads && s.threads[id].key == k {
      var e := s.locks[k];
      var id :| id in Users(s, e);
      assert s.threads[id].key == k;
    }
  }

  /** No run gets stuck: as long as a thread is inside With, some thread under its key can take a step. */
  lemma NoDeadlock(run: seq<System>, i: nat, id: nat) returns (other: nat, next: System)
    requires Run(run) && i < |run| && id in run[i].threads
    ensures other in run[i].threads && run[i].threads[other].key == run[i].threads[id].key
    ensures Lock(run[i], next, other) || Unlock(run[i], next, other) || Release(run[i], next, other)
  {
    RunKeeps(run, i);
    var s := run[i];
    var Thread(key, e, stage) := s.threads[id];
    assert key in s.locks && s.locks[key] == e;
    other := if stage == Waiting && s.entries[e].holder.Some? then s.entries[e].holder.value else id;
    assert s.threads[other].entry == e;
    var o := s.threads[other];
    match o.stage
    case Waiting =>
      next := System(s.locks, s.entries[e := s.entries[e].(holder := Some(other))],
                     s.threads[other := o.(stage := Running)]);
    case Running =>
      next := System(s.locks, s.entries[e := s.entries[e].(holder := None)], s.threads[other := o.(stage := Leaving)]);
    case Leaving =>
      var n := s.entries[e].waiters - 1;
      next := System(if n == 0 then s.locks - {key} else s.locks, s.entries[e := s.entries[e].(waiters := n)],
                     s.threads - {other});
  }

  // ----- the object itself

  /** How many threads are inside With under each key in flight. */
  function InFlight(s: System): map<string, int>
    requires Separate(s)
  {
    map k | k in s.locks :: s.entries[s.locks[k]].waiters
  }

  function CountedIn(m: map<string, int>, key: string): map<string, int> {
    m[key := (if key in m then m[key] else 0) + 1]
  }

  function CountedOut(m: map<string, int>, key: string): map<string, int>
    requires key in m
  {
    if m[key] == 1 then m - {key} else m[key := m[key] - 1]
  }

  lemma CountInAdds(s: System, t: System, id: nat, key: string)
    requires Separate(s) && CountIn(s, t, id, key)
    ensures Separate(t) && InFlight(t) == InFlight(s)[key := InFlight(s)[key] + 1]
  {
    var m := InFlight(s)[key := InFlight(s)[key] + 1];
    forall k | k in t.locks ensures k in m && InFlight(t)[k] == m[k] {
      assert k != key ==> s.locks[k] != s.locks[key];
    }
  }

  lemma EntryAdds(s: System, key: string)
    requires Separate(s)
    ensures Separate(WithEntry(s, key))
    ensures InFlight(WithEntry(s, key)) == if key in s.locks then InFlight(s) else InFlight(s)[key := 0]
  {
    EntryApart(s, key);
  }

  lemma EntryApart(s: System, key: string)
    requires Separate(s)
    ensures Separate(WithEntry(s, key))
  {
  }

  lemma AcquireCounts(s: System, t: System, id: nat, key: string)
    requires Separate(s) && Acquire(s, t, id, key)
    ensures Separate(t) && InFlight(t) == CountedIn(InFlight(s), key)
  {
    EntryAdds(s, key);
    CountInAdds(WithEntry(s, key), t, id, key);
    CountedInIs(InFlight(s), InFlight(WithEntry(s, key)), InFlight(t), key);
  }

  lemma CountedInIs(m: map<string, int>, n: map<string, int>, r: map<string, int>, key: string)
    requires n == (if key in m then m else m[key := 0]) && r == n[key := n[key] + 1]
    ensures r == CountedIn(m, key)
  {
  }

  lemma ReleaseCounts(s: System, t: System, id: nat)
    requires Separate(s) && Shared(s) && Release(s, t, id)
    ensures s.threads[id].key in s.locks && Separate(t) && InFlight(t) == CountedOut(InFlight(s), s.threads[id].key)
  {
    ReleaseMoves(s, t, id, s.threads[id].key);
    CountedOutIs(InFlight(s), s.threads[id].key, InFlight(t));
  }

  lemma CountedOutIs(m: map<string, int>, key: string, n: map<string, int>)
    requires key in m && n.Keys == if m[key] == 1 then m.Keys - {key} else m.Keys
    requires forall k :: k in n ==> k in m && n[k] == m[k] - if k == key then 1 else 0
    ensures n == CountedOut(m, key)
  {
  }

  lemma ReleaseMoves(s: System, t: System, id: nat, key: string)
    requires Separate(s) && Shared(s) && Release(s, t, id) && key == s.threads[id].key
    ensures key in s.locks && Separate(t)
    ensures t.locks.Keys == if InFlight(s)[key] == 1 then s.locks.Keys - {key} else s.locks.Keys
    ensures forall k :: k in t.locks ==> InFlight(t)[k] == InFlight(s)[k] - if k == key then 1 else 0
  {
    forall k | k in t.locks ensures InFlight(t)[k] == InFlight(s)[k] - if k == key then 1 else 0 {
      assert k != key ==> s.locks[k] != s.locks[key];
    }
  }

  class Cell {
    var waiters: int

    constructor ()
      ensures waiters == 0
    {
      waiters := 0;
    }
  }

  class Memory {
    var locks: map<string, Cell>

    /** Distinct keys have distinct entries, and every entry counts somebody. */
    ghost predicate Valid()
      reads this, locks.Values
    {
      && (forall k, l :: k in locks && l in locks && locks[k] == locks[l] ==> k == l)
      && (forall k :: k in locks ==> locks[k].waiters > 0)
    }

    ghost function Counts(): map<string, int>
      reads this, locks.Values
    {
      map k | k in locks :: locks[k].waiters
    }

    constructor ()
      ensures Valid() && Counts() == map[]
    {
      locks := map[];
    }

    /** acquire: the caller is counted in at the key's entry, which is the one already there if there is one. */
    method Acquire(key: string) returns (e: Cell)
      requires Valid()
      modifies this, locks.Values
      ensures Valid() && Counts() == CountedIn(old(Counts()), key)
      ensures key in locks && locks[key] == e && (if key in old(locks) then e == old(locks)[key] else fresh(e))
      ensures forall k :: k in old(locks) ==> k in locks && locks[k] == old(locks)[k]
      ensures forall k :: k in locks && k != key ==> k in old(locks)
    {
      if key in locks {
        e := locks[key];
      } else {
        e := new Cell();
        locks := locks[key := e];
      }
      e.waiters := e.waiters + 1;
    }

    /** release: the caller is counted out, and the key dropped with the last one. */
    method Release(key: string, e: Cell)
      requires Valid() && key in locks && locks[key] == e
      modifies this, e
      ensures Valid() && Counts() == CountedOut(old(Counts()), key)
      ensures locks == if old(e.waiters) == 1 then old(locks) - {key} else old(locks)
    {
      e.waiters := e.waiters - 1;
      if e.waiters == 0 {
        locks := locks - {key};
      }
    }
  }
}
