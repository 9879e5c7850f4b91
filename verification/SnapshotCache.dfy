/** The per-process cache of parsed registry rows, keyed by the store's version. */
module SnapshotCache {
  import opened Basics
  import opened Options

  /** The parsed rows of a store. */
  type Rows = map<string, string>

  datatype Cached = Cached(key: string, version: nat, payload: Rows)

  const CACHE_LIMIT := 64

  // ---------------------------------------------------------------- one cache

  /** What a cache, oldest entry first, holds under a key. */
  function Find(entries: seq<Cached>, key: string): Option<Cached> {
    if entries == [] then None else if entries[0].key == key then Some(entries[0]) else Find(entries[1..], key)
  }

  function CacheGet(entries: seq<Cached>, key: string, version: nat): Option<Rows> {
    match Find(entries, key)
    case Some(cached) => if cached.version == version then Some(cached.payload) else None
    case None => None
  }

  /** The entries with one replaced in place, or added at the end. */
  function Assigned(entries: seq<Cached>, cached: Cached): seq<Cached> {
    if entries == [] then [cached]
    else if entries[0].key == cached.key then [cached] + entries[1..]
    else [entries[0]] + Assigned(entries[1..], cached)
  }

  function CachePut(entries: seq<Cached>, cached: Cached): seq<Cached> {
    Newest(Assigned(entries, cached), CACHE_LIMIT)
  }

  /** The first entries are under other keys. */
  predicate FreeOf(entries: seq<Cached>, at: nat, key: string)
    requires at <= |entries|
  {
    forall i :: 0 <= i < at ==> entries[i].key != key
  }

  function CacheDrop(entries: seq<Cached>, key: string): seq<Cached> {
    if entries == [] then []
    else if entries[0].key == key then entries[1..]
    else [entries[0]] + CacheDrop(entries[1..], key)
  }

  class PayloadCache {
    var entries: seq<Cached>

    constructor ()
      ensures entries == []
    {
      entries := [];
    }

    method Position(key: string) returns (at: nat)
      ensures at <= |entries| && (at < |entries| <==> Find(entries, key).Some?)
      ensures at < |entries| ==> entries[at].key == key && Find(entries, key) == Some(entries[at])
      ensures FreeOf(entries, at, key)
    {
      at := 0;
      while at < |entries| && entries[at].key != key
        invariant at <= |entries| && Find(entries, key) == Find(entries[at..], key)
        invariant FreeOf(entries, at, key)
      {
        assert entries[at..][1..] == entries[at + 1..];
        at := at + 1;
      }
    }

    method Get(key: string, version: nat) returns (payload: Option<Rows>)
      ensures payload == CacheGet(entries, key, version)
    {
      var at := Position(key);
      if at < |entries| && entries[at].version == version { return Some(entries[at].payload); }
      payload := None;
    }

    method Put(key: string, version: nat, payload: Rows)
      modifies this
      ensures entries == CachePut(old(entries), Cached(key, version, payload))
    {
      var at := Position(key);
      var cached := Cached(key, version, payload);
      hide Assigned, Newest, FreeOf, Find;
      AssignedAt(entries, cached, at);
      entries := if at < |entries| then entries[at := cached] else entries + [cached];
      Trim();
    }

    /** Drops the oldest entries until the limit is met. */
    method Trim()
      modifies this
      ensures entries == Newest(old(entries), CACHE_LIMIT)
    {
      while |entries| > CACHE_LIMIT
        invariant |entries| <= |old(entries)| && entries == old(entries)[|old(entries)| - |entries|..]
        invariant |entries| >= CACHE_LIMIT || entries == old(entries)
        decreases |entries|
      {
        entries := entries[1..];
      }
    }

    method Pop(key: string)
      modifies this
      ensures entries == CacheDrop(old(entries), key)
    {
      var at := Position(key);
      DroppedAt(entries, key, at);
      if at < |entries| { entries := entries[..at] + entries[at + 1..]; }
    }
  }

  lemma {:induction false} AssignedAt(entries: seq<Cached>, cached: Cached, at: nat)
    requires at <= |entries| && (at < |entries| ==> entries[at].key == cached.key)
    requires FreeOf(entries, at, cached.key)
    ensures Assigned(entries, cached) == if at < |entries| then entries[at := cached] else entries + [cached]
  {
    if at > 0 {
      assert entries[0].key != cached.key;
      AssignedAt(entries[1..], cached, at - 1);
    }
  }

  lemma {:induction false} DroppedAt(entries: seq<Cached>, key: string, at: nat)
    requires at <= |entries| && (at < |entries| ==> entries[at].key == key)
    requires FreeOf(entries, at, key)
    ensures CacheDrop(entries, key) == if at < |entries| then entries[..at] + entries[at + 1..] else entries
  {
    if at > 0 {
      assert entries[0].key != key;
      DroppedAt(entries[1..], key, at - 1);
      if at < |entries| { CutShift(entries, at); }
    }
  }

  /** What a cache answers: the payload of the first entry of the key, if it is of the
      version asked for. */
  lemma {:induction false} AnsweredAt(entries: seq<Cached>, key: string, version: nat, at: nat)
    requires at <= |entries| && (at < |entries| ==> entries[at].key == key)
    requires FreeOf(entries, at, key)
    ensures CacheGet(entries, key, version) ==
            if at < |entries| && entries[at].version == version then Some(entries[at].payload) else None
  {
    if at > 0 {
      assert entries[0].key != key;
      AnsweredAt(entries[1..], key, version, at - 1);
    }
  }

  /** What is put into a cache: over the key's entry, or at the end; then a full cache
      loses its oldest entry. */
  lemma PutAt(entries: seq<Cached>, cached: Cached, at: nat)
    requires at <= |entries| <= CACHE_LIMIT && (at < |entries| ==> entries[at].key == cached.key)
    requires FreeOf(entries, at, cached.key)
    ensures CachePut(entries, cached) ==
            if at < |entries| then entries[at := cached]
            else if |entries| == CACHE_LIMIT then entries[1..] + [cached]
            else entries + [cached]
  {
    AssignedAt(entries, cached, at);
    hide Assigned, FreeOf;
  }

  lemma {:induction false} FindAssigned(entries: seq<Cached>, cached: Cached)
    ensures Find(Assigned(entries, cached), cached.key) == Some(cached)
  {
    if entries != [] && entries[0].key != cached.key { FindAssigned(entries[1..], cached); }
  }

  lemma CutShift(entries: seq<Cached>, at: nat)
    requires 0 < at < |entries|
    ensures entries[..at] + entries[at + 1..] == [entries[0]] + (entries[1..][..at - 1] + entries[1..][at..])
  {
  }

  lemma {:induction false} FindIsMember(entries: seq<Cached>, key: string)
    ensures Find(entries, key).Some? ==> Find(entries, key).value in entries && Find(entries, key).value.key == key
  {
    if entries != [] { FindIsMember(entries[1..], key); }
  }

  lemma {:induction false} AssignedMembers(entries: seq<Cached>, cached: Cached)
    ensures forall e :: e in Assigned(entries, cached) ==> e == cached || e in entries
  {
    if entries != [] {
      AssignedMembers(entries[1..], cached);
      assert entries == [entries[0]] + entries[1..];
    }
  }

  lemma {:induction false} DropMembers(entries: seq<Cached>, key: string)
    ensures forall e :: e in CacheDrop(entries, key) ==> e in entries
  {
    if entries != [] {
      DropMembers(entries[1..], key);
      assert entries == [entries[0]] + entries[1..];
    }
  }

  // ---------------------------------------------------------------- processes

  /** A store and everything it has held: a write adds the new rows and is version + 1. */
  datatype Store = Store(history: seq<Rows>)

  function VersionOf(store: Store): nat
    requires store.history != []
  {
    |store.history| - 1
  }

  function RowsOf(store: Store): Rows
    requires store.history != []
  {
    store.history[|store.history| - 1]
  }

  /** Where a load stands: it has read the version; has missed the cache; has read the
      rows; has returned. */
  datatype Load =
    | Idle
    | Versioned(key: string, version: nat)
    | Missed(key: string, version: nat)
    | Fetched(key: string, version: nat, rows: Rows)
    | Done(key: string, version: nat, rows: Rows)

  datatype Reader = Reader(process: nat, load: Load)

  /** Processes with their caches, and the stores they share. */
  datatype System = System(stores: map<string, Store>, caches: seq<seq<Cached>>, readers: seq<Reader>)

  /** One step: of a load, of a writer's transaction, or of the cache drop after it. */
  datatype Action =
    | ReadVersion(reader: nat, key: string)
    | Lookup(reader: nat)
    | ReadRows(reader: nat)
    | Insert(reader: nat)
    | Write(key: string, rows: Rows)
    | Forget(process: nat, key: string)

  function MoveReader(sys: System, r: nat, load: Load): System
    requires r < |sys.readers|
  {
    sys.(readers := sys.readers[r := sys.readers[r].(load := load)])
  }

  function Next(action: Action, sys: System): System
    requires WellFormed(sys)
  {
    match action
    case ReadVersion(r, key) =>
      if r < |sys.readers| && key in sys.stores then MoveReader(sys, r, Versioned(key, VersionOf(sys.stores[key])))
      else sys
    case Lookup(r) =>
      if r < |sys.readers| && sys.readers[r].load.Versioned? then
        var load := sys.readers[r].load;
        match CacheGet(sys.caches[sys.readers[r].process], load.key, load.version)
        case Some(payload) => MoveReader(sys, r, Done(load.key, load.version, payload))
        case None => MoveReader(sys, r, Missed(load.key, load.version))
      else sys
    case ReadRows(r) =>
      if r < |sys.readers| && sys.readers[r].load.Missed? && sys.readers[r].load.key in sys.stores then
        var load := sys.readers[r].load;
        MoveReader(sys, r, Fetched(load.key, load.version, RowsOf(sys.stores[load.key])))
      else sys
    case Insert(r) =>
      if r < |sys.readers| && sys.readers[r].load.Fetched? then
        var load, p := sys.readers[r].load, sys.readers[r].process;
        MoveReader(sys.(caches := sys.caches[p := CachePut(sys.caches[p], Cached(load.key, load.version, load.rows))]),
                   r, Done(load.key, load.version, load.rows))
      else sys
    case Write(key, rows) =>
      if key in sys.stores then sys.(stores := sys.stores[key := Store(sys.stores[key].history + [rows])]) else sys
    case Forget(p, key) =>
      if p < |sys.caches| then sys.(caches := sys.caches[p := CacheDrop(sys.caches[p], key)]) else sys
  }

  predicate WellFormed(sys: System) {
    && (forall key :: key in sys.stores ==> sys.stores[key].history != [])
    && (forall r :: 0 <= r < |sys.readers| ==> sys.readers[r].process < |sys.caches|)
  }

  // ---------------------------------------------------------------- coherence

  /** The rows are what the store held at the version or at a later one. */
  ghost predicate HeldSince(sys: System, key: string, version: nat, rows: Rows) {
    key in sys.stores && exists u :: version <= u < |sys.stores[key].history| && sys.stores[key].history[u] == rows
  }

  ghost predicate LoadOk(sys: System, load: Load) {
    match load
    case Idle => true
    case Versioned(key, version) => key in sys.stores && version < |sys.stores[key].history|
    case Missed(key, version) => key in sys.stores && version < |sys.stores[key].history|
    case Fetched(key, version, rows) => HeldSince(sys, key, version, rows)
    case Done(key, version, rows) => HeldSince(sys, key, version, rows)
  }

  ghost predicate CacheOk(sys: System, entries: seq<Cached>) {
    forall e :: e in entries ==> HeldSince(sys, e.key, e.version, e.payload)
  }

  ghost predicate Coherent(sys: System) {
    && WellFormed(sys)
    && (forall p :: 0 <= p < |sys.caches| ==> CacheOk(sys, sys.caches[p]))
    && (forall r :: 0 <= r < |sys.readers| ==> LoadOk(sys, sys.readers[r].load))
  }

  lemma MoveKeeps(sys: System, r: nat, load: Load)
    requires Coherent(sys) && r < |sys.readers| && LoadOk(sys, load)
    ensures Coherent(MoveReader(sys, r, load))
  {
    var after := MoveReader(sys, r, load);
    forall p | 0 <= p < |after.caches| ensures CacheOk(after, after.caches[p]) {
      forall e | e in after.caches[p] ensures HeldSince(after, e.key, e.version, e.payload) {
        assert CacheOk(sys, sys.caches[p]);
        assert HeldSince(sys, e.key, e.version, e.payload);
      }
    }
    forall q | 0 <= q < |after.readers| ensures LoadOk(after, after.readers[q].load) {
      var other := if q == r then load else sys.readers[q].load;
      assert LoadOk(sys, other);
      SameStores(sys, after, other);
    }
  }

  lemma SameStores(sys: System, after: System, load: Load)
    requires sys.stores == after.stores
    ensures LoadOk(sys, load) == LoadOk(after, load)
  {
  }

  lemma CacheKeeps(sys: System, p: nat, entries: seq<Cached>)
    requires Coherent(sys) && p < |sys.caches| && CacheOk(sys, entries)
    ensures Coherent(sys.(caches := sys.caches[p := entries]))
  {
    var after := sys.(caches := sys.caches[p := entries]);
    forall q | 0 <= q < |after.caches| ensures CacheOk(after, after.caches[q]) {
      forall e | e in after.caches[q] ensures HeldSince(after, e.key, e.version, e.payload) {
        assert CacheOk(sys, if q == p then entries else sys.caches[q]);
        assert HeldSince(sys, e.key, e.version, e.payload);
      }
    }
    forall r | 0 <= r < |after.readers| ensures LoadOk(after, after.readers[r].load) {
      SameStores(sys, after, sys.readers[r].load);
    }
  }

  lemma HeldLonger(sys: System, key: string, rows: Rows, k: string, version: nat, held: Rows)
    requires key in sys.stores && HeldSince(sys, k, version, held)
    ensures HeldSince(sys.(stores := sys.stores[key := Store(sys.stores[key].history + [rows])]), k, version, held)
  {
    var u :| version <= u < |sys.stores[k].history| && sys.stores[k].history[u] == held;
    var after := sys.(stores := sys.stores[key := Store(sys.stores[key].history + [rows])]);
    assert after.stores[k].history[u] == held;
  }

  lemma WriteKeeps(sys: System, key: string, rows: Rows)
    requires Coherent(sys) && key in sys.stores
    ensures Coherent(sys.(stores := sys.stores[key := Store(sys.stores[key].history + [rows])]))
  {
    var after := sys.(stores := sys.stores[key := Store(sys.stores[key].history + [rows])]);
    hide HeldSince;
    forall p | 0 <= p < |after.caches| ensures CacheOk(after, after.caches[p]) {
      forall e | e in after.caches[p] ensures HeldSince(after, e.key, e.version, e.payload) {
        assert CacheOk(sys, sys.caches[p]);
        HeldLonger(sys, key, rows, e.key, e.version, e.payload);
      }
    }
    forall r | 0 <= r < |after.readers| ensures LoadOk(after, after.readers[r].load) {
      var load := sys.readers[r].load;
      assert LoadOk(sys, load);
      if load.Fetched? || load.Done? { HeldLonger(sys, key, rows, load.key, load.version, load.rows); }
    }
  }

  /** Every step of every reader and writer keeps the caches coherent. */
  lemma StepKeeps(action: Action, sys: System)
    requires Coherent(sys)
    ensures Coherent(Next(action, sys))
  {
    hide CacheOk, HeldSince;
    match action {
      case ReadVersion(r, key) =>
        if r < |sys.readers| && key in sys.stores { MoveKeeps(sys, r, Versioned(key, VersionOf(sys.stores[key]))); }
      case Lookup(r) =>
        if r < |sys.readers| && sys.readers[r].load.Versioned? { LookupKeeps(sys, r); }
      case ReadRows(r) =>
        if r < |sys.readers| && sys.readers[r].load.Missed? && sys.readers[r].load.key in sys.stores {
          ReadRowsKeeps(sys, r);
        }
      case Insert(r) =>
        if r < |sys.readers| && sys.readers[r].load.Fetched? { InsertKeeps(sys, r); }
      case Write(key, rows) =>
        if key in sys.stores { WriteKeeps(sys, key, rows); }
      case Forget(p, key) =>
        if p < |sys.caches| {
          DropOk(sys, sys.caches[p], key);
          CacheKeeps(sys, p, CacheDrop(sys.caches[p], key));
        }
    }
  }

  lemma DropOk(sys: System, entries: seq<Cached>, key: string)
    requires CacheOk(sys, entries)
    ensures CacheOk(sys, CacheDrop(entries, key))
  {
    hide HeldSince, CacheDrop;
    DropMembers(entries, key);
  }

  lemma PutOk(sys: System, entries: seq<Cached>, cached: Cached)
    requires CacheOk(sys, entries) && HeldSince(sys, cached.key, cached.version, cached.payload)
    ensures CacheOk(sys, CachePut(entries, cached))
  {
    hide HeldSince, Assigned;
    AssignedMembers(entries, cached);
  }

  lemma HitOk(sys: System, entries: seq<Cached>, key: string, version: nat)
    requires CacheOk(sys, entries) && CacheGet(entries, key, version).Some?
    ensures HeldSince(sys, key, version, CacheGet(entries, key, version).value)
  {
    hide HeldSince, Find;
    FindIsMember(entries, key);
  }

  lemma LookupKeeps(sys: System, r: nat)
    requires Coherent(sys) && r < |sys.readers| && sys.readers[r].load.Versioned?
    ensures Coherent(Next(Lookup(r), sys))
  {
    hide HeldSince, CacheOk, CacheGet;
    var load, entries := sys.readers[r].load, sys.caches[sys.readers[r].process];
    assert LoadOk(sys, load) && CacheOk(sys, entries);
    match CacheGet(entries, load.key, load.version) {
      case Some(payload) =>
        HitOk(sys, entries, load.key, load.version);
        MoveKeeps(sys, r, Done(load.key, load.version, payload));
      case None => MoveKeeps(sys, r, Missed(load.key, load.version));
    }
  }

  lemma ReadRowsKeeps(sys: System, r: nat)
    requires Coherent(sys) && r < |sys.readers| && sys.readers[r].load.Missed? && sys.readers[r].load.key in sys.stores
    ensures Coherent(Next(ReadRows(r), sys))
  {
    hide CacheOk;
    var load := sys.readers[r].load;
    assert LoadOk(sys, load);
    assert RowsOf(sys.stores[load.key]) == sys.stores[load.key].history[VersionOf(sys.stores[load.key])];
    MoveKeeps(sys, r, Fetched(load.key, load.version, RowsOf(sys.stores[load.key])));
  }

  lemma InsertKeeps(sys: System, r: nat)
    requires Coherent(sys) && r < |sys.readers| && sys.readers[r].load.Fetched?
    ensures Coherent(Next(Insert(r), sys))
  {
    hide HeldSince, CacheOk, CachePut;
    var load, p := sys.readers[r].load, sys.readers[r].process;
    assert LoadOk(sys, load) && CacheOk(sys, sys.caches[p]);
    var entries := CachePut(sys.caches[p], Cached(load.key, load.version, load.rows));
    PutOk(sys, sys.caches[p], Cached(load.key, load.version, load.rows));
    CacheKeeps(sys, p, entries);
    var stored := sys.(caches := sys.caches[p := entries]);
    SameStoresHeld(sys, stored, load.key, load.version, load.rows);
    MoveKeeps(stored, r, Done(load.key, load.version, load.rows));
  }

  lemma SameStoresHeld(sys: System, after: System, key: string, version: nat, rows: Rows)
    requires sys.stores == after.stores
    ensures HeldSince(sys, key, version, rows) == HeldSince(after, key, version, rows)
  {
  }

  /** The system after a series of steps. */
  function Run(actions: seq<Action>, sys: System): System
    requires WellFormed(sys)
    ensures WellFormed(Run(actions, sys))
  {
    if actions == [] then sys else Next(actions[|actions| - 1], Run(actions[..|actions| - 1], sys))
  }

  /** All stores and any number of processes, with empty caches and no load under way. */
  ghost predicate Initial(sys: System) {
    && WellFormed(sys)
    && (forall p :: 0 <= p < |sys.caches| ==> sys.caches[p] == [])
    && (forall r :: 0 <= r < |sys.readers| ==> sys.readers[r].load == Idle)
  }

  lemma {:induction false} RunsCoherent(actions: seq<Action>, sys: System)
    requires Initial(sys)
    ensures Coherent(Run(actions, sys))
  {
    hide Next;
    if actions != [] {
      hide Coherent;
      RunsCoherent(actions[..|actions| - 1], sys);
      StepKeeps(actions[|actions| - 1], Run(actions[..|actions| - 1], sys));
    }
  }

  /** In every run, whatever a process's cache answers for the current version is exactly
      the store's current rows. */
  lemma HitIsCurrent(actions: seq<Action>, sys: System, p: nat, key: string)
    requires Initial(sys)
    requires p < |Run(actions, sys).caches| && key in Run(actions, sys).stores
    ensures var now := Run(actions, sys);
            var hit := CacheGet(now.caches[p], key, VersionOf(now.stores[key]));
            hit.None? || hit.value == RowsOf(now.stores[key])
  {
    hide Run, CacheGet;
    RunsCoherent(actions, sys);
    var now := Run(actions, sys);
    assert CacheOk(now, now.caches[p]);
    if CacheGet(now.caches[p], key, VersionOf(now.stores[key])).Some? {
      HitOk(now, now.caches[p], key, VersionOf(now.stores[key]));
    }
  }

  /** In every run a finished load has returned rows the store held at some moment since
      the load read the version; without a write since then, the current rows. */
  lemma LoadReturnsHeldRows(actions: seq<Action>, sys: System, r: nat)
    requires Initial(sys)
    requires r < |Run(actions, sys).readers| && Run(actions, sys).readers[r].load.Done?
    ensures var now := Run(actions, sys);
            var load := now.readers[r].load;
            && HeldSince(now, load.key, load.version, load.rows)
            && (VersionOf(now.stores[load.key]) == load.version ==> load.rows == RowsOf(now.stores[load.key]))
  {
    hide Run;
    RunsCoherent(actions, sys);
    assert LoadOk(Run(actions, sys), Run(actions, sys).readers[r].load);
  }

  /** Coherence rests on every write bumping the version: were rows replaced at the same
      version, a cached entry of that version would be answered although it is stale. */
  lemma SilentWriteGoesStale(sys: System, p: nat, key: string, rows: Rows)
    requires Coherent(sys) && p < |sys.caches| && key in sys.stores && rows != RowsOf(sys.stores[key])
    requires CacheGet(sys.caches[p], key, VersionOf(sys.stores[key])).Some?
    ensures var history := sys.stores[key].history;
            var silent := sys.(stores := sys.stores[key := Store(history[|history| - 1 := rows])]);
            && VersionOf(silent.stores[key]) == VersionOf(sys.stores[key])
            && CacheGet(silent.caches[p], key, VersionOf(silent.stores[key])).Some?
            && CacheGet(silent.caches[p], key, VersionOf(silent.stores[key])).value != RowsOf(silent.stores[key])
  {
    hide CacheGet;
    assert CacheOk(sys, sys.caches[p]);
    HitOk(sys, sys.caches[p], key, VersionOf(sys.stores[key]));
  }

  // ---------------------------------------------------------------- loads that finish

  /** No cache is over its limit. */
  ghost predicate Limited(sys: System) {
    forall p :: 0 <= p < |sys.caches| ==> |sys.caches[p]| <= CACHE_LIMIT
  }

  lemma {:induction false} AssignedLength(entries: seq<Cached>, cached: Cached)
    ensures |entries| <= |Assigned(entries, cached)| <= |entries| + 1
    ensures |Assigned(entries, cached)| > |entries| ==>
              && Assigned(entries, cached) == entries + [cached]
              && (entries != [] ==> entries[0].key != cached.key)
  {
    if entries != [] && entries[0].key != cached.key { AssignedLength(entries[1..], cached); }
  }

  lemma {:induction false} DropLength(entries: seq<Cached>, key: string)
    ensures |CacheDrop(entries, key)| <= |entries|
  {
    if entries != [] { DropLength(entries[1..], key); }
  }

  lemma StepLimits(action: Action, sys: System)
    requires WellFormed(sys) && Limited(sys)
    ensures Limited(Next(action, sys))
  {
    hide CacheGet, Assigned, CacheDrop;
    match action {
      case Insert(r) =>
        if r < |sys.readers| && sys.readers[r].load.Fetched? {
          var load := sys.readers[r].load;
          AssignedLength(sys.caches[sys.readers[r].process], Cached(load.key, load.version, load.rows));
        }
      case Forget(p, key) => if p < |sys.caches| { DropLength(sys.caches[p], key); }
      case _ =>
    }
  }

  /** In every run no cache goes over its limit. */
  lemma {:induction false} RunsLimited(actions: seq<Action>, sys: System)
    requires Initial(sys)
    ensures Limited(Run(actions, sys))
  {
    if actions != [] {
      hide Next, Limited;
      RunsLimited(actions[..|actions| - 1], sys);
      StepLimits(actions[|actions| - 1], Run(actions[..|actions| - 1], sys));
    }
  }

  /** What was put last is found. */
  lemma PutIsFound(entries: seq<Cached>, cached: Cached)
    requires |entries| <= CACHE_LIMIT
    ensures CacheGet(CachePut(entries, cached), cached.key, cached.version) == Some(cached.payload)
  {
    hide Find, Assigned;
    AssignedLength(entries, cached);
    FindAssigned(entries, cached);
    if |Assigned(entries, cached)| > CACHE_LIMIT {
      assert CachePut(entries, cached) == entries[1..] + [cached];
      FindTail(entries, cached);
    }
  }

  lemma FindTail(entries: seq<Cached>, cached: Cached)
    requires entries != [] && Assigned(entries, cached) == entries + [cached] && entries[0].key != cached.key
    ensures Find(entries[1..] + [cached], cached.key) == Some(cached)
  {
    assert Assigned(entries[1..], cached) == entries[1..] + [cached] by {
      assert ([entries[0]] + Assigned(entries[1..], cached))[1..] == (entries + [cached])[1..];
    }
    FindAssigned(entries[1..], cached);
  }

  /** The steps of one load. */
  function LoadAll(r: nat, key: string, sys: System): System
    requires WellFormed(sys)
  {
    Next(Insert(r), Next(ReadRows(r), Next(Lookup(r), Next(ReadVersion(r, key), sys))))
  }

  /** A load no write comes between returns the current rows, and leaves them in its
      process's cache for the next load to find. */
  lemma LoadFills(r: nat, key: string, sys: System)
    requires Coherent(sys) && Limited(sys) && r < |sys.readers| && key in sys.stores
    ensures var after, version, rows := LoadAll(r, key, sys), VersionOf(sys.stores[key]), RowsOf(sys.stores[key]);
            && after.stores == sys.stores && after.readers[r].load == Done(key, version, rows)
            && CacheGet(after.caches[sys.readers[r].process], key, version) == Some(rows)
  {
    hide CacheGet, CachePut, CacheOk, HeldSince;
    var p, version, rows := sys.readers[r].process, VersionOf(sys.stores[key]), RowsOf(sys.stores[key]);
    assert CacheOk(sys, sys.caches[p]);
    var hit := CacheGet(sys.caches[p], key, version);
    if hit.Some? {
      HitOk(sys, sys.caches[p], key, version);
      HeldNow(sys, key, hit.value);
    } else {
      PutIsFound(sys.caches[p], Cached(key, version, rows));
    }
  }

  lemma HeldNow(sys: System, key: string, rows: Rows)
    requires key in sys.stores && sys.stores[key].history != []
    requires HeldSince(sys, key, VersionOf(sys.stores[key]), rows)
    ensures rows == RowsOf(sys.stores[key])
  {
  }
}
