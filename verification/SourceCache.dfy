/**
 The cache of loaded source plugins: `SourceManager.get` and `invalidate`, used by any
 number of threads, while `_SourceService.edit` commits to the database outside the lock.

 Each committed configuration of a source carries a version number.  A source's name is
 never the uuid of a source, because the manager keeps plugins under both keys.
 */
module SourceCache {
  import opened Wrappers

  type Uuid = string
  type Tid = nat

  datatype Config = Config(name: string, version: nat)
  datatype Plugin = Plugin(uuid: Uuid, version: nat)

  type Cache = map<string, Option<Plugin>>

  /** No back-end of that kind (or it cannot be built); loaded; or built but its load raised. */
  datatype Loading = NoPlugin | Loads | LoadRaises

  // ---------- The manager's operations on its dictionary ----------

  function Cached(cache: Cache, key: string): Option<Plugin> {
    if key in cache then cache[key] else None
  }

  /** `_load_source`: the plugin, or None; a loaded plugin is also kept under its name. */
  function Loaded(uuid: Uuid, row: Option<Config>, loading: Loading): Option<Plugin> {
    if row.None? || loading == NoPlugin then None else Some(Plugin(uuid, row.value.version))
  }

  function AfterLoad(cache: Cache, uuid: Uuid, row: Option<Config>, loading: Loading): Cache {
    var plugin := Loaded(uuid, row, loading);
    var named := if plugin.Some? && loading == Loads then cache[row.value.name := plugin] else cache;
    named[uuid := plugin]
  }

  /** What a miss leaves in the dict and answers; a plugin whose load raised is kept under its uuid only. */
  predicate IsLoaded(before: Cache, uuid: Uuid, row: Option<Config>, loading: Loading, after: Cache,
                     plugin: Option<Plugin>) {
    match (row, loading)
    case (Some(config), Loads) =>
      plugin == Some(Plugin(uuid, config.version)) && after == before[config.name := plugin][uuid := plugin]
    case (Some(config), LoadRaises) => plugin == Some(Plugin(uuid, config.version)) && after == before[uuid := plugin]
    case (_, _) => plugin == None && after == before[uuid := None]
  }

  class SourceManager {
    var sources: Cache

    constructor ()
      ensures sources == map[]
    {
      sources := map[];
    }

    /** The row is what the source service would answer, and is only used on a miss. */
    method Get(uuid: Uuid, row: Option<Config>, loading: Loading) returns (plugin: Option<Plugin>)
      modifies this
      ensures plugin == Cached(sources, uuid)
      ensures Cached(old(sources), uuid).Some? ==> sources == old(sources)
      ensures Cached(old(sources), uuid).None? ==> sources == AfterLoad(old(sources), uuid, row, loading)
      // A hit changes nothing.
      ensures uuid in old(sources) && old(sources)[uuid].Some? ==>
        plugin == old(sources)[uuid] && sources == old(sources)
      // A miss loads the row, if there is one.
      ensures !(uuid in old(sources) && old(sources)[uuid].Some?) ==>
        IsLoaded(old(sources), uuid, row, loading, sources, plugin)
    {
      if uuid !in sources || sources[uuid].None? {
        var loaded := LoadSource(uuid, row, loading);
        sources := sources[uuid := loaded];
      }
      plugin := sources[uuid];
    }

    method LoadSource(uuid: Uuid, row: Option<Config>, loading: Loading) returns (plugin: Option<Plugin>)
      modifies this
      ensures plugin == Loaded(uuid, row, loading)
      ensures sources[uuid := plugin] == AfterLoad(old(sources), uuid, row, loading)
    {
      if row.None? || loading == NoPlugin {
        return None;
      }
      plugin := Some(Plugin(uuid, row.value.version));
      if loading == Loads {
        sources := sources[row.value.name := plugin];
      }
    }

    method Invalidate(uuid: Uuid)
      modifies this
      ensures sources == old(sources) - {uuid}
    {
      sources := sources - {uuid};
    }
  }

  // ---------- Interleaved threads ----------

  datatype Pc =
    | Idle
    | Getting(u: Uuid)                       // get called, lock not taken
    | Checking(u: Uuid)                      // lock taken, cache not read
    | Reading(u: Uuid)                       // missed, row not read
    | Building(u: Uuid, row: Option<Config>) // row read, plugin not stored
    | Editing(u: Uuid)                       // edit called, nothing committed
    | Committed(u: Uuid, version: nat)       // committed, not invalidated, lock not taken
    | Popping(u: Uuid, version: nat)         // committed, not invalidated, lock taken

  datatype State = State(
    db: map<Uuid, Config>,
    cache: Cache,
    lock: Option<Tid>,
    threads: map<Tid, Pc>,
    returned: set<(Uuid, nat)>, // edits that have returned, by the version they committed
    used: set<Uuid>,            // uuids of all sources so far
    names: set<string>)         // names of all sources so far

  datatype Label =
    | CallGet(t: Tid, u: Uuid) | LockGet(t: Tid) | Hit(t: Tid) | Miss(t: Tid) | ReadRow(t: Tid)
    | Store(t: Tid, loading: Loading)
    | CallEdit(t: Tid, u: Uuid) | Commit(t: Tid, name: string) | EditFails(t: Tid)
    | LockEdit(t: Tid) | Pop(t: Tid)
    | Create(u: Uuid, name: string) | Delete(u: Uuid)

  const INIT := State(map[], map[], None, map[], {}, {}, {})

  function At(s: State, t: Tid): Pc {
    if t in s.threads then s.threads[t] else Idle
  }

  function Goto(s: State, t: Tid, pc: Pc): State {
    s.(threads := s.threads[t := pc])
  }

  predicate Enabled(s: State, l: Label) {
    match l
    case CallGet(t, _) => At(s, t) == Idle
    case LockGet(t) => At(s, t).Getting? && s.lock == None
    case Hit(t) => At(s, t).Checking? && Cached(s.cache, At(s, t).u).Some?
    case Miss(t) => At(s, t).Checking? && Cached(s.cache, At(s, t).u).None?
    case ReadRow(t) => At(s, t).Reading?
    case Store(t, _) => At(s, t).Building?
    case CallEdit(t, _) => At(s, t) == Idle
    case Commit(t, name) => At(s, t).Editing? && At(s, t).u in s.db && name !in s.used
    case EditFails(t) => At(s, t).Editing? && At(s, t).u !in s.db
    case LockEdit(t) => At(s, t).Committed? && s.lock == None
    case Pop(t) => At(s, t).Popping?
    case Create(u, name) => u !in s.used && u !in s.names && name !in s.used && name != u
    case Delete(u) => u in s.db
  }

  function Next(s: State, l: Label): State
    requires Enabled(s, l)
  {
    match l
    case CallGet(t, u) => Goto(s, t, Getting(u))
    case LockGet(t) => Goto(s, t, Checking(At(s, t).u)).(lock := Some(t))
    case Hit(t) => Goto(s, t, Idle).(lock := None)
    case Miss(t) => Goto(s, t, Reading(At(s, t).u))
    case ReadRow(t) =>
      var u := At(s, t).u;
      Goto(s, t, Building(u, if u in s.db then Some(s.db[u]) else None))
    case Store(t, loading) =>
      Goto(s, t, Idle).(cache := AfterLoad(s.cache, At(s, t).u, At(s, t).row, loading), lock := None)
    case CallEdit(t, u) => Goto(s, t, Editing(u))
    case Commit(t, name) =>
      var u := At(s, t).u;
      var version := s.db[u].version + 1;
      Goto(s, t, Committed(u, version)).(db := s.db[u := Config(name, version)], names := s.names + {name})
    case EditFails(t) => Goto(s, t, Idle)
    case LockEdit(t) => Goto(s, t, Popping(At(s, t).u, At(s, t).version)).(lock := Some(t))
    case Pop(t) =>
      var u := At(s, t).u;
      Goto(s, t, Idle).(cache := s.cache - {u}, lock := None, returned := s.returned + {(u, At(s, t).version)})
    case Create(u, name) =>
      s.(db := s.db[u := Config(name, 0)], used := s.used + {u}, names := s.names + {name})
    case Delete(u) => s.(db := s.db - {u})
  }

  /** What a `get` returns at the step that ends it: the source asked for and the plugin. */
  function Result(s: State, l: Label): Option<(Uuid, Option<Plugin>)>
    requires Enabled(s, l)
  {
    match l
    case Hit(t) => Some((At(s, t).u, Cached(s.cache, At(s, t).u)))
    case Store(t, loading) => Some((At(s, t).u, Cached(Next(s, l).cache, At(s, t).u)))
    case _ => None
  }

  function Run(labels: seq<Label>): Option<State> {
    if labels == [] then Some(INIT)
    else
      var s :- Run(labels[..|labels| - 1]);
      var l := labels[|labels| - 1];
      if Enabled(s, l) then Some(Next(s, l)) else None
  }

  // ---------- Invariants ----------

  predicate Holds(pc: Pc) {
    pc.Checking? || pc.Reading? || pc.Building? || pc.Popping?
  }

  predicate IsPendingEdit(pc: Pc, u: Uuid, k: nat) {
    pc == Committed(u, k) || pc == Popping(u, k)
  }

  /** An edit of `u` has committed version `k` and has not invalidated the cache yet. */
  ghost predicate Pending(s: State, u: Uuid, k: nat) {
    exists t: Tid :: IsPendingEdit(At(s, t), u, k)
  }

  /** Every version of `u` after `v` belongs to an edit that is still to invalidate. */
  ghost predicate OnlyPendingAfter(s: State, u: Uuid, v: nat)
    requires u in s.db
  {
    v <= s.db[u].version && forall k: nat | v < k <= s.db[u].version :: Pending(s, u, k)
  }

  ghost predicate LockInv(s: State) {
    forall t: Tid :: Holds(At(s, t)) <==> s.lock == Some(t)
  }

  /** No name is the uuid of a source. */
  predicate NamesApart(s: State) {
    && s.db.Keys <= s.used && s.used !! s.names
    && (forall u | u in s.db :: s.db[u].name in s.names)
    && (forall key | key in s.cache && s.cache[key].Some? :: key in s.used || key in s.names)
  }

  predicate KnownPlace(s: State, pc: Pc) {
    && (pc.Building? && pc.row.Some? ==> pc.u in s.used && pc.row.value.name in s.names)
    && (pc.Committed? || pc.Popping? ==> pc.u in s.used)
  }

  ghost predicate NamesInv(s: State) {
    && NamesApart(s)
    && (forall t: Tid :: KnownPlace(s, At(s, t)))
    && (forall u, k: nat | (u, k) in s.returned :: u in s.used)
  }

  predicate IsOpen(s: State, u: Uuid, k: nat) {
    (u, k) !in s.returned && (u in s.db ==> k <= s.db[u].version)
  }

  ghost predicate EditsInv(s: State) {
    && (forall t: Tid, u, k: nat {:trigger IsPendingEdit(At(s, t), u, k)} | IsPendingEdit(At(s, t), u, k) ::
          IsOpen(s, u, k))
    && (forall t: Tid, t': Tid, u, k: nat | IsPendingEdit(At(s, t), u, k) && IsPendingEdit(At(s, t'), u, k) :: t == t')
    && (forall u, k: nat | (u, k) in s.returned && u in s.db :: k <= s.db[u].version)
  }

  ghost predicate CacheInv(s: State) {
    && (forall u | u in s.db && Cached(s.cache, u).Some? ::
          OnlyPendingAfter(s, u, Cached(s.cache, u).value.version))
    && (forall t: Tid | At(s, t).Building? && At(s, t).row.Some? && At(s, t).u in s.db ::
          OnlyPendingAfter(s, At(s, t).u, At(s, t).row.value.version))
  }

  ghost predicate Inv(s: State) {
    LockInv(s) && NamesInv(s) && EditsInv(s) && CacheInv(s)
  }

  function Actor(l: Label): Option<Tid> {
    if l.Create? || l.Delete? then None else Some(l.t)
  }

  lemma OthersKeepTheirPlace(s: State, l: Label)
    requires Enabled(s, l)
    ensures forall t: Tid :: Some(t) != Actor(l) ==> At(Next(s, l), t) == At(s, t)
  {
  }

  lemma PendingKept(s: State, l: Label, u: Uuid, k: nat)
    requires Enabled(s, l) && Pending(s, u, k)
    requires l.Pop? ==> !IsPendingEdit(At(s, l.t), u, k)
    ensures Pending(Next(s, l), u, k)
  {
    var t: Tid :| IsPendingEdit(At(s, t), u, k);
    assert IsPendingEdit(At(Next(s, l), t), u, k);
  }

  lemma FreshKept(s: State, l: Label, u: Uuid, v: nat)
    requires Inv(s) && Enabled(s, l) && !l.Pop?
    requires u in s.db && OnlyPendingAfter(s, u, v) && u in Next(s, l).db
    ensures OnlyPendingAfter(Next(s, l), u, v)
  {
    var s' := Next(s, l);
    forall k: nat | v < k <= s'.db[u].version ensures Pending(s', u, k) {
      if k <= s.db[u].version {
        PendingKept(s, l, u, k);
      } else {
        assert IsPendingEdit(At(s', l.t), u, k);
      }
    }
  }

  lemma NextLock(s: State, l: Label)
    requires Inv(s) && Enabled(s, l)
    ensures LockInv(Next(s, l))
  {
  }

  lemma NextNamesApart(s: State, l: Label)
    requires Inv(s) && Enabled(s, l)
    ensures NamesApart(Next(s, l))
  {
    if Actor(l).Some? {
      assert KnownPlace(s, At(s, l.t));
    }
  }

  lemma NextNames(s: State, l: Label)
    requires Inv(s) && Enabled(s, l)
    ensures NamesInv(Next(s, l))
  {
    NextNamesApart(s, l);
    OthersKeepTheirPlace(s, l);
    forall t: Tid ensures KnownPlace(Next(s, l), At(Next(s, l), t)) {
      assert KnownPlace(s, At(s, t));
    }
  }

  /** A pending edit after a step was pending before it, unless the step is its own commit. */
  lemma PendingBefore(s: State, l: Label, t: Tid, u: Uuid, k: nat)
    requires Inv(s) && Enabled(s, l) && IsPendingEdit(At(Next(s, l), t), u, k)
    ensures IsPendingEdit(At(s, t), u, k) || (l.Commit? && l.t == t && u in s.db && k == s.db[u].version + 1)
    ensures u in s.used && (l.Pop? ==> t != l.t)
  {
    OthersKeepTheirPlace(s, l);
  }

  lemma NextVersionIsNew(s: State, t: Tid, u: Uuid, k: nat)
    requires Inv(s)
    ensures u in s.db && IsPendingEdit(At(s, t), u, k) ==> k <= s.db[u].version
    ensures u in s.db && (u, k) in s.returned ==> k <= s.db[u].version
  {
  }

  lemma NextEdits(s: State, l: Label)
    requires Inv(s) && Enabled(s, l)
    ensures EditsInv(Next(s, l))
  {
    var s' := Next(s, l);
    forall t: Tid, t': Tid, u, k: nat | IsPendingEdit(At(s', t), u, k) && IsPendingEdit(At(s', t'), u, k)
      ensures t == t'
    {
      PendingBefore(s, l, t, u, k);
      PendingBefore(s, l, t', u, k);
      NextVersionIsNew(s, t, u, k);
      NextVersionIsNew(s, t', u, k);
    }
    forall t: Tid, u, k: nat | IsPendingEdit(At(s', t), u, k)
      ensures IsOpen(s', u, k)
    {
      PendingBefore(s, l, t, u, k);
      NextVersionIsNew(s, t, u, k);
      if l.Pop? && (u, k) == (At(s, l.t).u, At(s, l.t).version) {
        assert IsPendingEdit(At(s, l.t), u, k);
      }
    }
    forall u, k: nat | (u, k) in s'.returned && u in s'.db ensures k <= s'.db[u].version {
      assert (u, k) in s.returned || IsPendingEdit(At(s, l.t), u, k);
    }
  }

  /** The pop of one edit: the popped entry is gone, nobody is building, other sources keep theirs. */
  lemma PopCache(s: State, t: Tid)
    requires Inv(s) && Enabled(s, Pop(t))
    ensures CacheInv(Next(s, Pop(t)))
  {
    var s' := Next(s, Pop(t));
    OthersKeepTheirPlace(s, Pop(t));
    assert forall t': Tid :: !At(s', t').Building?;
    forall u | u in s'.db && Cached(s'.cache, u).Some?
      ensures OnlyPendingAfter(s', u, Cached(s'.cache, u).value.version)
    {
      assert u != At(s, t).u && Cached(s'.cache, u) == Cached(s.cache, u);
      forall k: nat | Cached(s.cache, u).value.version < k <= s'.db[u].version ensures Pending(s', u, k) {
        PendingKept(s, Pop(t), u, k);
      }
    }
  }

  lemma CachedFresh(s: State, l: Label, u: Uuid)
    requires Inv(s) && Enabled(s, l) && !l.Pop?
    requires u in Next(s, l).db && Cached(Next(s, l).cache, u).Some?
    ensures OnlyPendingAfter(Next(s, l), u, Cached(Next(s, l).cache, u).value.version)
  {
    if l.Store? && At(s, l.t).u == u {
      FreshKept(s, l, u, At(s, l.t).row.value.version);
    } else {
      assert Cached(Next(s, l).cache, u) == Cached(s.cache, u);
      FreshKept(s, l, u, Cached(s.cache, u).value.version);
    }
  }

  lemma NextCache(s: State, l: Label)
    requires Inv(s) && Enabled(s, l)
    ensures CacheInv(Next(s, l))
  {
    if l.Pop? {
      PopCache(s, l.t);
    } else {
      var s' := Next(s, l);
      forall u | u in s'.db && Cached(s'.cache, u).Some?
        ensures OnlyPendingAfter(s', u, Cached(s'.cache, u).value.version)
      {
        CachedFresh(s, l, u);
      }
      forall t: Tid | At(s', t).Building? && At(s', t).row.Some? && At(s', t).u in s'.db
        ensures OnlyPendingAfter(s', At(s', t).u, At(s', t).row.value.version)
      {
        if At(s, t).Building? {
          FreshKept(s, l, At(s, t).u, At(s, t).row.value.version);
        }
      }
    }
  }

  lemma {:induction false} RunInv(labels: seq<Label>)
    requires Run(labels).Some?
    ensures Inv(Run(labels).value)
  {
    if labels != [] {
      RunInv(labels[..|labels| - 1]);
      var s, l := Run(labels[..|labels| - 1]).value, labels[|labels| - 1];
      NextLock(s, l);
      NextNames(s, l);
      NextEdits(s, l);
      NextCache(s, l);
    }
  }

  // ---------- What the cache guarantees ----------

  /** A `get` that loads answers and keeps the plugin of the row it read, even when its load raised. */
  lemma LoadAnswers(s: State, t: Tid, loading: Loading)
    requires Enabled(s, Store(t, loading))
    ensures var u, row := At(s, t).u, At(s, t).row;
      var answer := Result(s, Store(t, loading));
      && answer.Some? && answer.value.0 == u
      && IsLoaded(s.cache, u, row, loading, Next(s, Store(t, loading)).cache, answer.value.1)
  {
  }

  /**
   In every interleaving: a `get` that ends after the edit that committed version `k` has
   returned gives a plugin loaded from version `k` or later, as long as the source exists.
   */
  lemma NoStaleGet(labels: seq<Label>, l: Label, k: nat)
    requires Run(labels).Some? && Enabled(Run(labels).value, l)
    requires var s := Run(labels).value;
             && Result(s, l).Some? && Result(s, l).value.0 in s.db && Result(s, l).value.1.Some?
             && (Result(s, l).value.0, k) in s.returned
    ensures var plugin := Result(Run(labels).value, l).value.1.value;
            k <= plugin.version <= Run(labels).value.db[Result(Run(labels).value, l).value.0].version
  {
    RunInv(labels);
    var s := Run(labels).value;
    var (u, plugin) := Result(s, l).value;
    if l.Store? {
      assert plugin == Loaded(u, At(s, l.t).row, l.loading);
    }
    assert OnlyPendingAfter(s, u, plugin.value.version);
    assert !Pending(s, u, k);
  }

  /**
   A cached plugin of an existing source is older than the database only while the edits
   of all the versions it misses are still to invalidate; once none is, it is current.
   */
  lemma StaleOnlyWhilePending(labels: seq<Label>, u: Uuid)
    requires Run(labels).Some?
    requires var s := Run(labels).value; u in s.db && Cached(s.cache, u).Some?
    ensures var s := Run(labels).value;
            var v := Cached(s.cache, u).value.version;
            && v <= s.db[u].version
            && (forall k: nat | v < k <= s.db[u].version :: Pending(s, u, k))
            && ((forall k: nat :: !Pending(s, u, k)) ==> v == s.db[u].version)
  {
    RunInv(labels);
    var s := Run(labels).value;
    if forall k: nat :: !Pending(s, u, k) {
      assert !Pending(s, u, s.db[u].version);
    }
  }
}
