/**
 What happens to a source once it is deleted: nothing invalidates the cache then, so whether the source is
 still served depends on what was cached, and on the threads that were at work on it.
 */
module DeletedSources {
  import opened Wrappers
  import opened SourceCache

  predicate IsDeleted(s: State, u: Uuid) {
    u in s.used && u !in s.db
  }

  /** A thread has read the row before the deletion and has not stored its plugin yet. */
  predicate IsLateStore(pc: Pc, u: Uuid) {
    pc.Building? && pc.u == u && pc.row.Some?
  }

  predicate IsMissing(pc: Pc, u: Uuid) {
    (pc.Reading? || pc.Building?) && pc.u == u
  }

  /** An edit of `u` has committed and has not invalidated the cache yet. */
  predicate IsPending(pc: Pc, u: Uuid) {
    (pc.Committed? || pc.Popping?) && pc.u == u
  }

  /** Nothing under way can change what the cache has for `u`. */
  ghost predicate Settled(s: State, u: Uuid) {
    if Cached(s.cache, u).Some? then forall t: Tid :: !IsPending(At(s, t), u)
    else forall t: Tid :: !IsLateStore(At(s, t), u)
  }

  /** The step `l` after `labels` ends a `get` of `u` with this answer. */
  ghost predicate Ends(labels: seq<Label>, l: Label, u: Uuid, answer: Option<Plugin>) {
    Run(labels).Some? && Enabled(Run(labels).value, l) && Result(Run(labels).value, l) == Some((u, answer))
  }

  /** Every `get` of `u` that ends from here on, in any continuation, gives this answer. */
  ghost predicate AlwaysAnswers(labels: seq<Label>, u: Uuid, answer: Option<Plugin>) {
    forall more, l, given | Ends(labels + more, l, u, given) :: given == answer
  }

  // ---------- A thread that missed under the lock ----------

  ghost predicate MissInv(s: State) {
    forall t: Tid, u | IsMissing(At(s, t), u) :: Cached(s.cache, u).None?
  }

  lemma NextMiss(s: State, l: Label)
    requires Inv(s) && MissInv(s) && Enabled(s, l)
    ensures MissInv(Next(s, l))
  {
    OthersKeepTheirPlace(s, l);
    forall t: Tid, u | IsMissing(At(Next(s, l), t), u) ensures Cached(Next(s, l).cache, u).None? {
      if Some(t) != Actor(l) {
        assert IsMissing(At(s, t), u) && Holds(At(s, t));
      } else if !l.Miss? {
        assert IsMissing(At(s, t), u);
      }
    }
  }

  lemma {:induction false} RunMiss(labels: seq<Label>)
    requires Run(labels).Some?
    ensures Inv(Run(labels).value) && MissInv(Run(labels).value)
  {
    RunInv(labels);
    if labels != [] {
      RunMiss(labels[..|labels| - 1]);
      NextMiss(Run(labels[..|labels| - 1]).value, labels[|labels| - 1]);
    }
  }

  // ---------- Settled: the answer does not change ----------

  /** Deleted, with this in the cache for good. */
  ghost predicate Fixed(s: State, u: Uuid, answer: Option<Plugin>) {
    IsDeleted(s, u) && Cached(s.cache, u) == answer && Settled(s, u)
  }

  lemma CacheOfDeleted(s: State, l: Label, u: Uuid)
    requires Inv(s) && MissInv(s) && Enabled(s, l) && IsDeleted(s, u) && Settled(s, u)
    ensures Cached(Next(s, l).cache, u) == Cached(s.cache, u)
  {
    if l.Store? {
      var pc := At(s, l.t);
      assert IsMissing(pc, pc.u);
      assert pc.u == u ==> !IsLateStore(pc, u);
    } else if l.Pop? {
      assert At(s, l.t).u == u ==> IsPending(At(s, l.t), u);
    }
  }

  lemma NextFixed(s: State, l: Label, u: Uuid, answer: Option<Plugin>)
    requires Inv(s) && MissInv(s) && Enabled(s, l) && Fixed(s, u, answer)
    ensures Fixed(Next(s, l), u, answer)
  {
    OthersKeepTheirPlace(s, l);
    CacheOfDeleted(s, l, u);
    var s' := Next(s, l);
    forall t: Tid ensures IsPending(At(s', t), u) ==> IsPending(At(s, t), u) {
    }
    forall t: Tid ensures IsLateStore(At(s', t), u) ==> IsLateStore(At(s, t), u) {
    }
  }

  lemma FixedAnswers(s: State, l: Label, u: Uuid, answer: Option<Plugin>, given: Option<Plugin>)
    requires Inv(s) && MissInv(s) && Fixed(s, u, answer)
    requires Enabled(s, l) && Result(s, l) == Some((u, given))
    ensures given == answer
  {
    CacheOfDeleted(s, l, u);
  }

  lemma {:induction false} RunFixed(labels: seq<Label>, more: seq<Label>, u: Uuid, answer: Option<Plugin>)
    requires Run(labels).Some? && Fixed(Run(labels).value, u, answer)
    requires Run(labels + more).Some?
    ensures Fixed(Run(labels + more).value, u, answer)
  {
    if more == [] {
      assert labels + more == labels;
    } else {
      var init := more[..|more| - 1];
      assert (labels + more)[..|labels + more| - 1] == labels + init;
      RunFixed(labels, init, u, answer);
      RunMiss(labels + init);
      NextFixed(Run(labels + init).value, more[|more| - 1], u, answer);
    }
  }

  // ---------- Not settled: some continuation answers otherwise ----------

  lemma Then(labels: seq<Label>, more: seq<Label>, s: State, l: Label) returns (longer: seq<Label>, s': State)
    requires Run(labels + more) == Some(s) && Enabled(s, l)
    ensures s' == Next(s, l) && Run(labels + longer) == Some(s')
  {
    longer, s' := more + [l], Next(s, l);
    assert (labels + longer)[..|labels + more|] == labels + more;
  }

  /** The holder of the lock, not at work on `u`, can finish without touching what the cache has for `u`. */
  lemma FreeLock(labels: seq<Label>, s: State, u: Uuid, holder: Tid) returns (more: seq<Label>, s': State)
    requires Run(labels) == Some(s) && Inv(s) && MissInv(s)
    requires s.lock == Some(holder) && Cached(s.cache, u).Some? && !IsPending(At(s, holder), u)
    ensures Run(labels + more) == Some(s') && s'.lock == None
    ensures Cached(s'.cache, u) == Cached(s.cache, u)
    ensures s'.db == s.db && s'.used == s.used && forall t: Tid | t != holder :: At(s', t) == At(s, t)
  {
    more, s' := [], s;
    assert labels + more == labels;
    assert Holds(At(s, holder)) && !IsMissing(At(s, holder), u);
    if At(s, holder).Popping? {
      more, s' := Then(labels, more, s', Pop(holder));
    } else if At(s, holder).Checking? && Cached(s.cache, At(s, holder).u).Some? {
      more, s' := Then(labels, more, s', Hit(holder));
    } else {
      if At(s', holder).Checking? {
        more, s' := Then(labels, more, s', Miss(holder));
      }
      if At(s', holder).Reading? {
        more, s' := Then(labels, more, s', ReadRow(holder));
      }
      more, s' := Then(labels, more, s', Store(holder, NoPlugin));
    }
  }

  /** A pending edit, once the lock is free or its own, invalidates. */
  lemma PendingDrops(labels: seq<Label>, more: seq<Label>, s: State, u: Uuid, t: Tid)
    returns (longer: seq<Label>, s': State)
    requires Run(labels + more) == Some(s)
    requires IsPending(At(s, t), u) && (At(s, t).Committed? ==> s.lock == None)
    ensures Run(labels + longer) == Some(s') && s'.db == s.db
    ensures s'.lock == None && At(s', t) == Idle && Cached(s'.cache, u) == None
  {
    longer, s' := more, s;
    if At(s, t).Committed? {
      longer, s' := Then(labels, longer, s', LockEdit(t));
    }
    longer, s' := Then(labels, longer, s', Pop(t));
  }

  /** Then the next `get` finds nothing. */
  lemma PendingUndoes(labels: seq<Label>, more: seq<Label>, s: State, u: Uuid, t: Tid)
    returns (longer: seq<Label>, l: Label)
    requires Run(labels + more) == Some(s) && IsDeleted(s, u)
    requires IsPending(At(s, t), u) && (At(s, t).Committed? ==> s.lock == None)
    ensures Ends(labels + longer, l, u, None)
  {
    var s';
    longer, s' := PendingDrops(labels, more, s, u, t);
    longer, s' := Then(labels, longer, s', CallGet(t, u));
    longer, s' := Then(labels, longer, s', LockGet(t));
    longer, s' := Then(labels, longer, s', Miss(t));
    longer, s' := Then(labels, longer, s', ReadRow(t));
    l := Store(t, NoPlugin);
  }

  lemma UnsettledByEdit(labels: seq<Label>, u: Uuid, t: Tid) returns (more: seq<Label>, l: Label)
    requires Run(labels).Some? && IsDeleted(Run(labels).value, u)
    requires Cached(Run(labels).value.cache, u).Some? && IsPending(At(Run(labels).value, t), u)
    ensures Ends(labels + more, l, u, None)
  {
    RunMiss(labels);
    var s := Run(labels).value;
    assert labels + [] == labels;
    if s.lock.Some? && IsPending(At(s, s.lock.value), u) {
      assert Holds(At(s, s.lock.value));
      more, l := PendingUndoes(labels, [], s, u, s.lock.value);
    } else if s.lock.Some? {
      var s';
      assert At(s, t).Popping? ==> Holds(At(s, t));
      more, s' := FreeLock(labels, s, u, s.lock.value);
      more, l := PendingUndoes(labels, more, s', u, t);
    } else {
      more, l := PendingUndoes(labels, [], s, u, t);
    }
  }

  // ---------- Exactly when a deleted source is served ----------

  /**
   Every later `get` of a deleted source gives what the cache has for it, be it a plugin or nothing, if and
   only if no edit that could drop a cached plugin and no load that could store one is under way.
   */
  lemma DeletedSourceIff(labels: seq<Label>, u: Uuid)
    requires Run(labels).Some? && IsDeleted(Run(labels).value, u)
    ensures AlwaysAnswers(labels, u, Cached(Run(labels).value.cache, u)) <==> Settled(Run(labels).value, u)
  {
    var s := Run(labels).value;
    var answer := Cached(s.cache, u);
    if Settled(s, u) {
      forall more, l, given | Ends(labels + more, l, u, given) ensures given == answer {
        RunFixed(labels, more, u, answer);
        RunMiss(labels + more);
        FixedAnswers(Run(labels + more).value, l, u, answer, given);
      }
    } else if answer.Some? {
      var t: Tid :| IsPending(At(s, t), u);
      var more, l := UnsettledByEdit(labels, u, t);
      assert Ends(labels + more, l, u, None);
    } else {
      var t: Tid :| IsLateStore(At(s, t), u);
      assert labels + [] == labels;
      var plugin := Loaded(u, At(s, t).row, Loads);
      assert Ends(labels + [], Store(t, Loads), u, plugin);
    }
  }

  /** With no thread at work on it, a deleted source is served exactly when its plugin was in the cache. */
  lemma DeletedSourceServedIff(labels: seq<Label>, more: seq<Label>, l: Label, u: Uuid, given: Option<Plugin>)
    requires Run(labels).Some? && IsDeleted(Run(labels).value, u)
    requires forall t: Tid :: !IsPending(At(Run(labels).value, t), u) && !IsLateStore(At(Run(labels).value, t), u)
    requires Ends(labels + more, l, u, given)
    ensures given == Cached(Run(labels).value.cache, u)
  {
    DeletedSourceIff(labels, u);
  }

  // ---------- It does happen ----------

  lemma Do(labels: seq<Label>, s: State, l: Label) returns (labels': seq<Label>, s': State)
    requires Run(labels) == Some(s) && Enabled(s, l)
    ensures s' == Next(s, l) && Run(labels') == Some(s')
  {
    labels', s' := labels + [l], Next(s, l);
    assert labels'[..|labels|] == labels;
  }

  lemma ServedOnce() returns (labels: seq<Label>, s: State)
    ensures Run(labels) == Some(s) && s.lock == None && At(s, 0) == Idle
    ensures "u" in s.db && Cached(s.cache, "u") == Some(Plugin("u", 0))
  {
    labels, s := [], INIT;
    labels, s := Do(labels, s, Create("u", "n"));
    labels, s := Do(labels, s, CallGet(0, "u"));
    labels, s := Do(labels, s, LockGet(0));
    labels, s := Do(labels, s, Miss(0));
    labels, s := Do(labels, s, ReadRow(0));
    labels, s := Do(labels, s, Store(0, Loads));
  }

  /** Nothing invalidates on deletion: a deleted source goes on being served. */
  lemma DeletedSourceStillServed() returns (labels: seq<Label>, l: Label)
    ensures Run(labels).Some? && Enabled(Run(labels).value, l)
    ensures var s := Run(labels).value;
            Result(s, l) == Some(("u", Some(Plugin("u", 0)))) && "u" !in s.db
  {
    var s;
    labels, s := ServedOnce();
    labels, s := Do(labels, s, Delete("u"));
    labels, s := Do(labels, s, CallGet(0, "u"));
    labels, s := Do(labels, s, LockGet(0));
    l := Hit(0);
  }
}
