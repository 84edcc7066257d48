/**
 The LDAP client under threads: searches hold the plugin's lock, closing the plugin does not.

 Between any two statements that touch the connection any other thread may run.  The outcome of every bind
 and every query is part of the schedule.  A statement on a connection that is gone raises.
 */
module LdapThreads {
  import opened Wrappers
  import opened LdapClient

  type Tid = nat

  /** Where a thread goes once it has torn the connection down. */
  datatype Back = ToSearchStart | ToSearchEnd(retry: bool) | ToIdle

  datatype Pc =
    | Idle
    | SearchStarts               // the lock is taken
    | Connecting                 // about to open a connection
    | Binding                    // opened, not bound
    | Connected                  // about to look whether the bind went through
    | Querying(retry: bool)      // about to query; a second attempt is left or not
    | SearchEnds(retry: bool)    // queried, about to look whether to try again
    | CloseStarts                // about to look whether there is a connection
    | Unbinding(back: Back)      // tearing down: about to unbind
    | Clearing(back: Back)       // unbound, about to forget the connection

  datatype Client = Client(conn: Option<nat>, log: seq<Event>, raised: bool, lock: Option<Tid>, threads: map<Tid, Pc>)

  datatype Label =
    | BeginSearch(t: Tid)
    | BeginClose(t: Tid)
    | Go(t: Tid, ok: bool, reply: Reply)

  /** After `load`, whose bind went through or not. */
  function Loaded(up: bool): Client {
    if up then Client(Some(0), [Opened(0), Bound(0, true)], false, None, map[])
    else Client(None, [Opened(0), Bound(0, false), Unbound(0)], false, None, map[])
  }

  function At(s: Client, t: Tid): Pc {
    if t in s.threads then s.threads[t] else Idle
  }

  function Goto(s: Client, t: Tid, pc: Pc): Client {
    s.(threads := s.threads[t := pc])
  }

  /** The end of a search, which releases the lock, or of a close. */
  function Leave(s: Client, t: Tid): Client {
    Goto(s, t, Idle).(lock := if s.lock == Some(t) then None else s.lock)
  }

  function Logged(s: Client, e: Event): Client {
    s.(log := s.log + [e])
  }

  function Resume(back: Back): Pc {
    match back
    case ToSearchStart => Connected
    case ToSearchEnd(retry) => SearchEnds(retry)
    case ToIdle => Idle
  }

  /** The first `n` threads search, the next `m` close. */
  predicate Enabled(n: nat, m: nat, s: Client, l: Label) {
    match l
    case BeginSearch(t) => t < n && At(s, t) == Idle && s.lock == None
    case BeginClose(t) => n <= t < n + m && At(s, t) == Idle
    case Go(t, _, _) => At(s, t) != Idle
  }

  /** The next statement of a thread. */
  function Advance(s: Client, t: Tid, ok: bool, reply: Reply): Client
    requires At(s, t) != Idle
  {
    match At(s, t)
    case SearchStarts => if s.conn.Some? then Goto(s, t, Querying(true)) else Goto(s, t, Connecting)
    case Connecting =>
      var c := Opens(s.log);
      Goto(Logged(s, Opened(c)), t, Binding).(conn := Some(c))
    case Binding =>
      if s.conn.None? then Leave(s, t).(raised := true)
      else Goto(Logged(s, Bound(s.conn.value, ok)), t, if ok then Connected else Unbinding(ToSearchStart))
    case Connected => if s.conn.Some? then Goto(s, t, Querying(false)) else Leave(s, t)
    case Querying(retry) =>
      if s.conn.None? then Leave(s, t).(raised := true)
      else
        Goto(Logged(s, Queried(s.conn.value, reply)), t,
             if reply == OtherError then Unbinding(ToSearchEnd(retry)) else SearchEnds(retry))
    case SearchEnds(retry) => if s.conn.None? && retry then Goto(s, t, Connecting) else Leave(s, t)
    case CloseStarts => if s.conn.Some? then Goto(s, t, Unbinding(ToIdle)) else Leave(s, t)
    case Unbinding(back) =>
      if s.conn.None? then Leave(s, t).(raised := true)
      else Goto(Logged(s, Unbound(s.conn.value)), t, Clearing(back))
    case Clearing(back) =>
      var cleared := s.(conn := None);
      if back == ToIdle then Leave(cleared, t) else Goto(cleared, t, Resume(back))
  }

  function Step(n: nat, m: nat, s: Client, l: Label): Client
    requires Enabled(n, m, s, l)
  {
    match l
    case BeginSearch(t) => Goto(s, t, SearchStarts).(lock := Some(t))
    case BeginClose(t) => Goto(s, t, CloseStarts)
    case Go(t, ok, reply) => Advance(s, t, ok, reply)
  }

  function RunFrom(up: bool, n: nat, m: nat, labels: seq<Label>): Option<Client> {
    if labels == [] then Some(Loaded(up))
    else
      var s :- RunFrom(up, n, m, labels[..|labels| - 1]);
      var l := labels[|labels| - 1];
      if Enabled(n, m, s, l) then Some(Step(n, m, s, l)) else None
  }

  // ---------- Safety ----------

  /** Nothing raised, no connection was unbound twice, and every query went to a bound, open connection. */
  predicate Safe(s: Client) {
    !s.raised && SafeLog(s.log)
  }

  ghost predicate AlwaysSafe(n: nat, m: nat) {
    forall up, labels | RunFrom(up, n, m, labels).Some? :: Safe(RunFrom(up, n, m, labels).value)
  }

  /** Searches and closes do not overlap; a search that waits for the lock has not begun. */
  ghost predicate OneAtWork(s: Client) {
    forall t: Tid, t': Tid | At(s, t) != Idle && At(s, t') != Idle :: t == t'
  }

  ghost predicate CallsApart(up: bool, n: nat, m: nat, labels: seq<Label>) {
    forall k | 0 <= k <= |labels| && RunFrom(up, n, m, labels[..k]).Some? ::
      OneAtWork(RunFrom(up, n, m, labels[..k]).value)
  }

  /** How the log stands when the thread at work is at this place. */
  predicate Stands(s: Client, pc: Pc) {
    var session := Follow(s.log);
    match pc
    case Connecting => s.conn == None && session == Closed
    case Binding => s.conn.Some? && session == Opening(s.conn.value)
    case Querying(_) => s.conn.Some? && session == Ready(s.conn.value)
    case Unbinding(_) => s.conn.Some? && (session == Ready(s.conn.value) || session == Broken(s.conn.value))
    case Clearing(_) => s.conn.Some? && session == Closed
    case _ => session == if s.conn.Some? then Ready(s.conn.value) else Closed
  }

  /** At work alone, or nobody at work. */
  ghost predicate Inv(s: Client) {
    && !s.raised
    && (forall t: Tid | At(s, t) != Idle :: Stands(s, At(s, t)))
    && ((forall t: Tid :: At(s, t) == Idle) ==> Stands(s, Idle))
  }

  lemma LoadedInv(up: bool)
    ensures Inv(Loaded(up))
  {
    FollowOne([], Opened(0));
    FollowOne([Opened(0)], Bound(0, up));
    assert [] + [Opened(0)] == [Opened(0)];
    assert [Opened(0)] + [Bound(0, up)] == [Opened(0), Bound(0, up)];
    if !up {
      FollowOne([Opened(0), Bound(0, false)], Unbound(0));
      assert [Opened(0), Bound(0, false)] + [Unbound(0)] == [Opened(0), Bound(0, false), Unbound(0)];
    }
  }

  lemma ConnectStands(s: Client, t: Tid, ok: bool, reply: Reply)
    requires !s.raised && Stands(s, At(s, t)) && (At(s, t).Connecting? || At(s, t).Binding?)
    ensures var s' := Advance(s, t, ok, reply); !s'.raised && Stands(s', At(s', t))
  {
    FollowOne(s.log, if At(s, t).Connecting? then Opened(Opens(s.log)) else Bound(s.conn.value, ok));
  }

  lemma QueryStands(s: Client, t: Tid, ok: bool, reply: Reply)
    requires !s.raised && Stands(s, At(s, t)) && At(s, t).Querying?
    ensures var s' := Advance(s, t, ok, reply); !s'.raised && Stands(s', At(s', t))
  {
    FollowOne(s.log, Queried(s.conn.value, reply));
  }

  lemma UnbindStands(s: Client, t: Tid, ok: bool, reply: Reply)
    requires !s.raised && Stands(s, At(s, t)) && At(s, t).Unbinding?
    ensures var s' := Advance(s, t, ok, reply); !s'.raised && Stands(s', At(s', t))
  {
    FollowOne(s.log, Unbound(s.conn.value));
  }

  lemma AdvanceStands(s: Client, t: Tid, ok: bool, reply: Reply)
    requires !s.raised && At(s, t) != Idle && Stands(s, At(s, t))
    ensures var s' := Advance(s, t, ok, reply); !s'.raised && Stands(s', At(s', t))
  {
    match At(s, t)
    case Connecting => ConnectStands(s, t, ok, reply);
    case Binding => ConnectStands(s, t, ok, reply);
    case Querying(_) => QueryStands(s, t, ok, reply);
    case Unbinding(_) => UnbindStands(s, t, ok, reply);
    case _ =>
  }

  lemma OthersStay(n: nat, m: nat, s: Client, l: Label)
    requires Enabled(n, m, s, l)
    ensures forall t: Tid | t != l.t :: At(Step(n, m, s, l), t) == At(s, t)
  {
  }

  lemma StepInv(n: nat, m: nat, s: Client, l: Label)
    requires Inv(s) && OneAtWork(s) && Enabled(n, m, s, l) && OneAtWork(Step(n, m, s, l))
    ensures Inv(Step(n, m, s, l))
  {
    var s' := Step(n, m, s, l);
    OthersStay(n, m, s, l);
    if l.Go? {
      AdvanceStands(s, l.t, l.ok, l.reply);
      assert forall t: Tid | t != l.t :: At(s, t) == Idle;
    } else {
      assert At(s', l.t) != Idle;
      assert forall t: Tid | t != l.t :: At(s', t) == Idle;
      assert forall t: Tid :: At(s, t) == Idle;
    }
  }

  lemma {:induction false} RunInv(up: bool, n: nat, m: nat, labels: seq<Label>)
    requires RunFrom(up, n, m, labels).Some? && CallsApart(up, n, m, labels)
    ensures Inv(RunFrom(up, n, m, labels).value)
  {
    if labels == [] {
      LoadedInv(up);
    } else {
      var init := labels[..|labels| - 1];
      assert forall k | 0 <= k <= |init| :: init[..k] == labels[..k];
      assert labels[..|labels|] == labels;
      RunInv(up, n, m, init);
      assert OneAtWork(RunFrom(up, n, m, labels[..|init|]).value);
      assert OneAtWork(RunFrom(up, n, m, labels[..|labels|]).value);
      StepInv(n, m, RunFrom(up, n, m, init).value, labels[|labels| - 1]);
    }
  }

  lemma NotViolated(s: Client)
    requires Inv(s) && OneAtWork(s)
    ensures Follow(s.log) != Violation
  {
    if t: Tid :| At(s, t) != Idle {
      assert Stands(s, At(s, t));
    }
  }

  /** Any number of threads, whose calls do not overlap: nothing raises, and the log is safe. */
  lemma ApartIsSafe(up: bool, n: nat, m: nat, labels: seq<Label>)
    requires RunFrom(up, n, m, labels).Some? && CallsApart(up, n, m, labels)
    ensures Safe(RunFrom(up, n, m, labels).value)
  {
    RunInv(up, n, m, labels);
    assert labels[..|labels|] == labels;
    NotViolated(RunFrom(up, n, m, labels).value);
    FollowedLogSafe(RunFrom(up, n, m, labels).value.log);
  }

  // ---------- Which threads are safe together ----------

  /** Searching threads at work hold the lock; the others that are at work close. */
  predicate IsSearching(pc: Pc) {
    match pc
    case Idle => false
    case CloseStarts => false
    case Unbinding(back) => back != ToIdle
    case Clearing(back) => back != ToIdle
    case _ => true
  }

  ghost predicate Placed(n: nat, m: nat, s: Client) {
    && (forall t: Tid | IsSearching(At(s, t)) :: s.lock == Some(t) && t < n)
    && (forall t: Tid | At(s, t) != Idle && !IsSearching(At(s, t)) :: n <= t < n + m)
  }

  lemma {:induction false} RunPlaced(up: bool, n: nat, m: nat, labels: seq<Label>)
    requires RunFrom(up, n, m, labels).Some?
    ensures Placed(n, m, RunFrom(up, n, m, labels).value)
  {
    if labels != [] {
      var init, l := labels[..|labels| - 1], labels[|labels| - 1];
      RunPlaced(up, n, m, init);
      OthersStay(n, m, RunFrom(up, n, m, init).value, l);
    }
  }

  /** With no closing thread the lock keeps the searches apart; one closing thread without searches is alone. */
  lemma FewAreApart(up: bool, n: nat, m: nat, labels: seq<Label>)
    requires RunFrom(up, n, m, labels).Some? && (m == 0 || (n == 0 && m == 1))
    ensures CallsApart(up, n, m, labels)
  {
    forall k | 0 <= k <= |labels| && RunFrom(up, n, m, labels[..k]).Some?
      ensures OneAtWork(RunFrom(up, n, m, labels[..k]).value)
    {
      RunPlaced(up, n, m, labels[..k]);
    }
  }

  lemma Then(n: nat, m: nat, labels: seq<Label>, s: Client, l: Label) returns (longer: seq<Label>, s': Client)
    requires RunFrom(true, n, m, labels) == Some(s) && Enabled(n, m, s, l)
    ensures s' == Step(n, m, s, l) && RunFrom(true, n, m, longer) == Some(s')
  {
    longer, s' := labels + [l], Step(n, m, s, l);
    assert longer[..|labels|] == labels;
  }

  lemma UnboundTwice(log: seq<Event>, c: nat)
    requires |log| >= 2 && log[|log| - 2] == Unbound(c) && log[|log| - 1] == Unbound(c)
    ensures !SafeLog(log)
  {
    var i, j := |log| - 2, |log| - 1;
    assert log[i].Unbound? && log[j].Unbound? && log[i].conn == log[j].conn;
  }

  /** Two threads about to unbind the same connection. */
  lemma BothUnbind(n: nat, m: nat, labels: seq<Label>, s: Client, t: Tid, t': Tid) returns (longer: seq<Label>)
    requires RunFrom(true, n, m, labels) == Some(s) && s.conn.Some?
    requires t != t' && At(s, t).Unbinding? && At(s, t').Unbinding?
    ensures RunFrom(true, n, m, longer).Some? && !Safe(RunFrom(true, n, m, longer).value)
  {
    var c, s1, s2 := s.conn.value, s, s;
    longer, s1 := Then(n, m, labels, s, Go(t, true, Timeout));
    assert s1.log == s.log + [Unbound(c)];
    longer, s2 := Then(n, m, longer, s1, Go(t', true, Timeout));
    assert s2.log == s.log + [Unbound(c)] + [Unbound(c)];
    UnboundTwice(s2.log, c);
  }

  /** A closing thread that has seen the connection of `load`. */
  lemma AboutToClose(n: nat, m: nat, labels: seq<Label>, s: Client, t: Tid) returns (longer: seq<Label>, s': Client)
    requires RunFrom(true, n, m, labels) == Some(s) && s.conn.Some?
    requires n <= t < n + m && At(s, t) == Idle
    ensures RunFrom(true, n, m, longer) == Some(s')
    ensures s'.conn == s.conn && s'.lock == s.lock && s'.threads == s.threads[t := Unbinding(ToIdle)]
  {
    longer, s' := Then(n, m, labels, s, BeginClose(t));
    longer, s' := Then(n, m, longer, s', Go(t, true, Timeout));
  }

  /** The plugin is closed while the query of a search fails: both unbind the connection. */
  lemma CloseDuringSearch(n: nat, m: nat) returns (labels: seq<Label>)
    requires n >= 1 && m >= 1
    ensures RunFrom(true, n, m, labels).Some? && !Safe(RunFrom(true, n, m, labels).value)
  {
    var s;
    labels, s := AboutToClose(n, m, [], Loaded(true), n);
    labels, s := Then(n, m, labels, s, BeginSearch(0));
    labels, s := Then(n, m, labels, s, Go(0, true, Timeout));
    labels, s := Then(n, m, labels, s, Go(0, true, OtherError));
    labels := BothUnbind(n, m, labels, s, 0, n);
  }

  /** Two closes at once: both unbind. */
  lemma CloseDuringClose(n: nat, m: nat) returns (labels: seq<Label>)
    requires m >= 2
    ensures RunFrom(true, n, m, labels).Some? && !Safe(RunFrom(true, n, m, labels).value)
  {
    var s;
    labels, s := AboutToClose(n, m, [], Loaded(true), n);
    labels, s := AboutToClose(n, m, labels, s, n + 1);
    labels := BothUnbind(n, m, labels, s, n, n + 1);
  }

  /**
   The client is safe in every schedule of `n` searching and `m` closing threads if and only if nobody closes, or
   one thread closes and nobody searches.
   */
  lemma AlwaysSafeIff(n: nat, m: nat)
    ensures AlwaysSafe(n, m) <==> m == 0 || (n == 0 && m == 1)
  {
    if m == 0 || (n == 0 && m == 1) {
      forall up, labels | RunFrom(up, n, m, labels).Some? ensures Safe(RunFrom(up, n, m, labels).value) {
        FewAreApart(up, n, m, labels);
        ApartIsSafe(up, n, m, labels);
      }
    } else if m >= 2 {
      var labels := CloseDuringClose(n, m);
    } else {
      var labels := CloseDuringSearch(n, m);
    }
  }
}
