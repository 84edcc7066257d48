/**
 The reconnecting client of an LDAP source, `_LDAPClient`, against an adversarial server:
 the outcome of every bind and every query is chosen freely.

 Every exchange with the server is recorded in a log, and `Session` is the protocol the
 log has to follow.  That `initialize` and `unbind_s` themselves do not fail is assumed.
 */
module LdapClient {
  import opened Wrappers

  type Entries = seq<string>

  datatype Reply = Answer(entries: Entries) | FilterError | NoSuchObject | Timeout | OtherError

  datatype Event =
    | Opened(conn: nat)
    | Bound(conn: nat, ok: bool)
    | Queried(conn: nat, reply: Reply)
    | Unbound(conn: nat)

  /** The server's choices: what happens to a bind or a query made as the n-th event. */
  datatype Server = Server(bind: nat -> bool, reply: nat -> Reply)

  datatype State = State(conn: Option<nat>, log: seq<Event>)

  function Results(reply: Reply): Entries {
    if reply.Answer? then reply.entries else []
  }

  // ---------- The client's steps on its state ----------

  function Opens(log: seq<Event>): nat {
    if log == [] then 0 else Opens(log[..|log| - 1]) + (if log[|log| - 1].Opened? then 1 else 0)
  }

  function TearDown(s: State): State
    requires s.conn.Some?
  {
    State(None, s.log + [Unbound(s.conn.value)])
  }

  function Connect(s: State, server: Server): State
    requires s.conn.None?
  {
    var c := Opens(s.log);
    var started := s.log + [Opened(c)];
    var ok := server.bind(|started|);
    var bound := State(Some(c), started + [Bound(c, ok)]);
    if ok then bound else TearDown(bound)
  }

  function Query(s: State, server: Server): (State, Entries)
    requires s.conn.Some?
  {
    var reply := server.reply(|s.log|);
    var asked := s.(log := s.log + [Queried(s.conn.value, reply)]);
    (if reply == OtherError then TearDown(asked) else asked, Results(reply))
  }

  /** Set up, and query once when the bind went through. */
  function Attempt(s: State, server: Server): (State, Entries)
    requires s.conn.None?
  {
    var s0 := Connect(s, server);
    if s0.conn.Some? then Query(s0, server) else (s0, [])
  }

  function Search(s: State, server: Server): (State, Entries) {
    if s.conn.None? then Attempt(s, server)
    else
      var (s1, results) := Query(s, server);
      if s1.conn.Some? then (s1, results) else Attempt(s1, server)
  }

  // ---------- What a search answers ----------

  /** The last query in these events. */
  predicate IsLastQuery(sent: seq<Event>, i: nat) {
    i < |sent| && sent[i].Queried? && forall k | i < k < |sent| :: !sent[k].Queried?
  }

  predicate AsksNothing(sent: seq<Event>) {
    forall i | 0 <= i < |sent| :: !sent[i].Queried?
  }

  /** The entries of the last reply, none when that is an error or when nothing was asked. */
  ghost predicate AnswersLastQuery(sent: seq<Event>, results: Entries) {
    && (AsksNothing(sent) ==> results == [])
    && (forall i: nat | IsLastQuery(sent, i) ::
          sent[i].reply == Answer(results) || (!sent[i].reply.Answer? && results == []))
  }

  lemma AnswersThen(a: seq<Event>, b: seq<Event>, first: Entries, results: Entries)
    requires AnswersLastQuery(a, first) && AnswersLastQuery(b, results)
    requires AsksNothing(b) ==> first == []
    ensures AnswersLastQuery(a + b, results)
  {
    var sent := a + b;
    forall i: nat | IsLastQuery(sent, i)
      ensures sent[i].reply == Answer(results) || (!sent[i].reply.Answer? && results == [])
    {
      assert forall k | 0 <= k < |b| :: b[k] == sent[|a| + k];
      if i < |a| {
        assert AsksNothing(b);
        assert forall k | 0 <= k < |a| :: a[k] == sent[k];
        assert IsLastQuery(a, i);
      } else {
        assert IsLastQuery(b, i - |a|);
      }
    }
    assert AsksNothing(sent) ==> AsksNothing(b) by {
      assert forall k | 0 <= k < |b| :: b[k] == sent[|a| + k];
    }
  }

  lemma ConnectAnswers(s: State, server: Server) returns (sent: seq<Event>)
    requires s.conn.None?
    ensures Connect(s, server).log == s.log + sent && AsksNothing(sent)
  {
    var c, ok := Opens(s.log), server.bind(|s.log| + 1);
    sent := [Opened(c)] + [Bound(c, ok)] + (if ok then [] else [Unbound(c)]);
  }

  lemma QueryAnswers(s: State, server: Server) returns (sent: seq<Event>)
    requires s.conn.Some?
    ensures Query(s, server).0.log == s.log + sent && AnswersLastQuery(sent, Query(s, server).1)
    ensures sent != [] && sent[0] == Queried(s.conn.value, server.reply(|s.log|)) && AsksNothing(sent[1..])
    ensures Query(s, server).0.conn.None? ==> Query(s, server).1 == []
    ensures Query(s, server).0.conn.Some? ==> |sent| == 1
  {
    var c, reply := s.conn.value, server.reply(|s.log|);
    sent := [Queried(c, reply)] + (if reply == OtherError then [Unbound(c)] else []);
    assert sent[0].Queried? && !AsksNothing(sent);
  }

  lemma AttemptAnswers(s: State, server: Server) returns (sent: seq<Event>)
    requires s.conn.None?
    ensures Attempt(s, server).0.log == s.log + sent && AnswersLastQuery(sent, Attempt(s, server).1)
  {
    sent := ConnectAnswers(s, server);
    var s0 := Connect(s, server);
    if s0.conn.Some? {
      var asked := QueryAnswers(s0, server);
      AnswersThen(sent, asked, [], Query(s0, server).1);
      sent := sent + asked;
    }
  }

  /** Whatever the server does, a search gives the entries of the last reply it got, and no others. */
  lemma SearchAnswers(s: State, server: Server) returns (sent: seq<Event>)
    ensures Search(s, server).0.log == s.log + sent && AnswersLastQuery(sent, Search(s, server).1)
  {
    if s.conn.None? {
      sent := AttemptAnswers(s, server);
    } else {
      sent := QueryAnswers(s, server);
      var s1 := Query(s, server).0;
      if s1.conn.None? {
        var again := AttemptAnswers(s1, server);
        AnswersThen(sent, again, [], Attempt(s1, server).1);
        sent := sent + again;
      }
    }
  }

  /** A connected client whose first query is answered gives that answer, with one query and no bind. */
  lemma HealthyConnectionAnswers(s: State, server: Server, entries: Entries)
    requires s.conn.Some? && server.reply(|s.log|) == Answer(entries)
    ensures Search(s, server) == (State(s.conn, s.log + [Queried(s.conn.value, Answer(entries))]), entries)
  {
    var sent := SearchAnswers(s, server);
  }

  class LdapClient {
    const server: Server
    var ldapObj: Option<nat>
    var log: seq<Event>

    ghost function Current(): State
      reads this
    {
      State(ldapObj, log)
    }

    constructor (server: Server)
      ensures this.server == server && Current() == State(None, [])
    {
      this.server := server;
      ldapObj := None;
      log := [];
    }

    predicate IsSetUp()
      reads this
    {
      ldapObj.Some?
    }

    method TearDownConnection()
      requires IsSetUp()
      modifies this
      ensures Current() == TearDown(old(Current()))
    {
      log := log + [Unbound(ldapObj.value)];
      ldapObj := None;
    }

    method Bind()
      requires IsSetUp()
      modifies this
      ensures var ok := server.bind(|old(log)|);
              var bound := State(old(ldapObj), old(log) + [Bound(old(ldapObj).value, ok)]);
              Current() == if ok then bound else TearDown(bound)
    {
      var ok := server.bind(|log|);
      log := log + [Bound(ldapObj.value, ok)];
      if !ok {
        TearDownConnection();
      }
    }

    method ConnectAndBind()
      requires !IsSetUp()
      modifies this
      ensures Current() == Connect(old(Current()), server)
    {
      var c := Opens(log);
      log := log + [Opened(c)];
      ldapObj := Some(c);
      Bind();
    }

    method SetUpClient()
      modifies this
      ensures Current() == if old(IsSetUp()) then old(Current()) else Connect(old(Current()), server)
    {
      if !IsSetUp() {
        ConnectAndBind();
      }
    }

    method Close()
      modifies this
      ensures Current() == if old(IsSetUp()) then TearDown(old(Current())) else old(Current())
    {
      if IsSetUp() {
        TearDownConnection();
      }
    }

    method QueryOnce() returns (results: Entries)
      requires IsSetUp()
      modifies this
      ensures (Current(), results) == Query(old(Current()), server)
    {
      results := [];
      var reply := server.reply(|log|);
      log := log + [Queried(ldapObj.value, reply)];
      match reply
      case Answer(entries) => results := entries;
      case FilterError =>
      case NoSuchObject =>
      case Timeout =>
      case OtherError => TearDownConnection();
    }

    method SearchDirectory() returns (results: Entries)
      modifies this
      ensures (Current(), results) == Search(old(Current()), server)
      ensures |old(log)| <= |log| && log[..|old(log)|] == old(log) && AnswersLastQuery(log[|old(log)|..], results)
    {
      ghost var before := Current();
      ghost var sent := SearchAnswers(before, server);
      assert (before.log + sent)[|before.log|..] == sent;
      var retry := true;
      if !IsSetUp() {
        ConnectAndBind();
        if !IsSetUp() {
          return [];
        }
        retry := false;
      }
      results := QueryOnce();
      if !IsSetUp() && retry {
        ConnectAndBind();
        if !IsSetUp() {
          return [];
        }
        results := QueryOnce();
      }
    }
  }

  // ---------- The protocol ----------

  /** Where a log leaves the connection; a log that breaks the protocol is a violation. */
  datatype Session = Closed | Opening(conn: nat) | Ready(conn: nat) | Broken(conn: nat) | Violation

  function Next(session: Session, opens: nat, e: Event): Session {
    match e
    case Opened(c) => if session == Closed && c == opens then Opening(c) else Violation
    case Bound(c, ok) => if session != Opening(c) then Violation else if ok then Ready(c) else Broken(c)
    case Queried(c, reply) =>
      if session != Ready(c) then Violation else if reply == OtherError then Broken(c) else Ready(c)
    case Unbound(c) => if session == Ready(c) || session == Broken(c) then Closed else Violation
  }

  function Follow(log: seq<Event>): Session {
    if log == [] then Closed
    else Next(Follow(log[..|log| - 1]), Opens(log[..|log| - 1]), log[|log| - 1])
  }

  predicate Consistent(s: State) {
    Follow(s.log) == if s.conn.Some? then Ready(s.conn.value) else Closed
  }

  lemma FollowOne(log: seq<Event>, e: Event)
    ensures Follow(log + [e]) == Next(Follow(log), Opens(log), e)
    ensures Opens(log + [e]) == Opens(log) + (if e.Opened? then 1 else 0)
  {
    assert (log + [e])[..|log|] == log;
  }

  lemma AppendConsistent(s: State, e: Event, s': State)
    requires s'.log == s.log + [e]
    ensures Follow(s'.log) == Next(Follow(s.log), Opens(s.log), e)
  {
    FollowOne(s.log, e);
  }

  lemma ConnectConsistent(s: State, server: Server)
    requires Consistent(s) && s.conn.None?
    ensures Consistent(Connect(s, server))
  {
    var c := Opens(s.log);
    var s1 := State(Some(c), s.log + [Opened(c)]);
    var ok := server.bind(|s1.log|);
    var s2 := State(Some(c), s1.log + [Bound(c, ok)]);
    AppendConsistent(s, Opened(c), s1);
    AppendConsistent(s1, Bound(c, ok), s2);
    if !ok {
      AppendConsistent(s2, Unbound(c), TearDown(s2));
    }
  }

  lemma QueryConsistent(s: State, server: Server)
    requires Consistent(s) && s.conn.Some?
    ensures Consistent(Query(s, server).0)
    ensures var (s', results) := Query(s, server);
            results != [] ==> s'.conn.Some? && s'.log == s.log + [Queried(s.conn.value, Answer(results))]
  {
    var e := Queried(s.conn.value, server.reply(|s.log|));
    FollowOne(s.log, e);
    FollowOne(s.log + [e], Unbound(s.conn.value));
  }

  // ---------- One search ----------

  function Binds(log: seq<Event>): nat {
    if log == [] then 0 else (if log[0].Bound? then 1 else 0) + Binds(log[1..])
  }

  function Queries(log: seq<Event>): nat {
    if log == [] then 0 else (if log[0].Queried? then 1 else 0) + Queries(log[1..])
  }

  lemma {:induction false} CountsConcat(a: seq<Event>, b: seq<Event>)
    ensures Binds(a + b) == Binds(a) + Binds(b) && Queries(a + b) == Queries(a) + Queries(b)
  {
    if a == [] {
      assert a + b == b;
    } else {
      assert (a + b)[1..] == a[1..] + b;
      CountsConcat(a[1..], b);
    }
  }

  lemma ConnectTraffic(s: State, server: Server) returns (sent: seq<Event>)
    requires s.conn.None?
    ensures Connect(s, server).log == s.log + sent && Binds(sent) == 1 && Queries(sent) == 0
  {
    var c := Opens(s.log);
    var ok := server.bind(|s.log| + 1);
    sent := [Opened(c)] + ([Bound(c, ok)] + (if ok then [] else [Unbound(c)]));
    CountsConcat([Opened(c)], [Bound(c, ok)] + (if ok then [] else [Unbound(c)]));
    CountsConcat([Bound(c, ok)], if ok then [] else [Unbound(c)]);
  }

  lemma QueryTraffic(s: State, server: Server) returns (sent: seq<Event>)
    requires s.conn.Some?
    ensures Query(s, server).0.log == s.log + sent && Binds(sent) == 0 && Queries(sent) == 1
  {
    var c, reply := s.conn.value, server.reply(|s.log|);
    sent := [Queried(c, reply)] + (if reply == OtherError then [Unbound(c)] else []);
    CountsConcat([Queried(c, reply)], if reply == OtherError then [Unbound(c)] else []);
  }

  lemma Joined(s0: State, s1: State, s2: State, a: seq<Event>, b: seq<Event>) returns (both: seq<Event>)
    requires s1.log == s0.log + a && s2.log == s1.log + b
    ensures s2.log == s0.log + both
    ensures Binds(both) == Binds(a) + Binds(b) && Queries(both) == Queries(a) + Queries(b)
  {
    both := a + b;
    CountsConcat(a, b);
  }

  predicate AnsweredBy(s: State, results: Entries) {
    results != [] ==>
      s.conn.Some? && s.log != [] && s.log[|s.log| - 1] == Queried(s.conn.value, Answer(results))
  }

  lemma AttemptConsistent(s: State, server: Server)
    requires Consistent(s) && s.conn.None?
    ensures Consistent(Attempt(s, server).0) && AnsweredBy(Attempt(s, server).0, Attempt(s, server).1)
  {
    ConnectConsistent(s, server);
    var s0 := Connect(s, server);
    if s0.conn.Some? {
      QueryConsistent(s0, server);
    }
  }

  lemma AttemptTraffic(s: State, server: Server) returns (sent: seq<Event>)
    requires s.conn.None?
    ensures Attempt(s, server).0.log == s.log + sent && Binds(sent) == 1
    ensures Queries(sent) == (if server.bind(|s.log| + 1) then 1 else 0)
  {
    sent := ConnectTraffic(s, server);
    var s0 := Connect(s, server);
    if s0.conn.Some? {
      var asked := QueryTraffic(s0, server);
      sent := Joined(s, s0, Query(s0, server).0, sent, asked);
    }
  }

  lemma SearchConsistent(s: State, server: Server)
    requires Consistent(s)
    ensures Consistent(Search(s, server).0) && AnsweredBy(Search(s, server).0, Search(s, server).1)
  {
    if s.conn.None? {
      AttemptConsistent(s, server);
    } else {
      QueryConsistent(s, server);
      if Query(s, server).0.conn.None? {
        AttemptConsistent(Query(s, server).0, server);
      }
    }
  }

  /**
   A search makes at most one bind and two queries, the second one only when the client was
   connected, lost its connection on the first and bound again; whatever it returns is the
   answer to the last event it logged, on a connection that it still holds.
   */
  lemma SearchTraffic(s: State, server: Server) returns (sent: seq<Event>)
    requires Consistent(s)
    ensures var (s', results) := Search(s, server);
            && s'.log == s.log + sent && AnsweredBy(s', results)
            && Binds(sent) == (if s.conn.None? || server.reply(|s.log|) == OtherError then 1 else 0)
            && Queries(sent) <= 2
            && (Queries(sent) == 2 <==>
                  s.conn.Some? && server.reply(|s.log|) == OtherError && server.bind(|s.log| + 3))
  {
    SearchConsistent(s, server);
    if s.conn.None? {
      sent := AttemptTraffic(s, server);
    } else {
      sent := QueryTraffic(s, server);
      var s1 := Query(s, server).0;
      if s1.conn.None? {
        assert |s1.log| == |s.log| + 2;
        var again := AttemptTraffic(s1, server);
        sent := Joined(s, s1, Search(s, server).0, sent, again);
      }
    }
  }

  /** A connection that went stale is replaced within the same search, which then answers. */
  lemma StaleConnectionRecovers(s: State, server: Server, entries: Entries)
    requires s.conn.Some? && server.reply(|s.log|) == OtherError
    requires server.bind(|s.log| + 3) && server.reply(|s.log| + 4) == Answer(entries)
    ensures Search(s, server).1 == entries && Search(s, server).0.conn.Some?
  {
    var s1 := Query(s, server).0;
    assert |s1.log| == |s.log| + 2;
    var s2 := Connect(s1, server);
    assert |s2.log| == |s.log| + 4;
  }

  // ---------- Every run ----------

  datatype Call = CallSetUp | CallSearch | CallClose

  function Step(s: State, call: Call, server: Server): State {
    match call
    case CallSetUp => if s.conn.Some? then s else Connect(s, server)
    case CallSearch => Search(s, server).0
    case CallClose => if s.conn.Some? then TearDown(s) else s
  }

  function Run(calls: seq<Call>, server: Server): State {
    if calls == [] then State(None, [])
    else Step(Run(calls[..|calls| - 1], server), calls[|calls| - 1], server)
  }

  lemma {:induction false} RunConsistent(calls: seq<Call>, server: Server)
    ensures Consistent(Run(calls, server))
  {
    if calls != [] {
      var s := Run(calls[..|calls| - 1], server);
      RunConsistent(calls[..|calls| - 1], server);
      match calls[|calls| - 1]
      case CallSetUp =>
        if s.conn.None? {
          ConnectConsistent(s, server);
        }
      case CallSearch =>
        SearchConsistent(s, server);
      case CallClose =>
        if s.conn.Some? {
          FollowOne(s.log, Unbound(s.conn.value));
        }
    }
  }

  function Unbinds(log: seq<Event>): nat {
    if log == [] then 0 else Unbinds(log[..|log| - 1]) + (if log[|log| - 1].Unbound? then 1 else 0)
  }

  predicate Live(log: seq<Event>, c: nat) {
    Bound(c, true) in log && Unbound(c) !in log
  }

  predicate SafeLog(log: seq<Event>) {
    // No connection is unbound twice.
    && (forall i, j | 0 <= i < j < |log| :: log[i].Unbound? && log[j].Unbound? ==> log[i].conn != log[j].conn)
    // Every query goes to a connection that was bound before and is not unbound yet.
    && (forall i | 0 <= i < |log| && log[i].Queried? :: Live(log[..i], log[i].conn))
  }

  /** Connections are numbered as they are opened, and only numbered ones are unbound. */
  lemma {:induction false} FollowedLogBalanced(log: seq<Event>)
    requires Follow(log) != Violation
    ensures Opens(log) == Unbinds(log) + (if Follow(log) == Closed then 0 else 1)
    ensures Follow(log) != Closed ==> Follow(log).conn == Opens(log) - 1
    ensures forall c: nat | Unbound(c) in log :: c < Opens(log) && (Follow(log) != Closed ==> c != Follow(log).conn)
  {
    if log != [] {
      var init, e := log[..|log| - 1], log[|log| - 1];
      FollowedLogBalanced(init);
      assert log == init + [e];
      forall c: nat | Unbound(c) in log ensures c < Opens(log) && (Follow(log) != Closed ==> c != Follow(log).conn) {
        assert Unbound(c) in init || e == Unbound(c);
      }
    }
  }

  lemma {:induction false} ReadyIsBound(log: seq<Event>)
    requires Follow(log).Ready?
    ensures Bound(Follow(log).conn, true) in log
  {
    if log != [] {
      var init, e := log[..|log| - 1], log[|log| - 1];
      assert log == init + [e];
      if !e.Bound? {
        ReadyIsBound(init);
      }
    }
  }

  /** Any log that follows the protocol is safe. */
  lemma {:induction false} FollowedLogSafe(log: seq<Event>)
    requires Follow(log) != Violation
    ensures SafeLog(log)
  {
    if log != [] {
      var init, e := log[..|log| - 1], log[|log| - 1];
      FollowedLogSafe(init);
      FollowedLogBalanced(init);
      if Follow(init).Ready? {
        ReadyIsBound(init);
      }
      forall i | 0 <= i < |log| && log[i].Queried? ensures Live(log[..i], log[i].conn) {
        if i < |init| {
          assert log[..i] == init[..i] && log[i] == init[i];
        }
      }
      forall i, j | 0 <= i < j < |log| && log[i].Unbound? && log[j].Unbound? ensures log[i].conn != log[j].conn {
        assert log[i] == init[i] && init[i] in init;
        assert j < |init| ==> log[j] == init[j];
      }
    }
  }

  /**
   In every run of set-ups, searches and closings, whatever the server answers: the
   connections opened and not unbound are one when the client is set up and none otherwise,
   no connection is unbound twice, and every query goes to a bound, open connection.
   */
  lemma RunSafe(calls: seq<Call>, server: Server)
    ensures var s := Run(calls, server);
            SafeLog(s.log) && Opens(s.log) == Unbinds(s.log) + (if s.conn.Some? then 1 else 0)
  {
    RunConsistent(calls, server);
    FollowedLogSafe(Run(calls, server).log);
    FollowedLogBalanced(Run(calls, server).log);
  }
}
