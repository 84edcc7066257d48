/**
 Reverse lookup: one task per source on a thread pool, results merged as they complete.

 The worker threads and the clock are adversaries: between any two steps of the request
 any number of tasks may start and finish, any finished task may be the next one handed
 over, and the time may run out at any moment.
 */
module ReverseService {
  import opened FirstOccurrences
  import opened Wrappers

  type Exten = string
  type Contact = string
  type Answer = map<Exten, Contact>

  /** What calling a source does. */
  datatype Run<+R> = Raises | Returns(result: Option<R>)

  /** `RaiseStopper.execute` with None as the default. */
  function Execute<R>(run: Run<R>): Option<R> {
    match run
    case Raises => None
    case Returns(result) => result
  }

  /** The source raised, or found nothing. */
  predicate IsSilent<R(==)>(run: Run<R>) {
    run == Raises || run == Returns(None)
  }

  datatype Status = Queued | Running | Finished | Cancelled

  predicate IsDone(s: Status) {
    s == Finished || s == Cancelled
  }

  /** What the workers alone can make of a task. */
  predicate Advances(a: Status, b: Status) {
    a == b || (a == Queued && (b == Running || b == Finished)) || (a == Running && b == Finished)
  }

  datatype Wait = Next(i: nat) | Exhausted | TimedOut

  predicate InRange(order: seq<nat>, n: nat) {
    forall p | 0 <= p < |order| :: order[p] < n
  }

  class Request<R> {
    const runs: seq<Run<R>>
    const futures: array<Status>

    predicate Valid()
    {
      futures.Length == |runs|
    }

    constructor (runs: seq<Run<R>>)
      ensures Valid() && this.runs == runs && fresh(futures)
      ensures forall i | 0 <= i < futures.Length :: futures[i] == Queued
    {
      this.runs := runs;
      futures := new Status[|runs|](_ => Queued);
    }

    /** The adversary: any tasks start, any running tasks finish. */
    method WorkersRun()
      modifies futures
      ensures forall i | 0 <= i < futures.Length :: Advances(old(futures[i]), futures[i])
    {
      for k := 0 to futures.Length
        invariant forall i | 0 <= i < futures.Length :: Advances(old(futures[i]), futures[i])
      {
        if * {
          if futures[k] == Queued {
            futures[k] := Running;
          }
        }
        if * {
          if futures[k] == Running {
            futures[k] := Finished;
          }
        }
      }
    }

    /** One step of `as_completed`: a finished task not handed over yet, the end, or the timeout. */
    method NextCompleted(yielded: set<nat>) returns (wait: Wait)
      requires Valid()
      modifies futures
      ensures forall i | 0 <= i < futures.Length :: Advances(old(futures[i]), futures[i])
      ensures wait.Next? ==> wait.i < |runs| && wait.i !in yielded && futures[wait.i] == Finished
      ensures wait.Exhausted? <==> forall i: nat | i < |runs| :: i in yielded
    {
      WorkersRun();
      if forall i: nat | i < |runs| :: i in yielded {
        return Exhausted;
      }
      if * {
        return TimedOut;
      }
      for k := 0 to |runs| {
        if k !in yielded && futures[k] == Finished {
          if * {
            return Next(k);
          }
        }
      }
      return TimedOut;
    }

    /** `future.cancel()`: only a task that no worker has taken can be cancelled. */
    method Cancel(k: nat) returns (cancelled: bool)
      requires k < futures.Length
      modifies futures
      ensures cancelled <==> old(futures[k]) == Queued || old(futures[k]) == Cancelled
      ensures futures[k] == if cancelled then Cancelled else old(futures[k])
      ensures forall i | 0 <= i < futures.Length && i != k :: futures[i] == old(futures[i])
    {
      cancelled := futures[k] == Queued || futures[k] == Cancelled;
      if cancelled {
        futures[k] := Cancelled;
      }
    }

    /** `_cancel_pending`: workers may take a task between its `done()` test and its `cancel()`. */
    method CancelPending()
      modifies futures
      ensures forall i | 0 <= i < futures.Length :: futures[i] != Queued
      ensures forall i | 0 <= i < futures.Length ::
        Advances(old(futures[i]), futures[i]) || (futures[i] == Cancelled && old(futures[i]) == Queued)
    {
      var pending: seq<nat> := [];
      for k := 0 to futures.Length
        invariant forall i | 0 <= i < futures.Length :: Advances(old(futures[i]), futures[i])
        invariant InRange(pending, futures.Length)
        invariant forall i | 0 <= i < k && futures[i] == Queued :: i in pending
      {
        WorkersRun();
        if !IsDone(futures[k]) {
          pending := pending + [k];
        }
      }
      for j := 0 to |pending|
        invariant InRange(pending, futures.Length)
        invariant forall i | 0 <= i < futures.Length ::
          Advances(old(futures[i]), futures[i]) || (futures[i] == Cancelled && old(futures[i]) == Queued)
        invariant forall i | 0 <= i < futures.Length && futures[i] == Queued :: i in pending[j..]
      {
        WorkersRun();
        assert pending[j..] == [pending[j]] + pending[j + 1..];
        var _ := Cancel(pending[j]);
      }
    }
  }

  // ---------- Merging answers ----------

  type Results = map<Exten, Option<Contact>>

  function Initial(extens: seq<Exten>): Results {
    map e | e in extens :: None
  }

  /** `results.update(result)` for a non-empty answer. */
  function MergeOne(results: Results, answer: Option<Answer>): Results {
    if answer.None? then results else results + map k | k in answer.value :: Some(answer.value[k])
  }

  function Merge(extens: seq<Exten>, runs: seq<Run<Answer>>, order: seq<nat>): Results
    requires InRange(order, |runs|)
  {
    if order == [] then Initial(extens)
    else MergeOne(Merge(extens, runs, order[..|order| - 1]), Execute(runs[order[|order| - 1]]))
  }

  predicate AllAnswered(results: Results) {
    forall k | k in results :: results[k].Some?
  }

  function Answered(results: Results): set<Exten> {
    set k | k in results && results[k].Some?
  }

  function Values(keys: seq<Exten>, results: Results): seq<Option<Contact>>
    requires forall k | k in keys :: k in results
  {
    seq(|keys|, i requires 0 <= i < |keys| => assert keys[i] in keys; results[keys[i]])
  }

  /** Every source answers only for the extensions it was asked about. */
  predicate AnswersWhatIsAsked(runs: seq<Run<Answer>>, extens: seq<Exten>) {
    forall i | 0 <= i < |runs| && runs[i].Returns? && runs[i].result.Some? ::
      forall k | k in runs[i].result.value :: k in extens
  }

  /** The source returned an answer for the extension. */
  predicate Knows(run: Run<Answer>, k: Exten) {
    run.Returns? && run.result.Some? && k in run.result.value
  }

  /** What the last source of the order to know the extension says of it; nothing when none does. */
  predicate IsAnswerFor(runs: seq<Run<Answer>>, order: seq<nat>, k: Exten, answer: Option<Contact>)
    requires InRange(order, |runs|)
  {
    match answer
    case None => forall p | 0 <= p < |order| :: !Knows(runs[order[p]], k)
    case Some(contact) =>
      exists p | 0 <= p < |order| ::
        && Knows(runs[order[p]], k) && runs[order[p]].result.value[k] == contact
        && forall q | p < q < |order| :: !Knows(runs[order[q]], k)
  }

  /** A sequence of different sources. */
  predicate IsOrder(order: seq<nat>, n: nat) {
    && InRange(order, n)
    && (forall i, j | 0 <= i < j < |order| :: order[i] != order[j])
  }

  // ---------- Orders ----------

  function Below(n: nat): (r: set<nat>)
    ensures |r| == n && forall i: nat :: i in r <==> i < n
  {
    if n == 0 then {} else Below(n - 1) + {n - 1}
  }

  lemma OrderStep(order: seq<nat>, i: nat, n: nat)
    requires IsOrder(order, n) && i < n && i !in order
    ensures IsOrder(order + [i], n) && Elements(order + [i]) == Elements(order) + {i}
    ensures |order| < n
  {
    var longer := order + [i];
    assert forall x :: x in longer <==> x in order || x == i;
    assert IsOrder(longer, n);
    DistinctSize(longer);
    SubsetSize(Elements(longer), Below(n));
  }

  lemma Position(order: seq<nat>, i: nat) returns (p: nat)
    requires i in order
    ensures p < |order| && order[p] == i
  {
    p :| 0 <= p < |order| && order[p] == i;
  }

  /** An order is as long as there are sources only when it has them all. */
  lemma FullOrder(order: seq<nat>, n: nat)
    requires IsOrder(order, n) && |order| == n
    ensures forall i: nat | i < n :: i in order
  {
    DistinctSize(order);
    SubsetSize(Elements(order), Below(n));
    forall i: nat | i < n ensures i in order {
      assert i in Below(n);
      assert i in Elements(order);
    }
  }

  lemma AllYielded(order: seq<nat>, n: nat)
    requires IsOrder(order, n) && forall i: nat | i < n :: i in Elements(order)
    ensures |order| == n && forall i: nat | i < n :: i in order
  {
    DistinctSize(order);
    SubsetSize(Elements(order), Below(n));
    assert Elements(order) == Below(n);
    FullOrder(order, n);
  }

  predicate AllFinished(futures: array<Status>, order: seq<nat>)
    requires InRange(order, futures.Length)
    reads futures
  {
    forall p | 0 <= p < |order| :: futures[order[p]] == Finished
  }

  lemma AllDone(futures: array<Status>, order: seq<nat>)
    requires forall i: nat | i < futures.Length :: i in order
    requires InRange(order, futures.Length) && AllFinished(futures, order)
    ensures forall i | 0 <= i < futures.Length :: futures[i] == Finished
  {
    forall i: nat | i < futures.Length ensures futures[i] == Finished {
      var p := Position(order, i);
    }
  }

  /** Something was still missing before the last source of the order. */
  predicate StillOpenBefore(extens: seq<Exten>, runs: seq<Run<Answer>>, order: seq<nat>)
    requires InRange(order, |runs|)
  {
    order != [] ==> !AllAnswered(Merge(extens, runs, order[..|order| - 1]))
  }

  lemma MergeStep(extens: seq<Exten>, runs: seq<Run<Answer>>, order: seq<nat>, i: nat)
    requires InRange(order, |runs|) && i < |runs|
    ensures InRange(order + [i], |runs|)
    ensures Merge(extens, runs, order + [i]) == MergeOne(Merge(extens, runs, order), Execute(runs[i]))
    ensures StillOpenBefore(extens, runs, order + [i]) <==> !AllAnswered(Merge(extens, runs, order))
  {
    assert (order + [i])[..|order|] == order;
  }

  lemma StillOpenEarlier(extens: seq<Exten>, runs: seq<Run<Answer>>, order: seq<nat>)
    requires InRange(order, |runs|) && !AllAnswered(Merge(extens, runs, order))
    ensures StillOpenBefore(extens, runs, order)
  {
  }

  /** No shorter prefix of the order had answered everything. */
  predicate StopsInTime(extens: seq<Exten>, runs: seq<Run<Answer>>, order: seq<nat>)
    requires InRange(order, |runs|)
  {
    forall k | 0 <= k < |order| :: !AllAnswered(Merge(extens, runs, order[..k]))
  }

  lemma {:induction false} OpenBeforeLast(extens: seq<Exten>, runs: seq<Run<Answer>>, order: seq<nat>)
    requires InRange(order, |runs|) && StillOpenBefore(extens, runs, order)
    ensures StopsInTime(extens, runs, order)
  {
    if order != [] {
      var init := order[..|order| - 1];
      StillOpenEarlier(extens, runs, init);
      OpenBeforeLast(extens, runs, init);
      assert forall k | 0 <= k < |init| :: order[..k] == init[..k];
    }
  }

  // ---------- The schedule does not matter ----------

  /** The extensions some source of the order answers. */
  function Union(runs: seq<Run<Answer>>, order: seq<nat>): set<Exten>
    requires InRange(order, |runs|)
  {
    set p, k | 0 <= p < |order| && Execute(runs[order[p]]).Some? && k in Execute(runs[order[p]]).value :: k
  }

  function Everyone(runs: seq<Run<Answer>>): seq<nat> {
    seq(|runs|, i => i)
  }

  lemma InitialAnswered(extens: seq<Exten>)
    ensures Answered(Initial(extens)) == {}
    ensures extens != [] ==> !AllAnswered(Initial(extens))
  {
    if extens != [] {
      assert extens[0] in Initial(extens);
    }
  }

  lemma {:induction false} MergeAnswersUnion(extens: seq<Exten>, runs: seq<Run<Answer>>, order: seq<nat>)
    requires InRange(order, |runs|)
    ensures Answered(Merge(extens, runs, order)) == Union(runs, order)
  {
    if order == [] {
      InitialAnswered(extens);
    } else {
      var init, last := order[..|order| - 1], order[|order| - 1];
      assert order == init + [last];
      MergeAnswersUnion(extens, runs, init);
      var results, answer := Merge(extens, runs, init), Execute(runs[last]);
      var answered := if answer.Some? then answer.value.Keys else {};
      assert Answered(MergeOne(results, answer)) == Answered(results) + answered;
      assert Union(runs, order) == Union(runs, init) + answered;
    }
  }

  lemma {:induction false} MergeKeys(extens: seq<Exten>, runs: seq<Run<Answer>>, order: seq<nat>)
    requires AnswersWhatIsAsked(runs, extens) && InRange(order, |runs|)
    ensures Merge(extens, runs, order).Keys == (set e | e in extens)
  {
    if order != [] {
      MergeKeys(extens, runs, order[..|order| - 1]);
    }
  }

  /**
   Whatever the order of completion, and even when the request stops early, a lookup that
   does not time out answers exactly the extensions that some source answers.
   */
  lemma AnsweredWhateverTheSchedule(extens: seq<Exten>, runs: seq<Run<Answer>>, order: seq<nat>)
    requires AnswersWhatIsAsked(runs, extens) && IsOrder(order, |runs|)
    requires |order| == |runs| || AllAnswered(Merge(extens, runs, order))
    ensures Answered(Merge(extens, runs, order)) == Union(runs, Everyone(runs))
  {
    MergeAnswersUnion(extens, runs, order);
    MergeKeys(extens, runs, order);
    var everyone := Everyone(runs);
    forall k | k in Union(runs, order) ensures k in Union(runs, everyone) {
      var p :| 0 <= p < |order| && Execute(runs[order[p]]).Some? && k in Execute(runs[order[p]]).value;
      assert everyone[order[p]] == order[p];
    }
    forall k | k in Union(runs, everyone) ensures k in Union(runs, order) {
      var i :| 0 <= i < |runs| && Execute(runs[everyone[i]]).Some? && k in Execute(runs[everyone[i]]).value;
      if |order| == |runs| {
        FullOrder(order, |runs|);
        assert i in order;
      } else {
        assert k in Merge(extens, runs, order);
      }
    }
  }

  /** Every answer given, timed out or not, is what the last source of the order to know it said. */
  lemma {:induction false} AnswerComesFromASource(extens: seq<Exten>, runs: seq<Run<Answer>>, order: seq<nat>, k: Exten)
      returns (p: nat)
    requires InRange(order, |runs|)
    requires k in Answered(Merge(extens, runs, order))
    ensures p < |order|
    ensures var answer := Execute(runs[order[p]]);
            answer.Some? && k in answer.value && Merge(extens, runs, order)[k] == Some(answer.value[k])
    ensures forall q | p < q < |order| :: Execute(runs[order[q]]).Some? ==> k !in Execute(runs[order[q]]).value
  {
    if order == [] {
      InitialAnswered(extens);
      assert false;
    } else {
      var init, last := order[..|order| - 1], order[|order| - 1];
      var answer := Execute(runs[last]);
      if answer.Some? && k in answer.value {
        p := |order| - 1;
      } else {
        p := AnswerComesFromASource(extens, runs, init, k);
      }
    }
  }

  lemma MergeIsAnswer(extens: seq<Exten>, runs: seq<Run<Answer>>, order: seq<nat>, k: Exten)
    requires InRange(order, |runs|) && k in Merge(extens, runs, order)
    ensures IsAnswerFor(runs, order, k, Merge(extens, runs, order)[k])
  {
    MergeAnswersUnion(extens, runs, order);
    if Merge(extens, runs, order)[k].Some? {
      var p := AnswerComesFromASource(extens, runs, order, k);
      assert Knows(runs[order[p]], k);
    } else {
      assert k !in Union(runs, order);
    }
  }

  /** Answered extensions only grow as more sources complete. */
  lemma AnsweredGrows(extens: seq<Exten>, runs: seq<Run<Answer>>, order: seq<nat>, k: nat)
    requires k <= |order| && InRange(order, |runs|)
    ensures Answered(Merge(extens, runs, order[..k])) <= Answered(Merge(extens, runs, order))
  {
    MergeAnswersUnion(extens, runs, order[..k]);
    MergeAnswersUnion(extens, runs, order);
  }

  // ---------- The two lookups ----------

  /** What the loop of `reverse_many` keeps. */
  ghost predicate Merged(request: Request<Answer>, extens: seq<Exten>, order: seq<nat>, results: Results)
    requires request.Valid()
    reads request.futures
  {
    && IsOrder(order, |request.runs|) && AllFinished(request.futures, order)
    && results == Merge(extens, request.runs, order)
  }

  lemma MergedStep(request: Request<Answer>, extens: seq<Exten>, order: seq<nat>, results: Results, i: nat)
    requires request.Valid() && Merged(request, extens, order, results)
    requires i < |request.runs| && i !in order && request.futures[i] == Finished
    ensures Merged(request, extens, order + [i], MergeOne(results, Execute(request.runs[i])))
    ensures Elements(order + [i]) == Elements(order) + {i} && |order| < |request.runs|
    ensures !AllAnswered(results) ==> StillOpenBefore(extens, request.runs, order + [i])
  {
    OrderStep(order, i, |request.runs|);
    MergeStep(extens, request.runs, order, i);
  }

  /** Takes in one completed task's result, and tells whether that was the last answer missing. */
  method Absorb(results: Results, result: Option<Answer>) returns (merged: Results, complete: bool)
    ensures merged == MergeOne(results, result)
    ensures complete <==> result.Some? && result.value != map[] && AllAnswered(merged)
    ensures !AllAnswered(results) && !complete ==> !AllAnswered(merged)
  {
    merged, complete := results, false;
    if result.Some? && result.value != map[] {
      merged := results + map k | k in result.value :: Some(result.value[k]);
      complete := AllAnswered(merged);
    }
  }

  /** The loop of `reverse_many` over the completing tasks. */
  method Collect(request: Request<Answer>, extens: seq<Exten>)
    returns (results: Results, timedOut: bool, ghost order: seq<nat>)
    requires request.Valid()
    modifies request.futures
    ensures forall i | 0 <= i < request.futures.Length :: request.futures[i] != Queued
    ensures Merged(request, extens, order, results)
    ensures !timedOut ==> |order| == |request.runs| || AllAnswered(results)
    ensures extens != [] && AllAnswered(results) ==> StillOpenBefore(extens, request.runs, order)
  {
    InitialAnswered(extens);
    results := Initial(extens);
    var yielded: set<nat> := {};
    timedOut := false;
    order := [];
    while true
      invariant Merged(request, extens, order, results) && Elements(order) == yielded
      invariant extens != [] ==> !AllAnswered(results)
      decreases |request.runs| - |order|
    {
      var wait := request.NextCompleted(yielded);
      match wait
      case Exhausted =>
        AllYielded(order, |request.runs|);
        AllDone(request.futures, order);
        return;
      case TimedOut =>
        request.CancelPending();
        timedOut := true;
        return;
      case Next(i) =>
        MergedStep(request, extens, order, results, i);
        order := order + [i];
        yielded := yielded + {i};
        var complete;
        results, complete := Absorb(results, Execute(request.runs[i]));
        if complete {
          request.CancelPending();
          return;
        }
    }
  }

  /** The first `n` sources of the order know all the extensions. */
  predicate AllKnown(extens: seq<Exten>, runs: seq<Run<Answer>>, order: seq<nat>, n: nat)
    requires InRange(order, |runs|) && n <= |order|
  {
    forall k | k in extens :: exists p | 0 <= p < n :: Knows(runs[order[p]], k)
  }

  lemma AllKnownIff(extens: seq<Exten>, runs: seq<Run<Answer>>, order: seq<nat>, n: nat)
    requires AnswersWhatIsAsked(runs, extens) && InRange(order, |runs|) && n <= |order|
    ensures AllKnown(extens, runs, order, n) <==> AllAnswered(Merge(extens, runs, order[..n]))
  {
    var part := order[..n];
    var results := Merge(extens, runs, part);
    MergeKeys(extens, runs, part);
    MergeAnswersUnion(extens, runs, part);
    forall k | k in extens ensures results[k].Some? <==> exists p | 0 <= p < n :: Knows(runs[order[p]], k) {
      assert results[k].Some? <==> k in Answered(results);
      if p :| 0 <= p < n && Knows(runs[order[p]], k) {
        assert part[p] == order[p] && Execute(runs[part[p]]).Some?;
      }
      if k in Union(runs, part) {
        var p :| 0 <= p < n && Execute(runs[part[p]]).Some? && k in Execute(runs[part[p]]).value;
        assert Knows(runs[order[p]], k);
      }
    }
  }

  lemma UnionKnows(runs: seq<Run<Answer>>, k: Exten)
    ensures k in Union(runs, Everyone(runs)) <==> exists s | 0 <= s < |runs| :: Knows(runs[s], k)
  {
    var everyone := Everyone(runs);
    if s :| 0 <= s < |runs| && Knows(runs[s], k) {
      assert everyone[s] == s && Execute(runs[everyone[s]]).Some?;
    }
    if k in Union(runs, everyone) {
      var p :| 0 <= p < |runs| && Execute(runs[everyone[p]]).Some? && k in Execute(runs[everyone[p]]).value;
      assert Knows(runs[p], k);
    }
  }

  lemma StopsWhenKnown(extens: seq<Exten>, runs: seq<Run<Answer>>, order: seq<nat>)
    requires AnswersWhatIsAsked(runs, extens) && InRange(order, |runs|)
    requires extens != [] && AllAnswered(Merge(extens, runs, order)) ==> StillOpenBefore(extens, runs, order)
    ensures AllAnswered(Merge(extens, runs, order)) <==> AllKnown(extens, runs, order, |order|)
    ensures extens != [] ==> forall n | 0 <= n < |order| :: !AllKnown(extens, runs, order, n)
  {
    assert order[..|order|] == order;
    AllKnownIff(extens, runs, order, |order|);
    if extens != [] {
      if !AllAnswered(Merge(extens, runs, order)) {
        StillOpenEarlier(extens, runs, order);
      }
      OpenBeforeLast(extens, runs, order);
      forall n | 0 <= n < |order| ensures !AllKnown(extens, runs, order, n) {
        AllKnownIff(extens, runs, order, n);
      }
    }
  }

  lemma OutputIs(extens: seq<Exten>, runs: seq<Run<Answer>>, order: seq<nat>, output: seq<Option<Contact>>)
    requires AnswersWhatIsAsked(runs, extens) && IsOrder(order, |runs|)
    requires forall k | k in Distinct(extens) :: k in Merge(extens, runs, order)
    requires output == Values(Distinct(extens), Merge(extens, runs, order))
    ensures |output| == |Distinct(extens)|
    ensures forall i | 0 <= i < |output| :: IsAnswerFor(runs, order, Distinct(extens)[i], output[i])
    ensures |order| == |runs| || AllAnswered(Merge(extens, runs, order)) ==> forall i | 0 <= i < |output| ::
      output[i].Some? <==> exists s | 0 <= s < |runs| :: Knows(runs[s], Distinct(extens)[i])
  {
    var results := Merge(extens, runs, order);
    forall i | 0 <= i < |output|
      ensures IsAnswerFor(runs, order, Distinct(extens)[i], output[i])
      ensures |order| == |runs| || AllAnswered(results) ==>
        (output[i].Some? <==> exists s | 0 <= s < |runs| :: Knows(runs[s], Distinct(extens)[i]))
    {
      var k := Distinct(extens)[i];
      assert k in Distinct(extens);
      MergeIsAnswer(extens, runs, order, k);
      UnionKnows(runs, k);
      assert k in Answered(results) <==> output[i].Some?;
      if |order| == |runs| || AllAnswered(results) {
        AnsweredWhateverTheSchedule(extens, runs, order);
      }
    }
  }

  method ReverseMany(request: Request<Answer>, extens: seq<Exten>)
    returns (output: seq<Option<Contact>>, timedOut: bool, ghost order: seq<nat>)
    requires request.Valid() && AnswersWhatIsAsked(request.runs, extens)
    modifies request.futures
    ensures forall i | 0 <= i < request.futures.Length :: request.futures[i] != Queued
    ensures IsOrder(order, |request.runs|) && AllFinished(request.futures, order)
    ensures !timedOut ==> |order| == |request.runs| || AllKnown(extens, request.runs, order, |order|)
    ensures extens != [] ==> forall n | 0 <= n < |order| :: !AllKnown(extens, request.runs, order, n)
    ensures |output| == |Distinct(extens)|
    ensures forall i | 0 <= i < |output| :: IsAnswerFor(request.runs, order, Distinct(extens)[i], output[i])
    ensures !timedOut ==> forall i | 0 <= i < |output| ::
      output[i].Some? <==> exists s | 0 <= s < |request.runs| :: Knows(request.runs[s], Distinct(extens)[i])
  {
    var results;
    results, timedOut, order := Collect(request, extens);
    DistinctElements(extens);
    MergeKeys(extens, request.runs, order);
    StopsWhenKnown(extens, request.runs, order);
    output := Values(Distinct(extens), results);
    OutputIs(extens, request.runs, order, output);
  }

  method Reverse(request: Request<Contact>) returns (contact: Option<Contact>, timedOut: bool, ghost order: seq<nat>)
    requires request.Valid()
    modifies request.futures
    ensures forall i | 0 <= i < request.futures.Length :: request.futures[i] != Queued
    ensures IsOrder(order, |request.runs|) && AllFinished(request.futures, order)
    ensures contact.Some? ==>
      order != [] && !timedOut && request.runs[order[|order| - 1]] == Returns(contact)
    ensures forall k | 0 <= k < |order| && (contact.None? || k < |order| - 1) :: IsSilent(request.runs[order[k]])
    ensures contact.None? && !timedOut ==> forall i | 0 <= i < |request.runs| :: IsSilent(request.runs[i])
  {
    var yielded: set<nat> := {};
    order := [];
    while true
      invariant IsOrder(order, |request.runs|) && Elements(order) == yielded
      invariant AllFinished(request.futures, order)
      invariant forall k | 0 <= k < |order| :: IsSilent(request.runs[order[k]])
      decreases |request.runs| - |order|
    {
      var wait := request.NextCompleted(yielded);
      if wait.Exhausted? {
        AllYielded(order, |request.runs|);
        AllDone(request.futures, order);
        forall i | 0 <= i < |request.runs| ensures IsSilent(request.runs[i]) {
          var p := Position(order, i);
        }
        return None, false, order;
      }
      if wait.TimedOut? {
        request.CancelPending();
        return None, true, order;
      }
      OrderStep(order, wait.i, |request.runs|);
      order := order + [wait.i];
      yielded := yielded + {wait.i};
      var result := Execute(request.runs[wait.i]);
      if result.Some? {
        request.CancelPending();
        return result, false, order;
      }
    }
  }
}
