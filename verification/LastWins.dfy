/** The loops that fill a dict by column value, a later entry replacing an earlier one. */
module LastWins {
  import opened Wrappers
  import SR = SourceResult

  /** The last entry whose column holds the term. */
  function LastIn(entries: seq<SR.Fields>, column: string, term: string): Option<SR.Fields> {
    if entries == [] then None
    else
      var last := entries[|entries| - 1];
      if SR.Lookup(last, column) == Some(term) then Some(last)
      else LastIn(entries[..|entries| - 1], column, term)
  }

  function Later(a: Option<SR.Fields>, b: Option<SR.Fields>): Option<SR.Fields> {
    if b.Some? then b else a
  }

  lemma {:induction false} LastInIff(entries: seq<SR.Fields>, column: string, term: string)
    ensures LastIn(entries, column, term).Some?
       <==> exists x | x in entries :: SR.Lookup(x, column) == Some(term)
    ensures LastIn(entries, column, term).Some? ==>
              var x := LastIn(entries, column, term).value;
              x in entries && SR.Lookup(x, column) == Some(term)
  {
    if entries != [] {
      var init := entries[..|entries| - 1];
      LastInIff(init, column, term);
      assert entries == init + [entries[|entries| - 1]];
    }
  }

  /** The entry has this value in the column. */
  predicate Shows(entry: SR.Fields, column: string, term: string) {
    column in entry && entry[column] == Some(term)
  }

  predicate ShownIn(entries: seq<SR.Fields>, column: string, term: string) {
    exists k | 0 <= k < |entries| :: Shows(entries[k], column, term)
  }

  /** The entry at `j` shows the term in the column, and no later one does. */
  predicate IsLastIn(entries: seq<SR.Fields>, column: string, term: string, j: nat) {
    j < |entries| && Shows(entries[j], column, term) && forall k | j < k < |entries| :: !Shows(entries[k], column, term)
  }

  lemma {:induction false} LastInIs(entries: seq<SR.Fields>, column: string, term: string)
    ensures LastIn(entries, column, term).Some? <==> ShownIn(entries, column, term)
    ensures LastIn(entries, column, term).Some? <==> exists j: nat :: IsLastIn(entries, column, term, j)
    ensures forall j: nat | IsLastIn(entries, column, term, j) :: LastIn(entries, column, term) == Some(entries[j])
  {
    if entries != [] {
      var n := |entries| - 1;
      var init := entries[..n];
      LastInIs(init, column, term);
      assert forall k | 0 <= k < n :: init[k] == entries[k];
      if Shows(entries[n], column, term) {
        assert IsLastIn(entries, column, term, n);
      } else {
        forall j: nat | IsLastIn(entries, column, term, j) ensures IsLastIn(init, column, term, j) {
        }
        if j: nat :| IsLastIn(init, column, term, j) {
          assert IsLastIn(entries, column, term, j);
        }
      }
    }
  }

  /** A pass over the entries for one column. */
  method AbsorbColumn(before: map<string, SR.Fields>, terms: seq<string>, entries: seq<SR.Fields>, column: string)
    returns (results: map<string, SR.Fields>)
    ensures forall t :: t in results <==> t in before || (t in terms && LastIn(entries, column, t).Some?)
    ensures forall t | t in terms && LastIn(entries, column, t).Some? :: results[t] == LastIn(entries, column, t).value
    ensures forall t | t in results && !(t in terms && LastIn(entries, column, t).Some?) :: results[t] == before[t]
    ensures forall t, j: nat | t in terms && IsLastIn(entries, column, t, j) :: t in results && results[t] == entries[j]
    ensures forall t | t !in terms || !ShownIn(entries, column, t) ::
      (t in results <==> t in before) && (t in results ==> results[t] == before[t])
  {
    results := before;
    for j := 0 to |entries|
      invariant forall t :: t in results <==> t in before || (t in terms && LastIn(entries[..j], column, t).Some?)
      invariant forall t | t in terms && LastIn(entries[..j], column, t).Some? ::
        results[t] == LastIn(entries[..j], column, t).value
      invariant forall t | t in results && !(t in terms && LastIn(entries[..j], column, t).Some?) ::
        results[t] == before[t]
    {
      assert entries[..j + 1][..j] == entries[..j];
      var term := SR.Lookup(entries[j], column);
      if term.Some? && term.value in terms {
        results := results[term.value := entries[j]];
      }
    }
    assert entries[..|entries|] == entries;
    forall t: string
      ensures LastIn(entries, column, t).Some? <==> ShownIn(entries, column, t)
      ensures forall j: nat | IsLastIn(entries, column, t, j) :: LastIn(entries, column, t) == Some(entries[j])
    {
      LastInIs(entries, column, t);
    }
  }
}
