/** The distinct elements of a sequence in first-occurrence order, as the keys of a dict filled from it. */
module FirstOccurrences {

  function Distinct<T(==)>(s: seq<T>): seq<T> {
    if s == [] then []
    else
      var init, last := s[..|s| - 1], s[|s| - 1];
      if last in init then Distinct(init) else Distinct(init) + [last]
  }

  lemma {:induction false} DistinctElements<T>(s: seq<T>)
    ensures forall e :: e in Distinct(s) <==> e in s
    ensures forall i, j | 0 <= i < j < |Distinct(s)| :: Distinct(s)[i] != Distinct(s)[j]
  {
    if s != [] {
      var init, last := s[..|s| - 1], s[|s| - 1];
      DistinctElements(init);
      assert s == init + [last];
    }
  }

  function FirstIndex<T(==)>(s: seq<T>, e: T): (i: nat)
    requires e in s
    ensures i < |s| && s[i] == e && e !in s[..i]
  {
    if s[0] == e then 0
    else
      assert s == [s[0]] + s[1..];
      var i := FirstIndex(s[1..], e);
      assert s[..i + 1] == [s[0]] + s[1..][..i];
      i + 1
  }

  lemma FirstIndexIs<T>(s: seq<T>, e: T, i: nat)
    requires i < |s| && s[i] == e && e !in s[..i]
    ensures FirstIndex(s, e) == i
  {
    var j := FirstIndex(s, e);
    assert forall p | 0 <= p < i :: s[..i][p] == s[p];
    assert forall p | 0 <= p < j :: s[..j][p] == s[p];
  }

  lemma FirstIndexOfPrefix<T>(s: seq<T>, n: nat, e: T)
    requires n <= |s| && e in s[..n]
    ensures e in s && FirstIndex(s, e) == FirstIndex(s[..n], e)
  {
    var i := FirstIndex(s[..n], e);
    assert s[..n][..i] == s[..i];
    assert s[i] == e;
    FirstIndexIs(s, e, i);
  }

  lemma EmptyOrNot<T>(s: seq<T>)
    ensures s != [] ==> exists e :: e in s
  {
    if s != [] {
      assert s[0] in s;
    }
  }

  lemma DistinctMember<T>(s: seq<T>, i: nat)
    requires i < |Distinct(s)|
    ensures Distinct(s)[i] in s
  {
    DistinctElements(s);
    assert Distinct(s)[i] in Distinct(s);
  }

  predicate InFirstOccurrenceOrder<T(==)>(s: seq<T>, a: T, b: T) {
    a in s && b in s && FirstIndex(s, a) < FirstIndex(s, b)
  }

  lemma {:induction false} DistinctInFirstOccurrenceOrder<T>(s: seq<T>)
    ensures forall i, j | 0 <= i < j < |Distinct(s)| :: InFirstOccurrenceOrder(s, Distinct(s)[i], Distinct(s)[j])
  {
    if s != [] {
      var n := |s| - 1;
      var init, last := s[..n], s[n];
      DistinctInFirstOccurrenceOrder(init);
      var d := Distinct(init);
      forall i, j | 0 <= i < j < |Distinct(s)|
        ensures InFirstOccurrenceOrder(s, Distinct(s)[i], Distinct(s)[j])
      {
        assert i < |d| && Distinct(s)[i] == d[i];
        DistinctMember(init, i);
        FirstIndexOfPrefix(s, n, d[i]);
        if j < |d| {
          assert Distinct(s)[j] == d[j];
          DistinctMember(init, j);
          assert InFirstOccurrenceOrder(init, d[i], d[j]);
          FirstIndexOfPrefix(s, n, d[j]);
        } else {
          assert Distinct(s)[j] == last && last !in init;
          FirstIndexIs(s, last, n);
        }
      }
    }
  }

  // ---------- Elements and their number ----------

  function Elements<T>(s: seq<T>): set<T> {
    set e | e in s
  }

  lemma {:induction false} DistinctSize<T>(s: seq<T>)
    requires forall i, j | 0 <= i < j < |s| :: s[i] != s[j]
    ensures |Elements(s)| == |s|
  {
    if s != [] {
      var init, last := s[..|s| - 1], s[|s| - 1];
      DistinctSize(init);
      assert Elements(s) == Elements(init) + {last};
      assert last !in init;
    }
  }

  lemma {:induction false} SubsetSize<T>(a: set<T>, b: set<T>)
    requires a <= b
    ensures |a| <= |b| && (|a| == |b| ==> a == b)
  {
    if a != {} {
      var e :| e in a;
      SubsetSize(a - {e}, b - {e});
    }
  }
}
