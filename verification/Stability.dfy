/** Sorting is stable, and what that means for the first element of a kind. */
module Stability {
  import opened Wrappers
  import opened Sequences
  import opened Sorting

  // The elements that tie with `t`, in order.
  function Tied<T>(cmp: Comparator<T>, t: T, q: seq<T>): seq<T> {
    if q == [] then [] else (if cmp(q[0], t) == 0 then [q[0]] else []) + Tied(cmp, t, q[1..])
  }

  lemma {:induction false} TiedAppend<T>(cmp: Comparator<T>, t: T, q: seq<T>, x: T)
    ensures Tied(cmp, t, q + [x]) == Tied(cmp, t, q) + if cmp(x, t) == 0 then [x] else []
  {
    if q == [] {
      assert [] + [x] == [x];
    } else {
      assert (q + [x])[1..] == q[1..] + [x];
      TiedAppend(cmp, t, q[1..], x);
      ConcatAssoc(if cmp(q[0], t) == 0 then [q[0]] else [], Tied(cmp, t, q[1..]), if cmp(x, t) == 0 then [x] else []);
    }
  }

  lemma {:induction false} NothingTied<T>(cmp: Comparator<T>, t: T, q: seq<T>)
    requires forall y | y in q :: cmp(y, t) != 0
    ensures Tied(cmp, t, q) == []
  {
    if q != [] {
      HeadTail(q);
      NothingTied(cmp, t, q[1..]);
    }
  }

  // Before an element below all of the list, none of the list ties with what ties with it.
  lemma BelowIsUntied<T>(cmp: Comparator<T>, t: T, x: T, q: seq<T>, all: multiset<T>)
    requires PreorderOn(cmp, all) && t in all && x in all && forall y | y in q :: y in all
    requires Ordered(cmp, q) && q != [] && cmp(x, q[0]) < 0 && cmp(x, t) == 0
    ensures Tied(cmp, t, q) == []
  {
    HeadTail(q);
    forall y | y in q ensures cmp(y, t) != 0 {
      assert q[0] in all && cmp(q[0], x) > 0 && cmp(t, x) == 0;
      assert y == q[0] || cmp(q[0], y) <= 0;
      assert cmp(y, t) <= 0 ==> cmp(y, x) <= 0;
    }
    NothingTied(cmp, t, q);
  }

  lemma TiedFront<T>(cmp: Comparator<T>, t: T, x: T, q: seq<T>)
    ensures Tied(cmp, t, [x] + q) == (if cmp(x, t) == 0 then [x] else []) + Tied(cmp, t, q)
  {
    assert ([x] + q)[1..] == q;
  }

  lemma {:induction false} InsertStable<T>(cmp: Comparator<T>, t: T, x: T, q: seq<T>, all: multiset<T>)
    requires PreorderOn(cmp, all) && t in all && x in all && (forall y | y in q :: y in all) && Ordered(cmp, q)
    ensures Tied(cmp, t, Insert(cmp, x, q)) == Tied(cmp, t, q) + if cmp(x, t) == 0 then [x] else []
  {
    if q == [] || cmp(x, q[0]) < 0 {
      TiedFront(cmp, t, x, q);
      if q != [] && cmp(x, t) == 0 {
        BelowIsUntied(cmp, t, x, q, all);
      }
    } else {
      HeadTail(q);
      InsertStable(cmp, t, x, q[1..], all);
      TiedFront(cmp, t, q[0], Insert(cmp, x, q[1..]));
      ConcatAssoc(if cmp(q[0], t) == 0 then [q[0]] else [], Tied(cmp, t, q[1..]), if cmp(x, t) == 0 then [x] else []);
    }
  }

  lemma PreorderOnPart<T>(cmp: Comparator<T>, part: seq<T>, all: multiset<T>)
    requires PreorderOn(cmp, all) && forall y | y in part :: y in all
    ensures PreorderOn(cmp, multiset(part))
  {
    assert forall y | y in multiset(part) :: y in part;
  }

  /** Sorting is stable: elements that tie keep their order. */
  lemma {:induction false} SortStable<T>(cmp: Comparator<T>, t: T, q: seq<T>, all: multiset<T>)
    requires PreorderOn(cmp, all) && t in all && forall y | y in q :: y in all
    ensures Tied(cmp, t, Sort(cmp, q)) == Tied(cmp, t, q)
  {
    if q != [] {
      var init, last := q[..|q| - 1], q[|q| - 1];
      LastApart(q);
      SortStable(cmp, t, init, all);
      PreorderOnPart(cmp, init, all);
      SortOrdered(cmp, init);
      forall y | y in Sort(cmp, init) ensures y in all {
        SortHas(cmp, init, y);
      }
      InsertStable(cmp, t, last, Sort(cmp, init), all);
      TiedAppend(cmp, t, init, last);
    }
  }

  function First<T>(p: T -> bool, q: seq<T>): Option<T> {
    if q == [] then None else if p(q[0]) then Some(q[0]) else First(p, q[1..])
  }

  lemma {:induction false} FirstAt<T>(p: T -> bool, q: seq<T>) returns (i: nat)
    ensures if First(p, q).Some? then i < |q| && q[i] == First(p, q).value && p(q[i]) else i == |q|
    ensures forall j :: 0 <= j < i ==> !p(q[j])
  {
    i := 0;
    if q != [] && !p(q[0]) {
      i := FirstAt(p, q[1..]);
      i := i + 1;
    }
  }

  function TiedThat<T>(cmp: Comparator<T>, t: T, p: T -> bool): T -> bool {
    (x: T) => p(x) && cmp(x, t) == 0
  }

  lemma {:induction false} FirstOfTied<T>(cmp: Comparator<T>, t: T, p: T -> bool, q: seq<T>)
    ensures First(p, Tied(cmp, t, q)) == First(TiedThat(cmp, t, p), q)
  {
    if q != [] {
      FirstOfTied(cmp, t, p, q[1..]);
      if cmp(q[0], t) == 0 {
        assert Tied(cmp, t, q)[1..] == Tied(cmp, t, q[1..]);
      } else {
        assert [] + Tied(cmp, t, q[1..]) == Tied(cmp, t, q[1..]);
      }
    }
  }

  // The element at i comes before all others that pass, by the comparator and then by position.
  ghost predicate LeastThat<T>(cmp: Comparator<T>, p: T -> bool, q: seq<T>, i: nat) {
    i < |q| && p(q[i]) && forall j :: 0 <= j < |q| && p(q[j]) ==> cmp(q[i], q[j]) <= 0 && (cmp(q[i], q[j]) == 0 ==> i <= j)
  }

  lemma FirstIsLeast<T>(cmp: Comparator<T>, p: T -> bool, q: seq<T>, k: nat)
    requires PreorderOn(cmp, multiset(q)) && k < |Sort(cmp, q)| && p(Sort(cmp, q)[k]) && forall j :: 0 <= j < k ==> !p(Sort(cmp, q)[j])
    ensures var x := Sort(cmp, q)[k];
            cmp(x, x) == 0 && x in multiset(q) && forall y | y in q && p(y) :: cmp(x, y) <= 0
  {
    var sorted := Sort(cmp, q);
    var x := sorted[k];
    SortHas(cmp, q, x);
    SortOrdered(cmp, q);
    assert x in q && x in multiset(q);
    forall y | y in q && p(y) ensures cmp(x, y) <= 0 {
      SortHas(cmp, q, y);
      var m :| 0 <= m < |sorted| && sorted[m] == y;
      if m > k {
        OrderedAt(cmp, sorted, k, m);
      }
    }
  }

  // Among equals the position of the first one is kept as well.
  lemma FirstAmongTied<T>(cmp: Comparator<T>, p: T -> bool, q: seq<T>, k: nat)
    requires PreorderOn(cmp, multiset(q)) && k < |Sort(cmp, q)| && p(Sort(cmp, q)[k]) && forall j :: 0 <= j < k ==> !p(Sort(cmp, q)[j])
    ensures First(TiedThat(cmp, Sort(cmp, q)[k], p), q) == Some(Sort(cmp, q)[k])
  {
    var sorted := Sort(cmp, q);
    FirstIsLeast(cmp, p, q, k);
    FirstOfTied(cmp, sorted[k], p, sorted);
    FirstOfTied(cmp, sorted[k], p, q);
    SortStable(cmp, sorted[k], q, multiset(q));
    SameFirst(cmp, p, sorted, k);
  }

  /** The first element of the sorted list that passes is the least one of the list, and the earliest of those. */
  lemma FirstSorted<T>(cmp: Comparator<T>, p: T -> bool, q: seq<T>) returns (i: nat)
    requires PreorderOn(cmp, multiset(q))
    ensures match First(p, Sort(cmp, q))
            case Some(x) => LeastThat(cmp, p, q, i) && q[i] == x
            case None => forall y | y in q :: !p(y)
  {
    var k := FirstAt(p, Sort(cmp, q));
    i := 0;
    if k == |Sort(cmp, q)| {
      forall y | y in q ensures !p(y) {
        SortHas(cmp, q, y);
      }
    } else {
      FirstIsLeast(cmp, p, q, k);
      FirstAmongTied(cmp, p, q, k);
      i := EarliestTied(cmp, p, q, Sort(cmp, q)[k]);
    }
  }

  lemma EarliestTied<T>(cmp: Comparator<T>, p: T -> bool, q: seq<T>, x: T) returns (i: nat)
    requires PreorderOn(cmp, multiset(q)) && x in multiset(q) && (forall y | y in q && p(y) :: cmp(x, y) <= 0)
    requires First(TiedThat(cmp, x, p), q) == Some(x)
    ensures LeastThat(cmp, p, q, i) && q[i] == x
  {
    i := FirstAt(TiedThat(cmp, x, p), q);
    forall j | 0 <= j < |q| && p(q[j]) ensures cmp(x, q[j]) <= 0 && (cmp(x, q[j]) == 0 ==> i <= j) {
      assert q[j] in q && q[j] in multiset(q);
    }
  }

  lemma SameFirst<T>(cmp: Comparator<T>, p: T -> bool, q: seq<T>, k: nat)
    requires k < |q| && p(q[k]) && cmp(q[k], q[k]) == 0 && forall j :: 0 <= j < k ==> !p(q[j])
    ensures First(TiedThat(cmp, q[k], p), q) == Some(q[k])
  {
    var i := FirstAt(TiedThat(cmp, q[k], p), q);
  }
}
