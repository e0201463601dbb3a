/** Stable sorting by a comparator, as the language runtimes of the sources provide it. */
module Sorting {
  import opened Sequences

  // A negative result places the first argument before the second.
  type Comparator<!T> = (T, T) -> int

  function Insert<T>(cmp: Comparator<T>, t: T, q: seq<T>): (r: seq<T>)
    ensures |r| == |q| + 1
  {
    if q == [] || cmp(t, q[0]) < 0 then [t] + q else [q[0]] + Insert(cmp, t, q[1..])
  }

  function Sort<T>(cmp: Comparator<T>, q: seq<T>): (r: seq<T>)
    ensures |r| == |q|
  {
    if q == [] then [] else Insert(cmp, q[|q| - 1], Sort(cmp, q[..|q| - 1]))
  }

  ghost predicate NotAfter<T>(cmp: Comparator<T>, t: T, q: seq<T>) {
    forall x | x in q :: cmp(t, x) <= 0
  }

  ghost predicate Ordered<T>(cmp: Comparator<T>, q: seq<T>) {
    q == [] || (NotAfter(cmp, q[0], q[1..]) && Ordered(cmp, q[1..]))
  }

  // The comparator is a total preorder on these elements.
  ghost predicate PreorderOn<T>(cmp: Comparator<T>, q: multiset<T>) {
    && (forall a, b | a in q && b in q :: cmp(a, b) < 0 <==> cmp(b, a) > 0)
    && (forall a, b, c | a in q && b in q && c in q && cmp(a, b) <= 0 && cmp(b, c) <= 0 :: cmp(a, c) <= 0)
  }

  ghost predicate Fresh<T, K>(key: T -> K, k: K, q: seq<T>) {
    forall x | x in q :: key(x) != k
  }

  ghost predicate DistinctBy<T, K>(key: T -> K, q: seq<T>) {
    q == [] || (Fresh(key, key(q[0]), q[1..]) && DistinctBy(key, q[1..]))
  }

  lemma {:induction false} InsertMembers<T>(cmp: Comparator<T>, t: T, q: seq<T>)
    ensures multiset(Insert(cmp, t, q)) == multiset(q) + multiset{t}
  {
    if q != [] && cmp(t, q[0]) >= 0 {
      InsertMembers(cmp, t, q[1..]);
      HeadTail(q);
    }
  }

  /** Whatever the comparator does, sorting is a permutation. */
  lemma {:induction false} SortMembers<T>(cmp: Comparator<T>, q: seq<T>)
    ensures multiset(Sort(cmp, q)) == multiset(q)
  {
    if q != [] {
      SortMembers(cmp, q[..|q| - 1]);
      InsertMembers(cmp, q[|q| - 1], Sort(cmp, q[..|q| - 1]));
      InitLast(q);
    }
  }

  lemma SortHas<T>(cmp: Comparator<T>, q: seq<T>, x: T)
    ensures x in Sort(cmp, q) <==> x in q
  {
    SortMembers(cmp, q);
    assert x in Sort(cmp, q) <==> x in multiset(Sort(cmp, q));
    assert x in q <==> x in multiset(q);
  }

  lemma InsertHas<T>(cmp: Comparator<T>, t: T, q: seq<T>, x: T)
    ensures x in Insert(cmp, t, q) <==> x == t || x in q
  {
    InsertMembers(cmp, t, q);
    assert x in Insert(cmp, t, q) <==> x in multiset(Insert(cmp, t, q));
  }

  lemma {:induction false} InsertDistinct<T, K>(cmp: Comparator<T>, key: T -> K, t: T, q: seq<T>)
    requires DistinctBy(key, q) && Fresh(key, key(t), q)
    ensures DistinctBy(key, Insert(cmp, t, q))
  {
    if q != [] && cmp(t, q[0]) >= 0 {
      HeadTail(q);
      InsertDistinct(cmp, key, t, q[1..]);
      forall x | x in Insert(cmp, t, q[1..]) ensures key(x) != key(q[0]) {
        InsertHas(cmp, t, q[1..], x);
      }
    }
  }

  lemma {:induction false} DistinctInit<T, K>(key: T -> K, q: seq<T>)
    requires DistinctBy(key, q) && q != []
    ensures DistinctBy(key, q[..|q| - 1]) && Fresh(key, key(q[|q| - 1]), q[..|q| - 1])
  {
    if |q| > 1 {
      DistinctInit(key, q[1..]);
      assert q[1..][..|q| - 2] == q[..|q| - 1][1..];
      HeadTail(q[..|q| - 1]);
      HeadTail(q);
      InitLast(q[1..]);
    }
  }

  /** Sorting repeats no key. */
  lemma {:induction false} SortDistinct<T, K>(cmp: Comparator<T>, key: T -> K, q: seq<T>)
    requires DistinctBy(key, q)
    ensures DistinctBy(key, Sort(cmp, q))
  {
    if q != [] {
      DistinctInit(key, q);
      SortDistinct(cmp, key, q[..|q| - 1]);
      var init, last := q[..|q| - 1], q[|q| - 1];
      var sorted := Sort(cmp, init);
      forall x | x in sorted ensures key(x) != key(last) {
        SortHas(cmp, init, x);
      }
      InsertDistinct(cmp, key, last, sorted);
    }
  }

  lemma {:induction false} InsertOrdered<T>(cmp: Comparator<T>, t: T, q: seq<T>)
    requires PreorderOn(cmp, multiset(q) + multiset{t}) && Ordered(cmp, q)
    ensures Ordered(cmp, Insert(cmp, t, q))
  {
    if q == [] {
    } else if cmp(t, q[0]) < 0 {
      HeadTail(q);
      forall x | x in q ensures cmp(t, x) <= 0 {
        assert x == q[0] || cmp(q[0], x) <= 0;
        assert x in multiset(q) && q[0] in multiset(q);
      }
    } else {
      HeadTail(q);
      InsertOrdered(cmp, t, q[1..]);
      forall x | x in Insert(cmp, t, q[1..]) ensures cmp(q[0], x) <= 0 {
        InsertHas(cmp, t, q[1..], x);
        assert q[0] in multiset(q);
      }
    }
  }

  /** Under a total preorder the sorted list is ordered. */
  lemma {:induction false} SortOrdered<T>(cmp: Comparator<T>, q: seq<T>)
    requires PreorderOn(cmp, multiset(q))
    ensures Ordered(cmp, Sort(cmp, q))
  {
    if q != [] {
      InitLast(q);
      SortOrdered(cmp, q[..|q| - 1]);
      SortMembers(cmp, q[..|q| - 1]);
      InsertOrdered(cmp, q[|q| - 1], Sort(cmp, q[..|q| - 1]));
    }
  }

  lemma {:induction false} OrderedAt<T>(cmp: Comparator<T>, q: seq<T>, i: nat, j: nat)
    requires Ordered(cmp, q) && i < j < |q|
    ensures cmp(q[i], q[j]) <= 0
  {
    if i == 0 {
      assert q[1..][j - 1] == q[j];
    } else {
      OrderedAt(cmp, q[1..], i - 1, j - 1);
    }
  }

  // A preorder in which only equal elements tie.
  ghost predicate StrictOn<T>(cmp: Comparator<T>, q: multiset<T>) {
    PreorderOn(cmp, q) && forall a, b | a in q && b in q && a != b :: cmp(a, b) != 0
  }

  lemma StrictOnPart<T>(cmp: Comparator<T>, part: multiset<T>, all: multiset<T>)
    requires StrictOn(cmp, all) && part <= all
    ensures StrictOn(cmp, part)
  {
    assert forall x | x in part :: x in all;
  }

  lemma SameHead<T>(cmp: Comparator<T>, a: seq<T>, b: seq<T>)
    requires multiset(a) == multiset(b) && a != [] && b != [] && StrictOn(cmp, multiset(a))
    requires Ordered(cmp, a) && Ordered(cmp, b)
    ensures a[0] == b[0]
  {
    assert a[0] in multiset(a) && b[0] in multiset(b);
    assert a[0] in b && b[0] in a;
    HeadTail(a);
    HeadTail(b);
  }

  /** Under a strict order a collection has only one ordered listing. */
  lemma {:induction false} OrderedUnique<T>(cmp: Comparator<T>, a: seq<T>, b: seq<T>)
    requires multiset(a) == multiset(b) && StrictOn(cmp, multiset(a))
    requires Ordered(cmp, a) && Ordered(cmp, b)
    ensures a == b
  {
    assert |multiset(a)| == |a| && |multiset(b)| == |b|;
    if a != [] {
      SameHead(cmp, a, b);
      HeadTail(a);
      HeadTail(b);
      assert multiset(a[1..]) == multiset(a) - multiset{a[0]};
      assert multiset(b[1..]) == multiset(b) - multiset{a[0]};
      StrictOnPart(cmp, multiset(a[1..]), multiset(a));
      OrderedUnique(cmp, a[1..], b[1..]);
      assert a == [a[0]] + a[1..] && b == [b[0]] + b[1..];
    }
  }
}
