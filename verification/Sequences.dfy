/** Lists without repetition and the pigeonhole facts about them. */
module Sequences {
  predicate NoDup<T(==)>(q: seq<T>) {
    q == [] || (q[|q| - 1] !in q[..|q| - 1] && NoDup(q[..|q| - 1]))
  }

  lemma HeadTail<T>(q: seq<T>)
    requires q != []
    ensures q == [q[0]] + q[1..]
    ensures multiset(q) == multiset{q[0]} + multiset(q[1..])
    ensures forall x :: x in q <==> x == q[0] || x in q[1..]
  {
    assert q == [q[0]] + q[1..];
  }

  lemma InitLast<T>(q: seq<T>)
    requires q != []
    ensures q == q[..|q| - 1] + [q[|q| - 1]]
    ensures multiset(q) == multiset(q[..|q| - 1]) + multiset{q[|q| - 1]}
    ensures forall x :: x in q <==> x == q[|q| - 1] || x in q[..|q| - 1]
  {
    assert q == q[..|q| - 1] + [q[|q| - 1]];
  }

  lemma LastApart<T>(q: seq<T>)
    requires q != []
    ensures q[..|q| - 1] + [q[|q| - 1]] == q
  {
  }

  lemma ConcatAssoc<T>(a: seq<T>, b: seq<T>, c: seq<T>)
    ensures (a + b) + c == a + (b + c)
  {
  }

  lemma TwoParts<T>(q: seq<T>, n: nat)
    requires n <= |q|
    ensures q == q[..n] + q[n..]
  {
  }

  lemma SliceOfTail<T>(q: seq<T>, p: nat, i: nat, j: nat)
    requires p <= |q| && i <= j <= |q| - p
    ensures q[p..][i..j] == q[p + i..p + j] && q[p..][j..] == q[p + j..] && q[p..][..j] == q[p..p + j]
  {
  }

  function Elements<T>(q: seq<T>): set<T> {
    set x | x in q
  }

  lemma ElementsConcat<T>(a: seq<T>, b: seq<T>)
    ensures Elements(a + b) == Elements(a) + Elements(b)
  {
  }

  lemma {:induction false} NoDupConcat<T>(a: seq<T>, b: seq<T>)
    ensures NoDup(a + b) <==> NoDup(a) && NoDup(b) && forall x | x in a :: x !in b
  {
    if b == [] {
      assert a + b == a;
    } else {
      assert (a + b)[..|a + b| - 1] == a + b[..|b| - 1];
      NoDupConcat(a, b[..|b| - 1]);
      InitLast(b);
    }
  }

  lemma NoDupOne<T>(q: seq<T>, x: T)
    ensures NoDup(q + [x]) <==> NoDup(q) && x !in q
  {
    assert (q + [x])[..|q|] == q;
  }

  lemma NoDupTwo<T>(q: seq<T>, x: T, y: T)
    ensures NoDup(q + [x, y]) <==> NoDup(q) && x !in q && y !in q && x != y
  {
    assert q + [x, y] == q + [x] + [y];
    NoDupOne(q + [x], y);
    NoDupOne(q, x);
  }

  lemma {:induction false} NoDupAt<T>(q: seq<T>, i: nat, j: nat)
    requires NoDup(q) && i < j < |q|
    ensures q[i] != q[j]
  {
    if j == |q| - 1 {
      assert q[i] in q[..j];
    } else {
      NoDupAt(q[..|q| - 1], i, j);
    }
  }

  lemma {:induction false} Repetition<T>(q: seq<T>) returns (i: nat, j: nat)
    requires !NoDup(q)
    ensures i < j < |q| && q[i] == q[j]
  {
    var n := |q| - 1;
    if q[n] in q[..n] {
      i :| 0 <= i < n && q[..n][i] == q[n];
      j := n;
    } else {
      i, j := Repetition(q[..n]);
    }
  }

  /** A list has as many entries as distinct elements exactly when it repeats none. */
  lemma {:induction false} SizeCountsDistinct<T>(q: seq<T>)
    ensures |Elements(q)| <= |q|
    ensures |Elements(q)| == |q| <==> NoDup(q)
  {
    if q != [] {
      var init, last := q[..|q| - 1], q[|q| - 1];
      InitLast(q);
      SizeCountsDistinct(init);
      if last in init {
        assert Elements(q) == Elements(init);
      } else {
        assert Elements(q) == Elements(init) + {last};
      }
    }
  }

  lemma NoDupFits<T>(q: seq<T>, s: set<T>)
    requires NoDup(q) && forall x | x in q :: x in s
    ensures |q| <= |s|
  {
    SizeCountsDistinct(q);
    SubsetSize(Elements(q), s);
  }

  lemma {:induction false} MultiplicityOfNoDup<T>(q: seq<T>, x: T)
    requires NoDup(q)
    ensures multiset(q)[x] == if x in q then 1 else 0
  {
    if q != [] {
      InitLast(q);
      MultiplicityOfNoDup(q[..|q| - 1], x);
    }
  }

  lemma {:induction false} SingleMultiplicities<T>(q: seq<T>)
    requires forall x | x in q :: multiset(q)[x] == 1
    ensures NoDup(q)
  {
    if q != [] {
      var init, last := q[..|q| - 1], q[|q| - 1];
      InitLast(q);
      assert last in q;
      forall x | x in init ensures multiset(init)[x] == 1 {
        assert x in q && x in multiset(init);
      }
      SingleMultiplicities(init);
      assert multiset(init)[last] == 0;
    }
  }

  /** A list that repeats nothing, stays inside a set and is as long as it lists the set, each element once. */
  lemma ExactListing<T>(q: seq<T>, s: set<T>)
    ensures NoDup(q) && Elements(q) <= s && |q| == |s| <==> multiset(q) == multiset(s)
  {
    if NoDup(q) && Elements(q) <= s && |q| == |s| {
      SizeCountsDistinct(q);
      SubsetSize(Elements(q), s);
      forall x ensures multiset(q)[x] == multiset(s)[x] {
        MultiplicityOfNoDup(q, x);
        assert x in q <==> x in Elements(q);
      }
    }
    if multiset(q) == multiset(s) {
      forall x | x in q ensures multiset(q)[x] == 1 && x in s {
        assert x in multiset(q);
      }
      SingleMultiplicities(q);
      assert |multiset(q)| == |q| && |multiset(s)| == |s|;
    }
  }

  lemma {:induction false} SubsetSize<T>(a: set<T>, b: set<T>)
    requires a <= b
    ensures |a| <= |b|
    ensures |a| == |b| <==> a == b
  {
    if a != {} {
      var x :| x in a;
      SubsetSize(a - {x}, b - {x});
      assert a == (a - {x}) + {x} && b == (b - {x}) + {x};
    } else {
      assert |b| == 0 <==> b == {};
    }
  }

  function Map<T, U>(f: T -> U, q: seq<T>): (r: seq<U>)
    ensures |r| == |q|
    ensures forall i :: 0 <= i < |q| ==> r[i] == f(q[i])
  {
    seq(|q|, i requires 0 <= i < |q| => f(q[i]))
  }

  // The list without its i-th entry.
  function Without<T>(q: seq<T>, i: nat): seq<T>
    requires i < |q|
  {
    q[..i] + q[i + 1..]
  }

  lemma WithoutBag<T>(q: seq<T>, i: nat)
    requires i < |q|
    ensures multiset(q) == multiset(Without(q, i)) + multiset{q[i]}
  {
    assert q == q[..i] + [q[i]] + q[i + 1..];
  }

  lemma MapWithout<T, U>(f: T -> U, q: seq<T>, i: nat)
    requires i < |q|
    ensures multiset(Map(f, q)) == multiset(Map(f, Without(q, i))) + multiset{f(q[i])}
    ensures multiset(Map(f, Without(q, i))) == multiset(Map(f, q)) - multiset{f(q[i])}
  {
    assert Map(f, Without(q, i)) == Without(Map(f, q), i);
    WithoutBag(Map(f, q), i);
  }

  lemma Partner<T, A>(f: T -> A, a: seq<T>, b: seq<T>) returns (j: nat)
    requires a != [] && multiset(Map(f, a)) == multiset(Map(f, b))
    ensures j < |b| && f(b[j]) == f(a[0])
  {
    assert Map(f, a)[0] in multiset(Map(f, a));
    assert Map(f, a)[0] in Map(f, b);
    j :| 0 <= j < |b| && Map(f, b)[j] == Map(f, a)[0];
  }

  /** Lists that match up by one labelling match up by any labelling it determines. */
  lemma {:induction false} BagsMatch<T, A, B>(f: T -> A, g: T -> B, a: seq<T>, b: seq<T>)
    requires forall x, y | x in a && y in b && f(x) == f(y) :: g(x) == g(y)
    requires multiset(Map(f, a)) == multiset(Map(f, b))
    ensures multiset(Map(g, a)) == multiset(Map(g, b))
    decreases |a|
  {
    assert |multiset(Map(f, a))| == |a| && |multiset(Map(f, b))| == |b|;
    if a != [] {
      var j := Partner(f, a, b);
      assert a[0] in a && b[j] in b;
      MapWithout(f, a, 0);
      MapWithout(f, b, j);
      BagsMatch(f, g, Without(a, 0), Without(b, j));
      MapWithout(g, a, 0);
      MapWithout(g, b, j);
    }
  }

  // ---- Parts of a list ----

  // The entries of `r` stand in `q` at these rising positions.
  ghost predicate Thinned<T>(q: seq<T>, r: seq<T>, at: seq<nat>) {
    Rising(at, |q|) && |at| == |r| && forall i :: 0 <= i < |at| ==> r[i] == q[at[i]]
  }

  ghost predicate Rising(at: seq<nat>, end: nat) {
    && (forall i, j :: 0 <= i < j < |at| ==> at[i] < at[j])
    && (forall i :: 0 <= i < |at| ==> at[i] < end)
  }

  lemma RisingAppend(at: seq<nat>, end: nat)
    requires Rising(at, end)
    ensures Rising(at, end + 1) && Rising(at + [end], end + 1)
    ensures forall j :: j in at + [end] <==> j in at || j == end
    ensures end !in at
  {
  }

  lemma ThinnedAppend<T>(q: seq<T>, r: seq<T>, at: seq<nat>, x: T)
    requires Thinned(q, r, at)
    ensures Thinned(q + [x], r, at) && Thinned(q + [x], r + [x], at + [|q|])
  {
    RisingAppend(at, |q|);
  }

  // Each entry of `out` says what the entry at its position does; the positions are those that pass.
  ghost predicate Read<T, U>(q: seq<T>, out: seq<U>, at: seq<nat>, passes: T -> bool, says: (T, U) -> bool) {
    && Rising(at, |q|) && |at| == |out|
    && (forall j :: 0 <= j < |q| ==> (j in at <==> passes(q[j])))
    && forall i :: 0 <= i < |at| ==> says(q[at[i]], out[i])
  }

  lemma ReadAppend<T, U>(q: seq<T>, out: seq<U>, at: seq<nat>, passes: T -> bool, says: (T, U) -> bool, x: T, y: U)
    requires Read(q, out, at, passes, says)
    ensures !passes(x) ==> Read(q + [x], out, at, passes, says)
    ensures passes(x) && says(x, y) ==> Read(q + [x], out + [y], at + [|q|], passes, says)
  {
    RisingAppend(at, |q|);
  }

  function Later(at: seq<nat>): seq<nat> {
    seq(|at|, i requires 0 <= i < |at| => at[i] + 1)
  }

  lemma LaterRising(at: seq<nat>, end: nat)
    requires Rising(at, end)
    ensures Rising(Later(at), end + 1) && Rising([0] + Later(at), end + 1)
    ensures forall j :: j in Later(at) <==> j > 0 && j - 1 in at
  {
    forall j | j > 0 && j - 1 in at ensures j in Later(at) {
      var i :| 0 <= i < |at| && at[i] == j - 1;
      assert Later(at)[i] == j;
    }
  }

  lemma ReadSkips<T, U>(x: T, q: seq<T>, out: seq<U>, at: seq<nat>, passes: T -> bool, says: (T, U) -> bool)
    requires Read(q, out, at, passes, says) && !passes(x)
    ensures Read([x] + q, out, Later(at), passes, says)
  {
    LaterRising(at, |q|);
  }

  lemma ReadTakes<T, U>(x: T, y: U, q: seq<T>, out: seq<U>, at: seq<nat>, passes: T -> bool, says: (T, U) -> bool)
    requires Read(q, out, at, passes, says) && passes(x) && says(x, y)
    ensures Read([x] + q, [y] + out, [0] + Later(at), passes, says)
  {
    LaterRising(at, |q|);
    var q', out', at' := [x] + q, [y] + out, [0] + Later(at);
    forall j | 0 <= j < |q'| ensures j in at' <==> passes(q'[j]) {
      assert j in at' <==> j == 0 || j in Later(at);
    }
    forall i | 0 <= i < |at'| ensures says(q'[at'[i]], out'[i]) {
      if i > 0 {
        assert says(q[at[i - 1]], out[i - 1]);
      }
    }
  }

  // The list is these parts one after another: part i from position start[i] up to start[i + 1].
  ghost predicate Laid<T>(all: seq<T>, parts: seq<seq<T>>, start: seq<nat>) {
    && |start| == |parts| + 1 && start[0] == 0 && start[|parts|] == |all|
    && forall i :: 0 <= i < |parts| ==> Part(all, parts[i], start[i], start[i + 1])
  }

  ghost predicate Part<T>(all: seq<T>, part: seq<T>, from: nat, to: nat) {
    from <= to <= |all| && all[from..to] == part
  }

  lemma PartStays<T>(all: seq<T>, x: seq<T>, part: seq<T>, from: nat, to: nat)
    requires Part(all, part, from, to)
    ensures Part(all + x, part, from, to)
  {
    assert (all + x)[from..to] == all[from..to];
  }

  lemma LastPart<T>(all: seq<T>, x: seq<T>)
    ensures Part(all + x, x, |all|, |all| + |x|)
  {
  }

  lemma LaidAppend<T>(all: seq<T>, parts: seq<seq<T>>, start: seq<nat>, x: seq<T>)
    requires Laid(all, parts, start)
    ensures Laid(all + x, parts + [x], start + [|all| + |x|])
  {
    var all', parts', start' := all + x, parts + [x], start + [|all| + |x|];
    forall i | 0 <= i < |parts'| ensures Part(all', parts'[i], start'[i], start'[i + 1]) {
      if i < |parts| {
        assert Part(all, parts[i], start[i], start[i + 1]);
        PartStays(all, x, parts[i], start[i], start[i + 1]);
      } else {
        LastPart(all, x);
      }
    }
  }
}
