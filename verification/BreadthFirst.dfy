/** Breadth-first search over ids: when its queue runs empty, for any finite lists of successors. */
module BreadthFirst {
  import opened Sequences

  // The successors of an id, in order and possibly repeated.
  type Next = string -> seq<string>

  // ---- Walks ----

  predicate Hops(next: Next, c: seq<string>, i: nat)
    requires 0 < i < |c|
  {
    c[i] in next(c[i - 1])
  }

  // A walk, given by the ids it visits.
  predicate Walk(next: Next, c: seq<string>) {
    c != [] && forall i | 0 < i < |c| :: Hops(next, c, i)
  }

  ghost predicate Reaches(next: Next, from: string, to: string) {
    exists c :: Walk(next, c) && c[0] == from && c[|c| - 1] == to
  }

  // The id is reached from itself, at some distance.
  ghost predicate Recurs(next: Next, id: string) {
    exists c :: Walk(next, c) && |c| > 1 && c[0] == id && c[|c| - 1] == id
  }

  lemma WalkPart(next: Next, c: seq<string>, i: nat, j: nat)
    requires Walk(next, c) && i < j <= |c|
    ensures Walk(next, c[i..j])
  {
    forall k | 0 < k < j - i ensures Hops(next, c[i..j], k) {
      assert Hops(next, c, i + k);
    }
  }

  lemma WalkJoin(next: Next, c: seq<string>, d: seq<string>)
    requires Walk(next, c) && Walk(next, d) && c[|c| - 1] == d[0]
    ensures Walk(next, c + d[1..])
  {
    var all := c + d[1..];
    forall k | 0 < k < |all| ensures Hops(next, all, k) {
      if k < |c| {
        assert Hops(next, c, k);
      } else {
        assert Hops(next, d, k - |c| + 1);
      }
    }
  }

  // ---- Levels of the search ----

  // The ids the queue holds once all of these have left it.
  function NextLevel(next: Next, ids: seq<string>): seq<string> {
    if ids == [] then [] else next(ids[0]) + NextLevel(next, ids[1..])
  }

  function Level(next: Next, ids: seq<string>, d: nat): seq<string>
    decreases d
  {
    if d == 0 then ids else Level(next, NextLevel(next, ids), d - 1)
  }

  lemma {:induction false} NextLevelHas(next: Next, ids: seq<string>, x: string)
    ensures x in NextLevel(next, ids) <==> exists y :: y in ids && x in next(y)
  {
    if ids != [] {
      HeadTail(ids);
      NextLevelHas(next, ids[1..], x);
    }
  }

  // Something on level d is the end of a walk of d steps.
  lemma {:induction false} LevelGivesWalk(next: Next, ids: seq<string>, d: nat, x: string) returns (c: seq<string>)
    requires x in Level(next, ids, d)
    ensures Walk(next, c) && |c| == d + 1 && c[0] in ids && c[d] == x
    decreases d
  {
    if d == 0 {
      c := [x];
    } else {
      var rest := LevelGivesWalk(next, NextLevel(next, ids), d - 1, x);
      NextLevelHas(next, ids, rest[0]);
      var y :| y in ids && rest[0] in next(y);
      assert Walk(next, [y, rest[0]]);
      WalkJoin(next, [y, rest[0]], rest);
      c := [y, rest[0]] + rest[1..];
    }
  }

  lemma {:induction false} WalkGivesLevel(next: Next, ids: seq<string>, c: seq<string>)
    requires Walk(next, c) && c[0] in ids
    ensures c[|c| - 1] in Level(next, ids, |c| - 1)
    decreases |c|
  {
    if |c| > 1 {
      assert Hops(next, c, 1);
      NextLevelHas(next, ids, c[1]);
      WalkPart(next, c, 1, |c|);
      assert c[1..|c|] == c[1..];
      WalkGivesLevel(next, NextLevel(next, ids), c[1..]);
    }
  }

  // ---- The queue goes level by level ----

  // The queue after n turns: the head leaves, its successors join at the end.
  function After(next: Next, queue: seq<string>, n: nat): seq<string>
    decreases n
  {
    if n == 0 || queue == [] then queue else After(next, queue[1..] + next(queue[0]), n - 1)
  }

  lemma WithNothing<T>(q: seq<T>)
    ensures q + [] == q && [] + q == q
  {
  }

  lemma {:induction false} QueuePasses(next: Next, a: seq<string>, b: seq<string>)
    ensures After(next, a + b, |a|) == b + NextLevel(next, a)
  {
    if a == [] {
      WithNothing(b);
    } else {
      var kids := next(a[0]);
      assert (a + b)[0] == a[0] && (a + b)[1..] == a[1..] + b;
      ConcatAssoc(a[1..], b, kids);
      QueuePasses(next, a[1..], b + kids);
      ConcatAssoc(b, kids, NextLevel(next, a[1..]));
    }
  }

  lemma {:induction false} QueueAdds(next: Next, queue: seq<string>, m: nat, n: nat)
    ensures After(next, queue, m + n) == After(next, After(next, queue, m), n)
    decreases m
  {
    if m > 0 && queue != [] {
      QueueAdds(next, queue[1..] + next(queue[0]), m - 1, n);
    }
  }

  lemma {:induction false} ShrinksByOne(next: Next, queue: seq<string>, n: nat)
    ensures |After(next, queue, n)| + n >= |queue|
    decreases n
  {
    if n > 0 && queue != [] {
      ShrinksByOne(next, queue[1..] + next(queue[0]), n - 1);
    }
  }

  lemma OneLevel(next: Next, queue: seq<string>, n: nat)
    ensures After(next, queue, |queue| + n) == After(next, NextLevel(next, queue), n)
  {
    QueuePasses(next, queue, []);
    WithNothing(queue);
    WithNothing(NextLevel(next, queue));
    QueueAdds(next, queue, |queue|, n);
  }

  lemma {:induction false} NothingBelow(next: Next, d: nat)
    ensures Level(next, [], d) == []
  {
    if d > 0 {
      NothingBelow(next, d - 1);
    }
  }

  lemma {:induction false} LevelsRunOut(next: Next, queue: seq<string>, n: nat)
    requires After(next, queue, n) == []
    ensures exists d: nat :: d <= n && Level(next, queue, d) == []
    decreases n
  {
    ShrinksByOne(next, queue, n);
    if queue == [] {
      assert Level(next, queue, 0) == [];
    } else {
      OneLevel(next, queue, n - |queue|);
      LevelsRunOut(next, NextLevel(next, queue), n - |queue|);
      var d: nat :| d <= n - |queue| && Level(next, NextLevel(next, queue), d) == [];
      assert Level(next, queue, d + 1) == [];
    }
  }

  lemma {:induction false} QueueRunsOut(next: Next, queue: seq<string>, d: nat) returns (n: nat)
    requires Level(next, queue, d) == []
    ensures After(next, queue, n) == []
    decreases d
  {
    if d == 0 {
      n := 0;
    } else {
      var m := QueueRunsOut(next, NextLevel(next, queue), d - 1);
      OneLevel(next, queue, m);
      n := |queue| + m;
    }
  }

  lemma SliceEnds<T>(c: seq<T>, i: nat, j: nat)
    requires i < j <= |c|
    ensures |c[i..j]| == j - i && c[i..j][0] == c[i] && c[i..j][j - i - 1] == c[j - 1]
  {
  }

  lemma VisitReached(next: Next, c: seq<string>, i: nat)
    requires Walk(next, c) && i < |c|
    ensures Reaches(next, c[0], c[i])
  {
    var way := c[0..i + 1];
    WalkPart(next, c, 0, i + 1);
    SliceEnds(c, 0, i + 1);
  }

  lemma VisitedTwice(next: Next, c: seq<string>, i: nat, j: nat)
    requires Walk(next, c) && i < j < |c| && c[i] == c[j]
    ensures Recurs(next, c[i])
  {
    var loop := c[i..j + 1];
    WalkPart(next, c, i, j + 1);
    SliceEnds(c, i, j + 1);
  }

  lemma {:induction false} WalkRoundAndRound(next: Next, x: string, n: nat) returns (c: seq<string>)
    requires Recurs(next, x)
    ensures Walk(next, c) && c[0] == x && c[|c| - 1] == x && |c| > n
  {
    var loop :| Walk(next, loop) && |loop| > 1 && loop[0] == x && loop[|loop| - 1] == x;
    if n == 0 {
      c := loop;
    } else {
      var before := WalkRoundAndRound(next, x, n - 1);
      WalkJoin(next, before, loop);
      c := before + loop[1..];
    }
  }

  lemma WalksOfEveryLength(next: Next, id: string, x: string, d: nat)
    requires Reaches(next, id, x) && Recurs(next, x)
    ensures Level(next, [id], d) != []
  {
    var way :| Walk(next, way) && way[0] == id && way[|way| - 1] == x;
    var round := WalkRoundAndRound(next, x, d);
    WalkJoin(next, way, round);
    var c := way + round[1..];
    WalkPart(next, c, 0, d + 1);
    WalkGivesLevel(next, [id], c[0..d + 1]);
  }

  // ---- When it ends ----

  // Every successor is one of finitely many ids.
  ghost predicate Within(next: Next, ids: set<string>) {
    forall x, y | y in next(x) :: y in ids
  }

  // A walk with more steps than there are ids visits one of them twice.
  lemma LongWalkRecurs(next: Next, ids: set<string>, c: seq<string>) returns (x: string)
    requires Within(next, ids) && Walk(next, c) && |c| > |ids| + 1
    ensures Reaches(next, c[0], x) && Recurs(next, x)
  {
    forall k | 1 <= k < |c| ensures c[k] in ids {
      assert Hops(next, c, k);
    }
    assert !NoDup(c[1..]) by {
      if NoDup(c[1..]) {
        NoDupFits(c[1..], ids);
      }
    }
    var i, j := Repetition(c[1..]);
    x := c[i + 1];
    VisitReached(next, c, i + 1);
    VisitedTwice(next, c, i + 1, j + 1);
  }

  ghost predicate RunsEmpty(next: Next, id: string) {
    exists n: nat :: After(next, [id], n) == []
  }

  /** The queue runs empty exactly when nothing reachable is reachable from itself. */
  lemma RunsEmptyExactly(next: Next, ids: set<string>, id: string)
    requires Within(next, ids)
    ensures RunsEmpty(next, id) <==> forall x | Reaches(next, id, x) :: !Recurs(next, x)
  {
    if RunsEmpty(next, id) {
      var n: nat :| After(next, [id], n) == [];
      LevelsRunOut(next, [id], n);
      var d: nat :| d <= n && Level(next, [id], d) == [];
      forall x | Reaches(next, id, x) ensures !Recurs(next, x) {
        if Recurs(next, x) {
          WalksOfEveryLength(next, id, x, d);
        }
      }
    }
    if forall x | Reaches(next, id, x) :: !Recurs(next, x) {
      DeepLevelIsEmpty(next, ids, id);
      var n := QueueRunsOut(next, [id], |ids| + 1);
    }
  }

  lemma DeepLevelIsEmpty(next: Next, ids: set<string>, id: string)
    requires Within(next, ids) && forall x | Reaches(next, id, x) :: !Recurs(next, x)
    ensures Level(next, [id], |ids| + 1) == []
  {
    var level := Level(next, [id], |ids| + 1);
    if level != [] {
      var c := LevelGivesWalk(next, [id], |ids| + 1, level[0]);
      var x := LongWalkRecurs(next, ids, c);
    }
  }
}
