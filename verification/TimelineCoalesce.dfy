/** Run-length coalescing of activity entries in the mobile timeline. */
module TimelineCoalesce {
  import opened Wrappers
  import opened Sequences

  datatype Kind = Activity | Comment

  // `at` is the parsed time in milliseconds, absent when it does not parse.
  datatype Entry = Entry(kind: Kind, id: string, action: Option<string>, actor_type: string, actor_id: string,
                         at: Option<int>, coalesced_count: Option<int>)

  const COALESCE_MS := 2 * 60 * 1000
  const COMPLETED := "task_completed"
  const FAILED := "task_failed"
  const EVALUATED := "squad_leader_evaluated"

  predicate Close(a: Option<int>, b: Option<int>) {
    a.Some? && b.Some? && -COALESCE_MS <= a.value - b.value <= COALESCE_MS
  }

  predicate Same(a: Entry, b: Entry) {
    a.kind == b.kind && a.action == b.action && a.actor_type == b.actor_type && a.actor_id == b.actor_id
  }

  // Each of these stands for itself in the timeline.
  predicate Solitary(e: Entry) {
    e.kind == Comment || e.action == Some(EVALUATED)
  }

  predicate Mergeable(prev: Entry, entry: Entry) {
    && !Solitary(entry) && Same(prev, entry)
    && (entry.action == Some(COMPLETED) || entry.action == Some(FAILED) || Close(entry.at, prev.at))
  }

  function Weight(e: Entry): int {
    e.coalesced_count.GetOr(1)
  }

  function Last<T>(q: seq<T>): T
    requires q != []
  {
    q[|q| - 1]
  }

  function Step(out: seq<Entry>, entry: Entry): seq<Entry> {
    if out != [] && Mergeable(Last(out), entry)
    then out[..|out| - 1] + [entry.(coalesced_count := Some(Weight(Last(out)) + 1))]
    else out + [entry]
  }

  function Coalesced(entries: seq<Entry>): seq<Entry> {
    if entries == [] then [] else Step(Coalesced(entries[..|entries| - 1]), Last(entries))
  }

  lemma CoalescedNext(entries: seq<Entry>, i: nat)
    requires i < |entries|
    ensures Coalesced(entries[..i + 1]) == Step(Coalesced(entries[..i]), entries[i])
  {
    assert entries[..i + 1][..i] == entries[..i];
  }

  method MergesInto(prev: Entry, entry: Entry) returns (merges: bool)
    ensures merges == Mergeable(prev, entry)
  {
    if entry.kind != Activity || entry.action == Some(EVALUATED) {
      return false;
    }
    merges := prev.kind == Activity && prev.action == entry.action && prev.actor_type == entry.actor_type
              && prev.actor_id == entry.actor_id
              && (entry.action == Some(COMPLETED) || entry.action == Some(FAILED) || Close(entry.at, prev.at));
  }

  lemma ReplaceLast<T>(q: seq<T>, x: T)
    requires q != []
    ensures q[|q| - 1 := x] == q[..|q| - 1] + [x]
  {
  }

  method MergeOrPush(before: seq<Entry>, entry: Entry) returns (out: seq<Entry>)
    ensures out == Step(before, entry)
  {
    var merges := false;
    if |before| > 0 {
      merges := MergesInto(before[|before| - 1], entry);
    }
    if merges {
      var merged := entry.(coalesced_count := Some(Weight(before[|before| - 1]) + 1));
      ReplaceLast(before, merged);
      out := before[|before| - 1 := merged];
    } else {
      out := before + [entry];
    }
  }

  method CoalesceTimeline(entries: seq<Entry>) returns (out: seq<Entry>)
    ensures out == Coalesced(entries)
  {
    out := [];
    for i := 0 to |entries|
      invariant out == Coalesced(entries[..i])
    {
      CoalescedNext(entries, i);
      out := MergeOrPush(out, entries[i]);
    }
    assert entries[..|entries|] == entries;
  }

  // ---- Runs ----

  // Consecutive entries, at least one.
  datatype Run = Run(earlier: seq<Entry>, last: Entry) {
    function First(): Entry {
      if earlier == [] then last else earlier[0]
    }

    function Entries(): seq<Entry> {
      earlier + [last]
    }

    // Each entry merges into the one before it.
    predicate Merging()
      decreases |earlier|
    {
      earlier == [] || (Mergeable(Last(earlier), last) && Shorter().Merging())
    }

    function Shorter(): (r: Run)
      requires earlier != []
      ensures r.Entries() == earlier && r.First() == First()
    {
      Run(earlier[..|earlier| - 1], Last(earlier))
    }

    // The run shows as its last entry, counting what the first one counted plus one for every further entry.
    function Summary(): Entry {
      if earlier == [] then last else last.(coalesced_count := Some(Weight(First()) + |earlier|))
    }
  }

  function Flatten(runs: seq<Run>): seq<Entry> {
    if runs == [] then [] else Flatten(runs[..|runs| - 1]) + Last(runs).Entries()
  }

  // Every run merges, and no run merges into the one before it.
  predicate Maximal(runs: seq<Run>) {
    runs == []
    || (Last(runs).Merging() && Maximal(runs[..|runs| - 1])
        && (|runs| > 1 ==> !Mergeable(runs[|runs| - 2].last, Last(runs).First())))
  }

  function Summaries(runs: seq<Run>): seq<Entry> {
    Map((run: Run) => run.Summary(), runs)
  }

  lemma SummariesAppend(runs: seq<Run>, run: Run)
    ensures Summaries(runs + [run]) == Summaries(runs) + [run.Summary()]
    ensures Flatten(runs + [run]) == Flatten(runs) + run.Entries()
  {
    assert (runs + [run])[..|runs|] == runs;
  }

  lemma MaximalAppend(runs: seq<Run>, run: Run)
    ensures Maximal(runs + [run]) <==>
            run.Merging() && Maximal(runs) && (runs != [] ==> !Mergeable(Last(runs).last, run.First()))
  {
    assert (runs + [run])[..|runs|] == runs;
  }

  lemma SummaryMerges(run: Run, entry: Entry)
    ensures Mergeable(run.Summary(), entry) <==> Mergeable(run.last, entry)
    ensures Mergeable(entry, run.Summary()) <==> Mergeable(entry, run.last)
  {
  }

  lemma CoalescedAppend(entries: seq<Entry>, entry: Entry)
    ensures Coalesced(entries + [entry]) == Step(Coalesced(entries), entry)
  {
    assert (entries + [entry])[..|entries|] == entries;
  }

  // The runs with one more entry at the end.
  function Grow(runs: seq<Run>, entry: Entry): seq<Run> {
    if runs != [] && Mergeable(Last(runs).last, entry)
    then runs[..|runs| - 1] + [Run(Last(runs).Entries(), entry)]
    else runs + [Run([], entry)]
  }

  lemma LongerMerges(run: Run, entry: Entry)
    requires run.Merging() && Mergeable(run.last, entry)
    ensures Run(run.Entries(), entry).Merging() && Run(run.Entries(), entry).First() == run.First()
  {
    assert Run(run.Entries(), entry).Shorter() == run by {
      assert run.Entries()[..|run.earlier|] == run.earlier;
    }
  }

  lemma GrowMaximal(runs: seq<Run>, entry: Entry)
    requires Maximal(runs)
    ensures Maximal(Grow(runs, entry))
  {
    if runs != [] && Mergeable(Last(runs).last, entry) {
      var init, run := runs[..|runs| - 1], Last(runs);
      assert runs == init + [run];
      MaximalAppend(init, run);
      LongerMerges(run, entry);
      MaximalAppend(init, Run(run.Entries(), entry));
    } else {
      MaximalAppend(runs, Run([], entry));
    }
  }

  lemma GrowFlatten(runs: seq<Run>, entry: Entry)
    ensures Flatten(Grow(runs, entry)) == Flatten(runs) + [entry]
  {
    if runs != [] && Mergeable(Last(runs).last, entry) {
      SummariesAppend(runs[..|runs| - 1], Run(Last(runs).Entries(), entry));
    } else {
      SummariesAppend(runs, Run([], entry));
    }
  }

  lemma GrowSummaries(runs: seq<Run>, entry: Entry)
    ensures Summaries(Grow(runs, entry)) == Step(Summaries(runs), entry)
  {
    if runs != [] {
      var init, run := runs[..|runs| - 1], Last(runs);
      assert runs == init + [run];
      SummariesAppend(init, run);
      SummaryMerges(run, entry);
      SummariesAppend(init, Run(run.Entries(), entry));
    }
    SummariesAppend(runs, Run([], entry));
  }

  // Maximal runs come about by growing.
  lemma Ungrow(runs: seq<Run>) returns (before: seq<Run>)
    requires Maximal(runs) && runs != []
    ensures Maximal(before) && Grow(before, Last(runs).last) == runs
  {
    var init, run := runs[..|runs| - 1], Last(runs);
    assert runs == init + [run];
    MaximalAppend(init, run);
    if run.earlier == [] {
      before := init;
    } else {
      before := init + [run.Shorter()];
      MaximalAppend(init, run.Shorter());
      assert before[..|init|] == init;
    }
  }

  /** Coalescing keeps one entry for each maximal run: the list of the runs' summaries. */
  lemma {:induction false} CoalescedIsSummaries(runs: seq<Run>)
    requires Maximal(runs)
    ensures Coalesced(Flatten(runs)) == Summaries(runs)
    decreases |Flatten(runs)|
  {
    if runs != [] {
      var entry := Last(runs).last;
      var before := Ungrow(runs);
      GrowFlatten(before, entry);
      GrowSummaries(before, entry);
      CoalescedAppend(Flatten(before), entry);
      CoalescedIsSummaries(before);
    }
  }

  lemma GrowBoth(runs: seq<Run>, entry: Entry) returns (more: seq<Run>)
    requires Maximal(runs)
    ensures Maximal(more) && Flatten(more) == Flatten(runs) + [entry]
  {
    more := Grow(runs, entry);
    GrowMaximal(runs, entry);
    GrowFlatten(runs, entry);
  }

  /** Every list consists of maximal runs. */
  lemma {:induction false} RunsExist(entries: seq<Entry>) returns (runs: seq<Run>)
    ensures Maximal(runs) && Flatten(runs) == entries
  {
    if entries == [] {
      runs := [];
    } else {
      runs := RunsExist(entries[..|entries| - 1]);
      runs := GrowBoth(runs, Last(entries));
      assert entries == entries[..|entries| - 1] + [Last(entries)];
    }
  }

  // ---- What survives ----

  function TotalWeight(entries: seq<Entry>): int {
    if entries == [] then 0 else TotalWeight(entries[..|entries| - 1]) + Weight(Last(entries))
  }

  predicate Uncounted(entries: seq<Entry>) {
    forall e | e in entries :: e.coalesced_count == None
  }

  lemma StepWeight(out: seq<Entry>, entry: Entry)
    requires entry.coalesced_count == None
    ensures TotalWeight(Step(out, entry)) == TotalWeight(out) + 1
  {
    var next := Step(out, entry);
    assert next[..|next| - 1] == if out != [] && Mergeable(Last(out), entry) then out[..|out| - 1] else out;
  }

  /** The counts of the result add up to the number of entries. */
  lemma {:induction false} CountsConserved(entries: seq<Entry>)
    requires Uncounted(entries)
    ensures TotalWeight(Coalesced(entries)) == |entries|
  {
    if entries != [] {
      InitLast(entries);
      CountsConserved(entries[..|entries| - 1]);
      StepWeight(Coalesced(entries[..|entries| - 1]), Last(entries));
    }
  }

  function Solitaries(entries: seq<Entry>): seq<Entry> {
    if entries == [] then []
    else Solitaries(entries[..|entries| - 1]) + if Solitary(Last(entries)) then [Last(entries)] else []
  }

  lemma StepSolitary(out: seq<Entry>, entry: Entry)
    ensures Solitaries(Step(out, entry)) == Solitaries(out) + if Solitary(entry) then [entry] else []
  {
    var next := Step(out, entry);
    assert next[..|next| - 1] == if out != [] && Mergeable(Last(out), entry) then out[..|out| - 1] else out;
  }

  /** Comments and squad leader evaluations come through unchanged, one for one and in order. */
  lemma {:induction false} SolitariesSurvive(entries: seq<Entry>)
    ensures Solitaries(Coalesced(entries)) == Solitaries(entries)
  {
    if entries != [] {
      SolitariesSurvive(entries[..|entries| - 1]);
      StepSolitary(Coalesced(entries[..|entries| - 1]), Last(entries));
    }
  }

  // ---- Coalescing again ----

  ghost predicate Separated(entries: seq<Entry>) {
    forall i | 0 < i < |entries| :: !Mergeable(entries[i - 1], entries[i])
  }

  lemma StepSize(out: seq<Entry>, entry: Entry)
    ensures |Step(out, entry)| == |out| + if out != [] && Mergeable(Last(out), entry) then 0 else 1
  {
  }

  lemma {:induction false} SizeOnlyShrinks(entries: seq<Entry>)
    ensures |Coalesced(entries)| <= |entries|
  {
    if entries != [] {
      SizeOnlyShrinks(entries[..|entries| - 1]);
    }
  }

  lemma SeparatedAppend(entries: seq<Entry>, entry: Entry)
    ensures Separated(entries + [entry]) <==> Separated(entries) && (entries != [] ==> !Mergeable(Last(entries), entry))
  {
    var all := entries + [entry];
    if Separated(all) {
      forall i | 0 < i < |entries| ensures !Mergeable(entries[i - 1], entries[i]) {
        assert !Mergeable(all[i - 1], all[i]);
      }
      if entries != [] {
        assert !Mergeable(all[|entries| - 1], all[|entries|]);
      }
    }
  }

  /** Coalescing leaves a list alone exactly when no two neighbours merge. */
  lemma {:induction false} UnchangedExactlyWhenSeparated(entries: seq<Entry>)
    ensures Coalesced(entries) == entries <==> Separated(entries)
  {
    if entries != [] {
      var init := entries[..|entries| - 1];
      UnchangedExactlyWhenSeparated(init);
      SizeOnlyShrinks(init);
      assert entries == init + [Last(entries)];
      SeparatedAppend(init, Last(entries));
      StepSize(Coalesced(init), Last(entries));
      if Coalesced(entries) == entries {
        KeptPrefix(Coalesced(init), init, Last(entries));
      }
    }
  }

  lemma KeptPrefix(out: seq<Entry>, init: seq<Entry>, entry: Entry)
    requires |out| <= |init| && Step(out, entry) == init + [entry]
    ensures out == init
  {
    StepSize(out, entry);
    assert init == (init + [entry])[..|init|] == out;
  }

  // Every time parses and no entry is older than the one before it.
  predicate Ascending(entries: seq<Entry>) {
    entries == []
    || (Last(entries).at.Some? && Ascending(entries[..|entries| - 1])
        && (|entries| > 1 ==> NotLater(entries[|entries| - 2], Last(entries))))
  }

  predicate NotLater(a: Entry, b: Entry) {
    a.at.Some? && b.at.Some? && a.at.value <= b.at.value
  }

  lemma {:induction false} AscendingConcat(a: seq<Entry>, b: seq<Entry>)
    requires Ascending(a + b)
    ensures Ascending(a) && Ascending(b)
    ensures a != [] && b != [] ==> NotLater(Last(a), b[0])
  {
    if b == [] {
      assert a + b == a;
    } else {
      assert (a + b)[..|a + b| - 1] == a + b[..|b| - 1];
      AscendingConcat(a, b[..|b| - 1]);
    }
  }

  lemma {:induction false} RunAgrees(run: Run)
    requires run.Merging() && Ascending(run.Entries())
    ensures Same(run.First(), run.last) && NotLater(run.First(), run.last)
    decreases |run.earlier|
  {
    if run.earlier != [] {
      assert run.Entries()[..|run.earlier|] == run.earlier;
      RunAgrees(run.Shorter());
    }
  }

  // What is apart from a run's first entry is apart from its last, when time only moves on.
  lemma StillApart(a: Entry, run: Run)
    requires run.Merging() && Ascending(run.Entries())
    requires !Mergeable(a, run.First()) && NotLater(a, run.First())
    ensures !Mergeable(a, run.last)
  {
    RunAgrees(run);
  }

  // No run ends with an entry that merges into the last entry of the run before it.
  ghost predicate EndsApart(runs: seq<Run>) {
    forall i | 0 < i < |runs| :: !Mergeable(runs[i - 1].last, runs[i].last)
  }

  lemma EndsApartAppend(runs: seq<Run>, run: Run)
    ensures EndsApart(runs + [run]) <==> EndsApart(runs) && (runs != [] ==> !Mergeable(Last(runs).last, run.last))
  {
    var all := runs + [run];
    if EndsApart(all) {
      forall i | 0 < i < |runs| ensures !Mergeable(runs[i - 1].last, runs[i].last) {
        assert !Mergeable(all[i - 1].last, all[i].last);
      }
      if runs != [] {
        assert !Mergeable(all[|runs| - 1].last, all[|runs|].last);
      }
    }
  }

  lemma {:induction false} SummariesSeparatedExactly(runs: seq<Run>)
    ensures Separated(Summaries(runs)) <==> EndsApart(runs)
  {
    if runs != [] {
      var init, run := runs[..|runs| - 1], Last(runs);
      assert runs == init + [run];
      SummariesAppend(init, run);
      SummariesSeparatedExactly(init);
      SeparatedAppend(Summaries(init), run.Summary());
      EndsApartAppend(init, run);
      if init != [] {
        SummaryMerges(Last(init), run.Summary());
        SummaryMerges(run, Last(init).last);
      }
    }
  }

  /** Coalescing again changes nothing exactly when no run of the input ends mergeable with the end of the one before. */
  lemma StableExactly(runs: seq<Run>)
    requires Maximal(runs)
    ensures Coalesced(Coalesced(Flatten(runs))) == Coalesced(Flatten(runs)) <==> EndsApart(runs)
    ensures Separated(Coalesced(Flatten(runs))) <==> EndsApart(runs)
  {
    CoalescedIsSummaries(runs);
    SummariesSeparatedExactly(runs);
    UnchangedExactlyWhenSeparated(Coalesced(Flatten(runs)));
  }

  lemma LastStillApart(init: seq<Run>, run: Run)
    requires init != [] && Maximal(init + [run]) && Ascending(Flatten(init) + run.Entries())
    ensures Ascending(Flatten(init)) && Maximal(init) && !Mergeable(Last(init).last, run.last)
  {
    MaximalAppend(init, run);
    AscendingConcat(Flatten(init), run.Entries());
    LastOfFlatten(init);
    StillApart(Last(init).last, run);
  }

  lemma LastOfFlatten(runs: seq<Run>)
    requires runs != []
    ensures Flatten(runs) != [] && Last(Flatten(runs)) == Last(runs).last
  {
  }

  lemma {:induction false} AscendingEndsApart(runs: seq<Run>)
    requires Maximal(runs) && Ascending(Flatten(runs))
    ensures EndsApart(runs)
  {
    if |runs| > 1 {
      var init, run := runs[..|runs| - 1], Last(runs);
      assert runs == init + [run];
      SummariesAppend(init, run);
      LastStillApart(init, run);
      AscendingEndsApart(init);
      EndsApartAppend(init, run);
    }
  }

  /** In ascending time that is always so: no two entries of the result merge. */
  lemma CoalescedIsStable(entries: seq<Entry>)
    requires Ascending(entries)
    ensures Separated(Coalesced(entries))
    ensures Coalesced(Coalesced(entries)) == Coalesced(entries)
  {
    var runs := RunsExist(entries);
    AscendingEndsApart(runs);
    StableExactly(runs);
  }

  /** Out of order this fails: a run can end closer to its neighbour than it began. */
  lemma DisorderIsNotStable(a: Entry, b: Entry, c: Entry)
    requires Same(a, b) && Same(b, c) && !Solitary(a) && a.action != Some(COMPLETED) && a.action != Some(FAILED)
    requires a.at == Some(0) && b.at == Some(COALESCE_MS + 1) && c.at == Some(COALESCE_MS)
    ensures Coalesced(Coalesced([a, b, c])) != Coalesced([a, b, c])
  {
    assert [a, b, c][..2] == [a, b] && [a, b][..1] == [a] && [a][..0] == [];
    assert Coalesced([a]) == [a];
    assert Coalesced([a, b]) == [a, b];
    var out := Coalesced([a, b, c]);
    assert out[0] == a && Mergeable(out[0], out[1]);
    UnchangedExactlyWhenSeparated(out);
  }
}
