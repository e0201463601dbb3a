/** Coalescing in plain terms: where the entries are cut into runs, and what each run shows. */
module CoalescedRuns {
  import opened Wrappers
  import opened Sequences
  import opened TimelineCoalesce

  // Two activities of one actor and action: always for finished and failed tasks, otherwise within two minutes.
  ghost predicate Joins(a: Entry, b: Entry) {
    && a.kind == Activity && b.kind == Activity && a.action == b.action && a.actor_type == b.actor_type && a.actor_id == b.actor_id
    && b.action != Some("squad_leader_evaluated")
    && (b.action == Some("task_completed") || b.action == Some("task_failed")
        || (a.at.Some? && b.at.Some? && b.at.value - a.at.value <= 120000 && a.at.value - b.at.value <= 120000))
  }

  lemma JoinsExactly(a: Entry, b: Entry)
    ensures Mergeable(a, b) <==> Joins(a, b)
  {
  }

  // The entries from a up to b form a run, shown by its last one; of several the count goes on from the first.
  ghost predicate RunShows(entries: seq<Entry>, a: nat, b: nat, shown: Entry) {
    && a < b <= |entries|
    && (forall j :: a < j < b ==> Joins(entries[j - 1], entries[j]))
    && if b == a + 1 then shown == entries[a]
       else shown == entries[b - 1].(coalesced_count :=
              Some((if entries[a].coalesced_count.Some? then entries[a].coalesced_count.value else 1) + (b - a - 1)))
  }

  // The cuts begin and end the list; between two of them lies a run, and none can be left out.
  ghost predicate CutInto(entries: seq<Entry>, out: seq<Entry>, cuts: seq<nat>) {
    && |cuts| == |out| + 1 && cuts[0] == 0 && cuts[|out|] == |entries|
    && (forall i :: 0 <= i < |out| ==> RunShows(entries, cuts[i], cuts[i + 1], out[i]))
    && (forall c :: c in cuts && 0 < c < |entries| ==> !Joins(entries[c - 1], entries[c]))
  }

  lemma RunStays(entries: seq<Entry>, e: Entry, a: nat, b: nat, shown: Entry)
    requires RunShows(entries, a, b, shown)
    ensures RunShows(entries + [e], a, b, shown)
  {
    forall j | a < j < b ensures Joins((entries + [e])[j - 1], (entries + [e])[j]) {
      assert Joins(entries[j - 1], entries[j]);
    }
  }

  lemma RunGrows(entries: seq<Entry>, e: Entry, a: nat, shown: Entry)
    requires RunShows(entries, a, |entries|, shown) && Joins(entries[|entries| - 1], e)
    ensures RunShows(entries + [e], a, |entries| + 1, e.(coalesced_count := Some(Weight(shown) + 1)))
  {
    forall j | a < j < |entries| + 1 ensures Joins((entries + [e])[j - 1], (entries + [e])[j]) {
      if j < |entries| {
        assert Joins(entries[j - 1], entries[j]);
      }
    }
  }

  lemma NewRun(entries: seq<Entry>, e: Entry, out: seq<Entry>, cuts: seq<nat>)
    requires CutInto(entries, out, cuts) && (entries != [] ==> !Joins(entries[|entries| - 1], e))
    ensures CutInto(entries + [e], out + [e], cuts + [|entries| + 1])
  {
    var n := |entries|;
    var all, shown, more := entries + [e], out + [e], cuts + [n + 1];
    forall i | 0 <= i < |shown| ensures RunShows(all, more[i], more[i + 1], shown[i]) {
      if i < |out| {
        RunStays(entries, e, cuts[i], cuts[i + 1], out[i]);
      }
    }
    forall c | c in more && 0 < c < |all| ensures !Joins(all[c - 1], all[c]) {
      assert c in cuts;
    }
  }

  lemma LongerRun(entries: seq<Entry>, e: Entry, out: seq<Entry>, cuts: seq<nat>)
    requires CutInto(entries, out, cuts) && entries != [] && Joins(entries[|entries| - 1], e)
    ensures out != []
    ensures CutInto(entries + [e], out[..|out| - 1] + [e.(coalesced_count := Some(Weight(Last(out)) + 1))],
                    cuts[..|out|] + [|entries| + 1])
  {
    var n, m := |entries|, |out| - 1;
    var all, shown, more := entries + [e], out[..m] + [e.(coalesced_count := Some(Weight(Last(out)) + 1))], cuts[..m + 1] + [n + 1];
    assert RunShows(entries, cuts[m], cuts[m + 1], out[m]);
    forall i | 0 <= i < |shown| ensures RunShows(all, more[i], more[i + 1], shown[i]) {
      if i < m {
        RunStays(entries, e, cuts[i], cuts[i + 1], out[i]);
      } else {
        RunGrows(entries, e, cuts[m], out[m]);
      }
    }
    forall c | c in more && 0 < c < |all| ensures !Joins(all[c - 1], all[c]) {
      var i :| 0 <= i <= m && more[i] == c;
      assert RunShows(entries, cuts[i], cuts[i + 1], out[i]);
      assert cuts[i] in cuts;
    }
  }

  // The last entry shown differs from the last one given at most in its count.
  lemma LastShown(entries: seq<Entry>, out: seq<Entry>, cuts: seq<nat>, e: Entry)
    requires CutInto(entries, out, cuts) && entries != []
    ensures out != [] && (Mergeable(Last(out), e) <==> Joins(entries[|entries| - 1], e))
  {
    assert RunShows(entries, cuts[|out| - 1], cuts[|out|], out[|out| - 1]);
    JoinsExactly(Last(out), e);
  }

  /** Every list is cut exactly where two neighbours do not join, and each run is shown once. */
  lemma {:induction false} CoalescedIsCut(entries: seq<Entry>) returns (cuts: seq<nat>)
    ensures CutInto(entries, Coalesced(entries), cuts)
  {
    if entries == [] {
      cuts := [0];
    } else {
      var init, e := entries[..|entries| - 1], entries[|entries| - 1];
      LastApart(entries);
      cuts := CoalescedIsCut(init);
      var out := Coalesced(init);
      if init != [] {
        LastShown(init, out, cuts, e);
      }
      if init != [] && Joins(init[|init| - 1], e) {
        LongerRun(init, e, out, cuts);
        cuts := cuts[..|out|] + [|init| + 1];
      } else {
        NewRun(init, e, out, cuts);
        cuts := cuts + [|init| + 1];
      }
    }
  }
}
