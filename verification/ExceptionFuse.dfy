/** The per-session fuse that drops repeated exceptions, over storage that may fail at any access. */
module ExceptionFuse {
  import opened Wrappers
  import opened Sequences

  const SAMPLE_LIMIT := 3
  const MAX_FINGERPRINTS := 50

  // A stored JSON value: the counts this module writes, or whatever else is found.
  datatype Value = Number(n: int) | Other

  datatype Stored = Absent | Corrupt | Counts(m: map<string, Value>)

  // How the storage behaves during one call.
  datatype Access = Works | Missing | ReadFails | WriteFails

  datatype Event = Exception(fingerprint: Option<string>, access: Access) | Cleared | Corrupted

  function Read(stored: Stored): map<string, Value> {
    if stored.Counts? then stored.m else map[]
  }

  function Current(stored: Stored, fp: string): int {
    var counts := Read(stored);
    if fp in counts && counts[fp].Number? then counts[fp].n else 0
  }

  // There is no room for a fingerprint that has no count yet.
  predicate Full(stored: Stored, fp: string) {
    Current(stored, fp) == 0 && |Read(stored)| >= MAX_FINGERPRINTS
  }

  predicate Readable(e: Event) {
    e.Exception? && e.fingerprint.Some? && (e.access == Works || e.access == WriteFails)
  }

  predicate Drops(stored: Stored, e: Event) {
    Readable(e) && Current(stored, e.fingerprint.value) >= SAMPLE_LIMIT
  }

  function After(stored: Stored, e: Event): Stored {
    if e == Cleared then Absent
    else if e == Corrupted then Corrupt
    else if Readable(e) && e.access == Works && !Drops(stored, e) && !Full(stored, e.fingerprint.value) then
      Counts(Read(stored)[e.fingerprint.value := Number(Current(stored, e.fingerprint.value) + 1)])
    else stored
  }

  class Session {
    var stored: Stored

    constructor ()
      ensures stored == Absent
    {
      stored := Absent;
    }

    method ShouldDropException(fingerprint: Option<string>, access: Access) returns (drop: bool)
      modifies this
      ensures drop == Drops(old(stored), Exception(fingerprint, access))
      ensures stored == After(old(stored), Exception(fingerprint, access))
    {
      if fingerprint.None? || access == Missing || access == ReadFails {
        return false;
      }
      var fp := fingerprint.value;
      var counts := match stored case Counts(m) => m case _ => map[];
      var current := if fp in counts && counts[fp].Number? then counts[fp].n else 0;
      if current >= SAMPLE_LIMIT {
        return true;
      }
      if current == 0 && |counts| >= MAX_FINGERPRINTS {
        return false;
      }
      counts := counts[fp := Number(current + 1)];
      if access == Works {
        stored := Counts(counts);
      }
      drop := false;
    }
  }

  // ---- Runs of a session, from its empty storage ----

  function Run(events: seq<Event>): Stored {
    if events == [] then Absent else After(Run(events[..|events| - 1]), events[|events| - 1])
  }

  predicate Of(e: Event, fp: string) {
    e.Exception? && e.fingerprint == Some(fp)
  }

  predicate Dropped(events: seq<Event>, i: nat)
    requires i < |events|
  {
    Drops(Run(events[..i]), events[i])
  }

  function KeptOf(events: seq<Event>, fp: string): nat {
    if events == [] then 0
    else
      var init, last := events[..|events| - 1], events[|events| - 1];
      KeptOf(init, fp) + if Of(last, fp) && !Drops(Run(init), last) then 1 else 0
  }

  function OccurrencesOf(events: seq<Event>, fp: string): nat {
    if events == [] then 0
    else OccurrencesOf(events[..|events| - 1], fp) + if Of(events[|events| - 1], fp) then 1 else 0
  }

  lemma {:induction false} CountedWereKept(events: seq<Event>, fp: string)
    ensures Current(Run(events), fp) <= KeptOf(events, fp)
  {
    if events != [] {
      CountedWereKept(events[..|events| - 1], fp);
    }
  }

  /** However the storage fails, an exception is dropped only after three like it were kept. */
  lemma DropsOnlyRepeats(events: seq<Event>, i: nat)
    requires i < |events| && Dropped(events, i)
    ensures events[i].Exception? && events[i].fingerprint.Some?
    ensures KeptOf(events[..i], events[i].fingerprint.value) >= 3
  {
    CountedWereKept(events[..i], events[i].fingerprint.value);
  }

  ghost predicate Bounded(stored: Stored) {
    && |Read(stored)| <= MAX_FINGERPRINTS
    && forall fp | fp in Read(stored) :: Read(stored)[fp].Number? && 1 <= Read(stored)[fp].n <= SAMPLE_LIMIT
  }

  lemma StepBounded(stored: Stored, e: Event)
    requires Bounded(stored)
    ensures Bounded(After(stored, e))
  {
    if Readable(e) && e.access == Works && !Drops(stored, e) && !Full(stored, e.fingerprint.value) {
      var fp := e.fingerprint.value;
      var now := After(stored, e);
      assert now.m.Keys == Read(stored).Keys + {fp};
      if fp in Read(stored) {
        assert now.m.Keys == Read(stored).Keys;
      }
      assert |now.m| == |now.m.Keys| && |Read(stored)| == |Read(stored).Keys|;
    }
  }

  /** Counts stay between one and three, and at most fifty fingerprints are tracked. */
  lemma {:induction false} RunBounded(events: seq<Event>)
    ensures Bounded(Run(events))
    ensures var counts := Read(Run(events)); |counts| <= 50 && forall fp | fp in counts :: counts[fp] in {Number(1), Number(2), Number(3)}
  {
    if events != [] {
      RunBounded(events[..|events| - 1]);
      StepBounded(Run(events[..|events| - 1]), events[|events| - 1]);
    }
  }

  /**
   What a call answers and leaves, in numbers: it drops what was counted three
   times, and counts everything else, unless it is new while fifty are counted.
   */
  lemma CallLeaves(stored: Stored, fp: string, access: Access)
    ensures var e := Exception(Some(fp), access);
            var counts := if stored.Counts? then stored.m else map[];
            var n := if fp in counts && counts[fp].Number? then counts[fp].n else 0;
            && (Drops(stored, e) <==> (access == Works || access == WriteFails) && n >= 3)
            && After(stored, e) == if access == Works && n < 3 && (n != 0 || |counts| < 50) then Counts(counts[fp := Number(n + 1)])
                                   else stored
  {
  }

  // ---- Reliable storage ----

  predicate Reliable(events: seq<Event>) {
    forall e | e in events :: e.Exception? && e.access == Works
  }

  // The fingerprints of a run, in the order of their first occurrence.
  function Seen(events: seq<Event>): seq<string> {
    if events == [] then []
    else
      var init, last := Seen(events[..|events| - 1]), events[|events| - 1];
      if last.Exception? && last.fingerprint.Some? && last.fingerprint.value !in init then init + [last.fingerprint.value] else init
  }

  // The first fifty fingerprints.
  function Tracked(events: seq<Event>): seq<string> {
    if |Seen(events)| <= MAX_FINGERPRINTS then Seen(events) else Seen(events)[..MAX_FINGERPRINTS]
  }

  function Min(a: nat, b: nat): nat {
    if a < b then a else b
  }

  lemma {:induction false} SeenNoDup(events: seq<Event>)
    ensures NoDup(Seen(events))
  {
    if events != [] {
      var init, last := events[..|events| - 1], events[|events| - 1];
      SeenNoDup(init);
      if last.Exception? && last.fingerprint.Some? {
        NoDupOne(Seen(init), last.fingerprint.value);
      }
    }
  }

  lemma {:induction false} SeenOccurs(events: seq<Event>, fp: string)
    ensures fp in Seen(events) <==> OccurrencesOf(events, fp) > 0
  {
    if events != [] {
      SeenOccurs(events[..|events| - 1], fp);
    }
  }

  lemma TrackedNoDup(events: seq<Event>)
    ensures NoDup(Tracked(events))
  {
    SeenNoDup(events);
    if |Seen(events)| > MAX_FINGERPRINTS {
      TwoParts(Seen(events), MAX_FINGERPRINTS);
      NoDupConcat(Seen(events)[..MAX_FINGERPRINTS], Seen(events)[MAX_FINGERPRINTS..]);
    }
  }

  // The counts after a reliable run: each tracked fingerprint with its capped number of occurrences.
  ghost predicate Faithful(events: seq<Event>) {
    var counts := Read(Run(events));
    && counts.Keys == Elements(Tracked(events))
    && forall fp | fp in counts :: counts[fp] == Number(Min(SAMPLE_LIMIT, OccurrencesOf(events, fp)))
  }

  lemma SeenGrows(events: seq<Event>)
    requires events != []
    ensures forall fp | fp in Tracked(events[..|events| - 1]) :: fp in Tracked(events)
    ensures forall fp | fp in Tracked(events) && fp !in Tracked(events[..|events| - 1]) ::
              Of(events[|events| - 1], fp) && |Seen(events[..|events| - 1])| < MAX_FINGERPRINTS
    ensures forall fp | Of(events[|events| - 1], fp) && |Seen(events[..|events| - 1])| < MAX_FINGERPRINTS :: fp in Tracked(events)
  {
    var init := Seen(events[..|events| - 1]);
    assert Seen(events) != init ==> Seen(events)[..|init|] == init;
    if |init| >= MAX_FINGERPRINTS {
      assert Seen(events)[..MAX_FINGERPRINTS] == init[..MAX_FINGERPRINTS];
      assert Tracked(events) == Tracked(events[..|events| - 1]);
    }
  }

  lemma TrackedSize(events: seq<Event>)
    requires Faithful(events)
    ensures |Read(Run(events))| == Min(MAX_FINGERPRINTS, |Seen(events)|)
  {
    TrackedNoDup(events);
    SizeCountsDistinct(Tracked(events));
    assert |Read(Run(events))| == |Read(Run(events)).Keys|;
  }

  predicate HasRoom(events: seq<Event>) {
    |Seen(events)| < MAX_FINGERPRINTS
  }

  // The fingerprint that an event brings in while there is room.
  function Joining(e: Event, room: bool): set<string> {
    if e.Exception? && e.fingerprint.Some? && room then {e.fingerprint.value} else {}
  }

  lemma TrackedStep(events: seq<Event>)
    requires events != []
    ensures Elements(Tracked(events))
         == Elements(Tracked(events[..|events| - 1])) + Joining(events[|events| - 1], HasRoom(events[..|events| - 1]))
  {
    SeenGrows(events);
  }

  lemma PresentIsPositive(events: seq<Event>, fp: string)
    requires Faithful(events) && fp in Read(Run(events))
    ensures 1 <= Current(Run(events), fp) <= SAMPLE_LIMIT
  {
    SeenOccurs(events, fp);
    assert fp in Elements(Tracked(events));
    assert fp in Seen(events);
  }

  lemma AfterKeys(stored: Stored, fp: string)
    requires Bounded(stored)
    ensures Read(After(stored, Exception(Some(fp), Works))).Keys
         == Read(stored).Keys + if |Read(stored)| < MAX_FINGERPRINTS then {fp} else {}
  {
    if fp in Read(stored) {
      assert Read(stored).Keys + {fp} == Read(stored).Keys;
    }
  }

  lemma KeysStep(stored: Stored, e: Event, room: bool)
    requires Bounded(stored) && e.Exception? && e.access == Works
    requires room <==> |Read(stored)| < MAX_FINGERPRINTS
    ensures Read(After(stored, e)).Keys == Read(stored).Keys + Joining(e, room)
  {
    if e.fingerprint.Some? {
      AfterKeys(stored, e.fingerprint.value);
      assert e == Exception(Some(e.fingerprint.value), Works);
    }
  }

  lemma ValuesStep(events: seq<Event>, fp: string)
    requires events != [] && Faithful(events[..|events| - 1]) && fp in Read(Run(events))
    requires events[|events| - 1].Exception? && events[|events| - 1].access == Works
    ensures Read(Run(events))[fp] == Number(Min(SAMPLE_LIMIT, OccurrencesOf(events, fp)))
  {
    var init, last := events[..|events| - 1], events[|events| - 1];
    if fp in Read(Run(init)) {
      PresentIsPositive(init, fp);
    } else {
      TrackedSize(init);
      SeenOccurs(init, fp);
      assert fp !in Elements(Tracked(init));
    }
  }

  lemma KeysFollow(events: seq<Event>)
    requires events != [] && Faithful(events[..|events| - 1])
    requires events[|events| - 1].Exception? && events[|events| - 1].access == Works
    ensures Read(Run(events)).Keys == Elements(Tracked(events))
  {
    var init, last := events[..|events| - 1], events[|events| - 1];
    assert HasRoom(init) <==> |Read(Run(init))| < MAX_FINGERPRINTS by {
      TrackedSize(init);
    }
    RunBounded(init);
    KeysStep(Run(init), last, HasRoom(init));
    TrackedStep(events);
  }

  lemma FaithfulStep(events: seq<Event>)
    requires events != [] && Faithful(events[..|events| - 1])
    requires events[|events| - 1].Exception? && events[|events| - 1].access == Works
    ensures Faithful(events)
  {
    KeysFollow(events);
    forall fp | fp in Read(Run(events)) ensures Read(Run(events))[fp] == Number(Min(SAMPLE_LIMIT, OccurrencesOf(events, fp))) {
      ValuesStep(events, fp);
    }
  }

  lemma {:induction false} ReliableIsFaithful(events: seq<Event>)
    requires Reliable(events)
    ensures Faithful(events)
  {
    if events != [] {
      InitLast(events);
      ReliableIsFaithful(events[..|events| - 1]);
      FaithfulStep(events);
    }
  }

  /**
   With storage that works, the first fifty fingerprints keep exactly their first
   three occurrences, and all later fingerprints keep every one.
   */
  lemma {:induction false} KeepsFirstThree(events: seq<Event>, fp: string)
    requires Reliable(events)
    ensures var n := OccurrencesOf(events, fp);
            KeptOf(events, fp) == if fp in Tracked(events) && n > 3 then 3 else n
    ensures Tracked(events) == if |Seen(events)| < 50 then Seen(events) else Seen(events)[..50]
  {
    if events != [] {
      var init, last := events[..|events| - 1], events[|events| - 1];
      InitLast(events);
      KeepsFirstThree(init, fp);
      ReliableIsFaithful(init);
      SeenGrows(events);
      SeenOccurs(init, fp);
      assert fp in Tracked(init) <==> fp in Read(Run(init));
      assert fp in Tracked(init) ==> fp in Seen(init);
      if Of(last, fp) && fp !in Tracked(init) && |Seen(init)| < MAX_FINGERPRINTS {
        assert Tracked(init) == Seen(init);
      }
    }
  }

  // ---- Other fingerprints ----

  predicate Concerns(e: Event, fp: string) {
    !e.Exception? || e.fingerprint == Some(fp)
  }

  // The run as it would be without exceptions of other fingerprints.
  function Only(events: seq<Event>, fp: string): seq<Event> {
    if events == [] then []
    else Only(events[..|events| - 1], fp) + (if Concerns(events[|events| - 1], fp) then [events[|events| - 1]] else [])
  }

  lemma AloneFits(stored: Stored, e: Event, fp: string)
    requires Read(stored).Keys <= {fp} && Concerns(e, fp)
    ensures Read(After(stored, e)).Keys <= {fp} && !Full(stored, fp)
  {
    SubsetSize(Read(stored).Keys, {fp});
    assert |Read(stored)| == |Read(stored).Keys|;
  }

  lemma RunAppend(events: seq<Event>, e: Event)
    ensures Run(events + [e]) == After(Run(events), e)
  {
    assert (events + [e])[..|events|] == events;
  }

  // Next to a session that sees this fingerprint alone.
  lemma LowerStep(stored: Stored, alone: Stored, e: Event, fp: string)
    requires Bounded(stored) && Read(alone).Keys <= {fp} && Current(stored, fp) <= Current(alone, fp)
    ensures Concerns(e, fp) ==> Current(After(stored, e), fp) <= Current(After(alone, e), fp)
    ensures !Concerns(e, fp) ==> Current(After(stored, e), fp) <= Current(alone, fp)
  {
    if Concerns(e, fp) {
      AloneFits(alone, e, fp);
    }
  }

  lemma {:induction false} OthersOnlyLower(events: seq<Event>, fp: string)
    ensures Read(Run(Only(events, fp))).Keys <= {fp}
    ensures Current(Run(events), fp) <= Current(Run(Only(events, fp)), fp)
  {
    if events != [] {
      var init, last := events[..|events| - 1], events[|events| - 1];
      OthersOnlyLower(init, fp);
      RunBounded(init);
      LowerStep(Run(init), Run(Only(init, fp)), last, fp);
      if Concerns(last, fp) {
        RunAppend(Only(init, fp), last);
        AloneFits(Run(Only(init, fp)), last, fp);
      } else {
        assert Only(events, fp) == Only(init, fp);
      }
    }
  }

  /** Exceptions of other fingerprints can turn a drop into a keep, never a keep into a drop. */
  lemma OthersNeverCauseDrops(events: seq<Event>, i: nat, fp: string)
    requires i < |events| && Of(events[i], fp) && Dropped(events, i)
    ensures Drops(Run(Only(events[..i], fp)), events[i])
  {
    OthersOnlyLower(events[..i], fp);
  }
}
