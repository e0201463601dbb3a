/**
 The binary buffer of a catalogue asset and the GLB container around it: buffer
 views as section 3.6.2.4 of the glTF 2.0 Specification aligns them, and the
 header and chunk layout of its section 4.4.
 */
module GlbContainer {
  import opened Wrappers
  import opened GlbBytes

  datatype View = View(offset: nat, length: nat, target: nat)

  datatype Kind = Scalar | Vector3

  datatype Accessor = Accessor(view: nat, componentType: nat, count: nat, kind: Kind, min: seq<real>, max: seq<real>)

  const ARRAY_BUFFER := 34962
  const ELEMENT_ARRAY_BUFFER := 34963
  const FLOAT := 5126
  const UNSIGNED_INT := 5125

  // ---- Layout of the buffer ----

  // A 4-aligned view of whole words inside a buffer of the given size.
  predicate Fits(v: View, size: nat) {
    v.offset % 4 == 0 && v.length % 4 == 0 && v.offset + v.length <= size
  }

  ghost predicate Aligned(views: seq<View>, size: nat) {
    forall i :: 0 <= i < |views| ==> Fits(views[i], size)
  }

  ghost predicate Disjoint(views: seq<View>) {
    forall i, j :: 0 <= i < j < |views| ==> views[i].offset + views[i].length <= views[j].offset
  }

  // What a reader finds behind a view.
  function ReadView(bin: seq<Byte>, v: View): seq<Word>
    requires v.offset + v.length <= |bin|
  {
    Decode(bin[v.offset..v.offset + v.length])
  }

  /** The binary chunk under construction with the views and accessors that point into it. */
  class Buffer {
    var bin: seq<Byte>
    var views: seq<View>
    var accessors: seq<Accessor>
    // The words each accessor was made from.
    ghost var contents: seq<seq<Word>>

    ghost predicate Valid()
      reads this
    {
      && |views| == |accessors| == |contents|
      && Aligned(views, |bin|)
      && Disjoint(views)
      && (forall i :: 0 <= i < |accessors| ==> accessors[i].view == i)
      && (forall i :: 0 <= i < |views| ==> ReadView(bin, views[i]) == contents[i])
    }

    constructor ()
      ensures Valid() && contents == [] && bin == []
    {
      bin, views, accessors, contents := [], [], [], [];
    }

    method Align4()
      requires Valid()
      modifies this`bin
      ensures Valid() && |bin| % 4 == 0
      ensures old(bin) <= bin && |bin| < |old(bin)| + 4
      ensures forall i :: |old(bin)| <= i < |bin| ==> bin[i] == 0
    {
      ghost var end := |bin| + Missing(|bin|);
      while |bin| % 4 != 0
        invariant old(bin) <= bin && |bin| <= end
        invariant forall i :: |old(bin)| <= i < |bin| ==> bin[i] == 0
        decreases end - |bin|
      {
        bin := bin + [0];
      }
      ViewsSurvive(old(bin), bin, views);
    }

    // Writes the words behind a fresh aligned view.
    method AppendWords(values: seq<Word>, target: nat, componentType: nat, count: nat, kind: Kind, min: seq<real>, max: seq<real>)
      returns (accessor: nat)
      requires Valid()
      modifies this
      ensures Valid()
      ensures old(bin) <= bin
      ensures contents == old(contents) + [values]
      ensures accessor == |old(accessors)|
      ensures old(views) <= views && accessor < |views| && views[accessor].target == target
      ensures accessors == old(accessors) + [Accessor(accessor, componentType, count, kind, min, max)]
    {
      Align4();
      var offset := |bin|;
      ghost var start := bin;
      for i := 0 to |values|
        invariant contents == old(contents) && views == old(views) && accessors == old(accessors)
        invariant bin == start + Encode(values[..i])
      {
        assert values[..i + 1][..i] == values[..i];
        bin := bin + LittleEndian(values[i]);
      }
      assert values[..|values|] == values;
      var view := |views|;
      var v := View(offset, |values| * 4, target);
      ViewAppended(start, bin, views, values, v);
      views := views + [v];
      accessors := accessors + [Accessor(view, componentType, count, kind, min, max)];
      contents := contents + [values];
      accessor := |accessors| - 1;
    }

    method AppendFloatAccessor(values: seq<Word>, min: seq<real>, max: seq<real>) returns (accessor: nat)
      requires Valid()
      modifies this
      ensures Valid() && old(bin) <= bin && contents == old(contents) + [values]
      ensures accessor == |old(accessors)|
      ensures accessors == old(accessors) + [Accessor(accessor, FLOAT, |values| / 3, Vector3, min, max)]
      ensures old(views) <= views && accessor < |views| && views[accessor].target == ARRAY_BUFFER
    {
      accessor := AppendWords(values, ARRAY_BUFFER, FLOAT, |values| / 3, Vector3, min, max);
    }

    method AppendIndexAccessor(values: seq<Word>) returns (accessor: nat)
      requires Valid()
      modifies this
      ensures Valid() && old(bin) <= bin && contents == old(contents) + [values]
      ensures accessor == |old(accessors)|
      ensures accessors == old(accessors) + [Accessor(accessor, UNSIGNED_INT, |values|, Scalar, [], [])]
      ensures old(views) <= views && accessor < |views| && views[accessor].target == ELEMENT_ARRAY_BUFFER
    {
      accessor := AppendWords(values, ELEMENT_ARRAY_BUFFER, UNSIGNED_INT, |values|, Scalar, [], []);
    }
  }

  lemma ViewsSurvive(before: seq<Byte>, after: seq<Byte>, views: seq<View>)
    requires Aligned(views, |before|) && before <= after
    ensures Aligned(views, |after|)
    ensures forall i :: 0 <= i < |views| ==> ReadView(after, views[i]) == ReadView(before, views[i])
  {
    forall i | 0 <= i < |views| ensures ReadView(after, views[i]) == ReadView(before, views[i]) {
      var v := views[i];
      assert before[v.offset..v.offset + v.length] == after[v.offset..v.offset + v.length];
    }
  }

  // A view behind freshly written words reads those words and disturbs no earlier view.
  lemma ViewAppended(before: seq<Byte>, after: seq<Byte>, views: seq<View>, values: seq<Word>, v: View)
    requires Aligned(views, |before|) && Disjoint(views) && |before| % 4 == 0
    requires after == before + Encode(values)
    requires v.offset == |before| && v.length == 4 * |values|
    ensures Aligned(views + [v], |after|) && Disjoint(views + [v])
    ensures forall i :: 0 <= i < |views| ==> ReadView(after, views[i]) == ReadView(before, views[i])
    ensures ReadView(after, v) == values
  {
    ViewsSurvive(before, after, views);
    ViewFits(v, |values|, |after|);
    NewViewReads(before, values, v);
  }

  lemma ViewFits(v: View, words: nat, size: nat)
    requires v.offset % 4 == 0 && v.length == 4 * words && v.offset + v.length <= size
    ensures Fits(v, size)
  {
  }

  lemma NewViewReads(before: seq<Byte>, values: seq<Word>, v: View)
    requires v.offset == |before| && v.length == 4 * |values|
    ensures ReadView(before + Encode(values), v) == values
  {
    SliceOfTail(before, Encode(values));
    DecodeEncode(values);
  }

  lemma SliceOfTail(before: seq<Byte>, tail: seq<Byte>)
    ensures (before + tail)[|before|..|before| + |tail|] == tail
  {
  }

  // ---- The container ----

  const MAGIC := 0x46546c67
  const JSON_CHUNK := 0x4e4f534a
  const BIN_CHUNK := 0x004e4942

  predicate Pads(padded: seq<Byte>, value: seq<Byte>, fill: Byte) {
    && value <= padded && |padded| % 4 == 0 && |padded| < |value| + 4
    && forall i :: |value| <= i < |padded| ==> padded[i] == fill
  }

  method Pad(value: seq<Byte>, fill: Byte) returns (r: seq<Byte>)
    ensures Pads(r, value, fill)
  {
    r := value;
    ghost var end := |value| + Missing(|value|);
    while |r| % 4 != 0
      invariant value <= r && |r| <= end
      invariant forall i :: |value| <= i < |r| ==> r[i] == fill
      decreases end - |r|
    {
      r := r + [fill];
    }
  }

  // The words of the header and of the first chunk's header.
  function Head(json: nat, total: nat): seq<Word> {
    [Uint32(MAGIC), Uint32(2), Uint32(total), Uint32(json), Uint32(JSON_CHUNK)]
  }

  function Container(json: seq<Byte>, bin: seq<Byte>): seq<Byte> {
    Encode(Head(|json|, 28 + |json| + |bin|)) + json + (Encode([Uint32(|bin|), Uint32(BIN_CHUNK)]) + bin)
  }

  method Assemble(json: seq<Byte>, bin: seq<Byte>) returns (glb: seq<Byte>, paddedJson: seq<Byte>, paddedBin: seq<Byte>)
    ensures Pads(paddedJson, json, 0x20) && Pads(paddedBin, bin, 0)
    ensures glb == Container(paddedJson, paddedBin)
  {
    paddedJson := Pad(json, 0x20);
    paddedBin := Pad(bin, 0);
    var total := 12 + 8 + |paddedJson| + 8 + |paddedBin|;
    glb := LittleEndian(Uint32(MAGIC)) + LittleEndian(Uint32(2)) + LittleEndian(Uint32(total));
    glb := glb + LittleEndian(Uint32(|paddedJson|)) + LittleEndian(Uint32(JSON_CHUNK));
    HeadBytes(|paddedJson|, total);
    glb := glb + paddedJson;
    var binHead := LittleEndian(Uint32(|paddedBin|)) + LittleEndian(Uint32(BIN_CHUNK));
    EncodeTwo(Uint32(|paddedBin|), Uint32(BIN_CHUNK));
    glb := glb + (binHead + paddedBin);
  }

  lemma EncodeOne(a: Word)
    ensures Encode([a]) == LittleEndian(a)
  {
    assert [a][..0] == [];
  }

  lemma EncodeTwo(a: Word, b: Word)
    ensures Encode([a, b]) == LittleEndian(a) + LittleEndian(b)
  {
    EncodeOne(a);
    assert [a, b][..1] == [a];
  }

  lemma HeadBytes(json: nat, total: nat)
    ensures Encode(Head(json, total))
         == LittleEndian(Uint32(MAGIC)) + LittleEndian(Uint32(2)) + LittleEndian(Uint32(total))
            + LittleEndian(Uint32(json)) + LittleEndian(Uint32(JSON_CHUNK))
  {
    var h := Head(json, total);
    EncodeTwo(h[0], h[1]);
    assert h[..4][..3] == h[..3] && h[..3][..2] == [h[0], h[1]];
    assert Encode(h[..3]) == Encode([h[0], h[1]]) + LittleEndian(h[2]);
    assert Encode(h[..4]) == Encode(h[..3]) + LittleEndian(h[3]);
  }

  // Four bytes as a number, the least significant one first.
  function Field(glb: seq<Byte>, at: nat): int
    requires at + 4 <= |glb|
  {
    var b0: int, b1: int, b2: int, b3: int := glb[at], glb[at + 1], glb[at + 2], glb[at + 3];
    b0 + 256 * b1 + 65536 * b2 + 16777216 * b3
  }

  lemma FieldIsWord(glb: seq<Byte>, at: nat)
    requires at + 4 <= |glb|
    ensures Field(glb, at) == Value(ReadWord(glb, at))
  {
  }

  // A reader of the two-chunk layout, as the specification of the format tells it.
  function Parse(glb: seq<Byte>): Option<(seq<Byte>, seq<Byte>)> {
    if |glb| < 28 || Field(glb, 0) != MAGIC || Field(glb, 4) != 2 || Field(glb, 8) != |glb| then None
    else
      var jsonLength := Field(glb, 12);
      if Field(glb, 16) != JSON_CHUNK || jsonLength % 4 != 0 || 28 + jsonLength > |glb| then None
      else
        var binLength := Field(glb, 20 + jsonLength);
        if Field(glb, 24 + jsonLength) != BIN_CHUNK || binLength % 4 != 0 || 28 + jsonLength + binLength != |glb| then None
        else Some((glb[20..20 + jsonLength], glb[28 + jsonLength..]))
  }

  // The k-th encoded word is where it should be.
  lemma {:induction false} WordAt(before: seq<Byte>, words: seq<Word>, after: seq<Byte>, k: nat)
    requires k < |words|
    ensures ReadWord(before + Encode(words) + after, |before| + 4 * k) == words[k]
  {
    var n := |words| - 1;
    if k < n {
      var rest := LittleEndian(words[n]) + after;
      WordAt(before, words[..n], rest, k);
      assert before + Encode(words[..n]) + rest == before + Encode(words) + after;
    } else {
      var bytes := before + Encode(words) + after;
      var front := before + Encode(words[..n]);
      assert bytes == front + LittleEndian(words[n]) + after;
    }
  }

  lemma HeaderWords(json: seq<Byte>, bin: seq<Byte>)
    ensures |Container(json, bin)| == 28 + |json| + |bin|
    ensures forall k :: 0 <= k < 5 ==> ReadWord(Container(json, bin), 4 * k) == Head(|json|, 28 + |json| + |bin|)[k]
    ensures ReadWord(Container(json, bin), 20 + |json|) == Uint32(|bin|)
    ensures ReadWord(Container(json, bin), 24 + |json|) == Uint32(BIN_CHUNK)
  {
    var head := Head(|json|, 28 + |json| + |bin|);
    var mid := [Uint32(|bin|), Uint32(BIN_CHUNK)];
    forall k | 0 <= k < 5 ensures ReadWord(Container(json, bin), 4 * k) == head[k] {
      WordAt([], head, json + (Encode(mid) + bin), k);
      assert [] + Encode(head) + (json + (Encode(mid) + bin)) == Container(json, bin);
    }
    assert (Encode(head) + json) + Encode(mid) + bin == Container(json, bin);
    WordAt(Encode(head) + json, mid, bin, 0);
    WordAt(Encode(head) + json, mid, bin, 1);
  }

  lemma FieldOf(glb: seq<Byte>, at: nat, n: nat)
    requires at + 4 <= |glb| && ReadWord(glb, at) == Uint32(n)
    ensures Field(glb, at) == n % 4294967296
  {
    FieldIsWord(glb, at);
    Uint32Value(n);
  }

  lemma BytesOfWord(glb: seq<Byte>, at: nat, w: Word)
    requires at + 4 <= |glb| && ReadWord(glb, at) == w
    ensures glb[at..at + 4] == [w.b0, w.b1, w.b2, w.b3]
  {
  }

  lemma NameBytes()
    ensures Uint32(MAGIC) == Word(103, 108, 84, 70)
    ensures Uint32(JSON_CHUNK) == Word(74, 83, 79, 78)
    ensures Uint32(BIN_CHUNK) == Word(66, 73, 78, 0)
  {
  }

  lemma HeaderNames(json: seq<Byte>, bin: seq<Byte>)
    ensures var glb := Container(json, bin);
            && |glb| == 28 + |json| + |bin|
            && glb[0..4] == [103, 108, 84, 70] && glb[16..20] == [74, 83, 79, 78]
            && glb[24 + |json|..28 + |json|] == [66, 73, 78, 0]
  {
    HeaderWords(json, bin);
    NameBytes();
    var glb := Container(json, bin);
    assert ReadWord(glb, 4 * 0) == Uint32(MAGIC) && ReadWord(glb, 4 * 4) == Uint32(JSON_CHUNK);
    BytesOfWord(glb, 0, Word(103, 108, 84, 70));
    BytesOfWord(glb, 16, Word(74, 83, 79, 78));
    BytesOfWord(glb, 24 + |json|, Word(66, 73, 78, 0));
  }

  /** The header, byte by byte: the letters glTF, version 2 and the length, then JSON and BIN with theirs. */
  lemma HeaderFields(json: seq<Byte>, bin: seq<Byte>)
    ensures var glb := Container(json, bin);
            && |glb| == 28 + |json| + |bin|
            && glb[0..4] == [103, 108, 84, 70] && Field(glb, 4) == 2 && Field(glb, 8) == |glb| % 4294967296
            && Field(glb, 12) == |json| % 4294967296 && glb[16..20] == [74, 83, 79, 78]
            && Field(glb, 20 + |json|) == |bin| % 4294967296 && glb[24 + |json|..28 + |json|] == [66, 73, 78, 0]
  {
    HeaderNames(json, bin);
    HeaderWords(json, bin);
    var glb := Container(json, bin);
    assert ReadWord(glb, 4 * 1) == Uint32(2) && ReadWord(glb, 4 * 2) == Uint32(|glb|) && ReadWord(glb, 4 * 3) == Uint32(|json|);
    FieldOf(glb, 4, 2);
    FieldOf(glb, 8, |glb|);
    FieldOf(glb, 12, |json|);
    FieldOf(glb, 20 + |json|, |bin|);
  }

  lemma NamedFields(glb: seq<Byte>, at: nat)
    requires at + 4 <= |glb|
    ensures glb[at..at + 4] == [103, 108, 84, 70] ==> Field(glb, at) == MAGIC
    ensures glb[at..at + 4] == [74, 83, 79, 78] ==> Field(glb, at) == JSON_CHUNK
    ensures glb[at..at + 4] == [66, 73, 78, 0] ==> Field(glb, at) == BIN_CHUNK
  {
    var four := glb[at..at + 4];
    assert four[0] == glb[at] && four[1] == glb[at + 1] && four[2] == glb[at + 2] && four[3] == glb[at + 3];
  }

  lemma MiddleAndEnd(a: seq<Byte>, b: seq<Byte>, c: seq<Byte>, d: seq<Byte>)
    ensures var s := a + b + (c + d);
            s[|a|..|a| + |b|] == b && s[|a| + |b| + |c|..] == d
  {
  }

  lemma ChunksStand(json: seq<Byte>, bin: seq<Byte>)
    ensures var glb := Container(json, bin);
            |glb| == 28 + |json| + |bin| && glb[20..20 + |json|] == json && glb[28 + |json|..] == bin
  {
    MiddleAndEnd(Encode(Head(|json|, 28 + |json| + |bin|)), json, Encode([Uint32(|bin|), Uint32(BIN_CHUNK)]), bin);
  }

  /**
   Reading the emitted file back gives both padded chunks, exactly when the
   whole file's length fits the header's 32-bit field.
   */
  lemma ContainerRoundTrip(json: seq<Byte>, bin: seq<Byte>)
    requires |json| % 4 == 0 && |bin| % 4 == 0
    ensures var glb := Container(json, bin);
            if |glb| < WORDS then Parse(glb) == Some((json, bin)) else Parse(glb) == None
  {
    HeaderFields(json, bin);
    ChunksStand(json, bin);
    if |Container(json, bin)| < WORDS {
      ShortParses(json, bin);
    } else {
      LongFails(Container(json, bin));
    }
  }

  lemma LongFails(glb: seq<Byte>)
    requires |glb| >= WORDS && Field(glb, 8) == |glb| % WORDS
    ensures Parse(glb) == None
  {
  }

  lemma ShortParses(json: seq<Byte>, bin: seq<Byte>)
    requires |json| % 4 == 0 && |bin| % 4 == 0 && |Container(json, bin)| < WORDS
    ensures var glb := Container(json, bin);
            |glb| == 28 + |json| + |bin| && Parse(glb) == Some((glb[20..20 + |json|], glb[28 + |json|..]))
  {
    HeaderFields(json, bin);
    var glb := Container(json, bin);
    NamedFields(glb, 0);
    NamedFields(glb, 16);
    NamedFields(glb, 24 + |json|);
    Remainder(|glb|, 0, |glb|);
    Remainder(|json|, 0, |json|);
    Remainder(|bin|, 0, |bin|);
    ParseFields(glb, |json|, |bin|);
  }

  lemma ParseFields(glb: seq<Byte>, json: nat, bin: nat)
    requires json % 4 == 0 && bin % 4 == 0 && |glb| == 28 + json + bin
    requires Field(glb, 0) == MAGIC && Field(glb, 4) == 2 && Field(glb, 8) == |glb|
    requires Field(glb, 12) == json && Field(glb, 16) == JSON_CHUNK
    requires Field(glb, 20 + json) == bin && Field(glb, 24 + json) == BIN_CHUNK
    ensures Parse(glb) == Some((glb[20..20 + json], glb[28 + json..]))
  {
  }
}
