/** Little-endian words and the bytes of a binary glTF file. */
module GlbBytes {
  type Byte = x: int | 0 <= x < 256

  // A 32-bit word by its bytes, least significant first. It carries either an
  // unsigned integer or the bits of a single-precision number.
  datatype Word = Word(b0: Byte, b1: Byte, b2: Byte, b3: Byte)

  const WORDS := 0x1_0000_0000

  function Value(w: Word): (n: nat)
    ensures n < WORDS
  {
    Number(w.b0, w.b1, w.b2, w.b3)
  }

  function Number(b0: int, b1: int, b2: int, b3: int): int {
    b0 + 256 * b1 + 65536 * b2 + 16777216 * b3
  }

  // The conversion of a length or index to an unsigned 32-bit word; it keeps the low bits.
  function Uint32(n: nat): Word {
    var q := n / 256;
    var r := q / 256;
    Word(n % 256, q % 256, r % 256, r / 256 % 256)
  }

  lemma Uint32Value(n: nat)
    ensures Value(Uint32(n)) == n % WORDS
  {
    var q := n / 256;
    var r := q / 256;
    var s := r / 256;
    var t := s / 256;
    assert n == WORDS * t + Value(Uint32(n));
    Remainder(n, t, Value(Uint32(n)));
  }

  lemma Remainder(n: nat, t: nat, v: nat)
    requires n == WORDS * t + v && v < WORDS
    ensures n % WORDS == v
  {
  }

  // The bytes missing to a multiple of four.
  function Missing(n: nat): (r: nat)
    ensures r < 4 && (n + r) % 4 == 0
    ensures r == 0 <==> n % 4 == 0
  {
    if n % 4 == 0 then 0 else 4 - n % 4
  }

  function LittleEndian(w: Word): (r: seq<Byte>)
    ensures |r| == 4
  {
    [w.b0, w.b1, w.b2, w.b3]
  }

  function ReadWord(bytes: seq<Byte>, at: nat): Word
    requires at + 4 <= |bytes|
  {
    Word(bytes[at], bytes[at + 1], bytes[at + 2], bytes[at + 3])
  }

  function Encode(words: seq<Word>): (r: seq<Byte>)
    ensures |r| == 4 * |words|
  {
    if words == [] then [] else Encode(words[..|words| - 1]) + LittleEndian(words[|words| - 1])
  }

  function Decode(bytes: seq<Byte>): seq<Word> {
    if |bytes| < 4 then [] else Decode(bytes[..|bytes| - 4]) + [ReadWord(bytes, |bytes| - 4)]
  }

  /** Reading written words back gives the same words. */
  lemma {:induction false} DecodeEncode(words: seq<Word>)
    ensures Decode(Encode(words)) == words
  {
    if words != [] {
      var n := |words| - 1;
      DecodeEncode(words[..n]);
      var bytes := Encode(words);
      assert bytes[..|bytes| - 4] == Encode(words[..n]);
      assert ReadWord(bytes, |bytes| - 4) == words[n];
      assert words == words[..n] + [words[n]];
    }
  }
}
