/**
 The case-insensitive name hash that picks a cache shard.

 All words are 32 bits wide and wrap around.
 */
module Burtle {
  import opened Wire

  datatype Words = Words(a: bv32, b: bv32, c: bv32)

  const GOLDEN_RATIO: bv32 := 0x9e3779b9

  /** burtlemix */
  function Mix(w: Words): Words {
    var a := (w.a - w.b - w.c) ^ (w.c >> 13);
    var b := (w.b - w.c - a) ^ (a << 8);
    var c := (w.c - a - b) ^ (b >> 13);
    var a := (a - b - c) ^ (c >> 12);
    var b := (b - c - a) ^ (a << 16);
    var c := (c - a - b) ^ (b >> 5);
    var a := (a - b - c) ^ (c >> 3);
    var b := (b - c - a) ^ (a << 10);
    var c := (c - a - b) ^ (b >> 15);
    Words(a, b, c)
  }

  function Bits(b: Byte): bv32 {
    b as bv32
  }

  function Word32(n: nat): bv32 {
    (n % 0x1_0000_0000) as bv32
  }

  function LittleEndian(b0: Byte, b1: Byte, b2: Byte, b3: Byte): bv32 {
    Bits(b0) + (Bits(b1) << 8) + (Bits(b2) << 16) + (Bits(b3) << 24)
  }

  /** One 12-octet block of burtle. */
  function Block(w: Words, k: seq<Byte>): Words
    requires |k| >= 12
  {
    Mix(Words(w.a + LittleEndian(k[0], k[1], k[2], k[3]),
              w.b + LittleEndian(k[4], k[5], k[6], k[7]),
              w.c + LittleEndian(k[8], k[9], k[10], k[11])))
  }

  function At(k: seq<Byte>, i: nat, shift: nat): bv32
    requires shift <= 24
  {
    if i < |k| then Bits(k[i]) << shift else 0
  }

  /** The last octets of burtle; the lowest byte of c carries the key length. */
  function Tail(w: Words, k: seq<Byte>, length: bv32): Words
    requires |k| < 12
  {
    Mix(Words(w.a + At(k, 3, 24) + At(k, 2, 16) + At(k, 1, 8) + At(k, 0, 0),
              w.b + At(k, 7, 24) + At(k, 6, 16) + At(k, 5, 8) + At(k, 4, 0),
              w.c + length + At(k, 10, 24) + At(k, 9, 16) + At(k, 8, 8)))
  }

  function Mixed(w: Words, k: seq<Byte>, length: bv32): Words
    decreases |k|
  {
    if |k| < 12 then Tail(w, k, length) else Mixed(Block(w, k[..12]), k[12..], length)
  }

  /** burtle: the case-sensitive hash. */
  function Hash(k: seq<Byte>, initval: bv32): bv32 {
    Mixed(Words(GOLDEN_RATIO, GOLDEN_RATIO, initval), k, Word32(|k|)).c
  }

  /** burtleCI: hashing with every octet lower-cased on the fly is hashing the lower-cased key. */
  method HashCI(k: seq<Byte>, initval: bv32) returns (r: bv32)
    ensures r == Hash(LowerAll(k), initval)
  {
    hide Mix, LittleEndian, Tail, Block, Mixed, Word32, Bits;
    var w := Words(GOLDEN_RATIO, GOLDEN_RATIO, initval);
    var length := Word32(|k|);
    var i := 0;
    ghost var low := LowerAll(k);
    assert low[0..] == low;
    while |k| - i >= 12
      invariant 0 <= i <= |k|
      invariant Hash(low, initval) == Mixed(w, low[i..], length).c
    {
      MixedStep(w, low[i..], length);
      var block := LowerBlock(k, i);
      assert low[i..][..12] == block && low[i..][12..] == low[i + 12..];
      w := Block(w, block);
      i := i + 12;
    }
    var rest := LowerAll(k[i..]);
    assert rest == low[i..];
    MixedStep(w, rest, length);
    r := Tail(w, rest, length).c;
  }

  lemma MixedStep(w: Words, k: seq<Byte>, length: bv32)
    ensures |k| >= 12 ==> Mixed(w, k, length) == Mixed(Block(w, k[..12]), k[12..], length)
    ensures |k| < 12 ==> Mixed(w, k, length) == Tail(w, k, length)
  {
    hide Mix, LittleEndian, Tail, Block;
  }

  method LowerBlock(k: seq<Byte>, i: nat) returns (block: seq<Byte>)
    requires i + 12 <= |k|
    ensures block == LowerAll(k)[i..i + 12]
  {
    block := [Lower(k[i]), Lower(k[i + 1]), Lower(k[i + 2]), Lower(k[i + 3]),
              Lower(k[i + 4]), Lower(k[i + 5]), Lower(k[i + 6]), Lower(k[i + 7]),
              Lower(k[i + 8]), Lower(k[i + 9]), Lower(k[i + 10]), Lower(k[i + 11])];
  }

  /** The shard of a name among `count`: the same for every spelling of the name. */
  function ShardOf(n: Name, count: nat): (r: nat)
    requires LabelsOk(n) && count > 0
    ensures r < count
  {
    Hash(LowerAll(Encode(n)), 0) as nat % count
  }

  lemma SpellingsShareShard(a: Name, b: Name, count: nat)
    requires LabelsOk(a) && LabelsOk(b) && count > 0 && SameName(a, b)
    ensures ShardOf(a, count) == ShardOf(b, count)
  {
    LowerEncode(a);
    LowerEncode(b);
  }

  /** The value for one key, which fixes every shift, sum and position of a block and of the eleven octets behind it. */
  lemma KnownValue()
    ensures Hash([97, 98, 99, 100, 101, 102, 103, 104, 105, 106, 107, 108] +
                 [109, 110, 111, 112, 113, 114, 115, 116, 117, 118, 119], 0) == 0x68e5ff21
  {
    var k: seq<Byte> := [97, 98, 99, 100, 101, 102, 103, 104, 105, 106, 107, 108];
    var t: seq<Byte> := [109, 110, 111, 112, 113, 114, 115, 116, 117, 118, 119];
    KnownBlock(Words(GOLDEN_RATIO, GOLDEN_RATIO, 0), k);
    KnownTail(t);
    hide *;
    BlockAndTail(k, t);
  }

  lemma BlockAndTail(k: seq<Byte>, t: seq<Byte>)
    requires |k| == 12 && |t| == 11
    ensures Hash(k + t, 0) == Tail(Block(Words(GOLDEN_RATIO, GOLDEN_RATIO, 0), k), t, 23).c
  {
    HashUnfold(k + t);
    hide *;
    SplitConcat(k, t);
    MixedStep(Words(GOLDEN_RATIO, GOLDEN_RATIO, 0), k + t, 23);
    MixedStep(Block(Words(GOLDEN_RATIO, GOLDEN_RATIO, 0), k), t, 23);
  }

  lemma HashUnfold(k: seq<Byte>)
    requires |k| == 23
    ensures Hash(k, 0) == Mixed(Words(GOLDEN_RATIO, GOLDEN_RATIO, 0), k, 23).c
  {
    hide Mixed;
    assert Word32(23) == 23;
  }

  lemma KnownBlock(start: Words, k: seq<Byte>)
    requires start == Words(0x9e3779b9, 0x9e3779b9, 0) && k == [97, 98, 99, 100, 101, 102, 103, 104, 105, 106, 107, 108]
    ensures Block(start, k) == Words(0x2dc00c57, 0x9557dfa5, 0xa41a74ab)
  {
    assert LittleEndian(97, 98, 99, 100) == 0x64636261;
    assert LittleEndian(101, 102, 103, 104) == 0x68676665;
    assert LittleEndian(105, 106, 107, 108) == 0x6c6b6a69;
  }

  lemma KnownTail(t: seq<Byte>)
    requires t == [109, 110, 111, 112, 113, 114, 115, 116, 117, 118, 119]
    ensures Tail(Words(0x2dc00c57, 0x9557dfa5, 0xa41a74ab), t, 23) == Words(0xbbfb857a, 0x2ef953f7, 0x68e5ff21)
  {
    TailA(t);
    TailB(t);
    TailC(t);
    hide At;
  }

  lemma TailA(t: seq<Byte>)
    requires |t| == 11 && t[0] == 109 && t[1] == 110 && t[2] == 111 && t[3] == 112
    ensures At(t, 0, 0) == 109 && At(t, 1, 8) == 0x6e00 && At(t, 2, 16) == 0x6f0000 && At(t, 3, 24) == 0x70000000
  {
  }

  lemma TailB(t: seq<Byte>)
    requires |t| == 11 && t[4] == 113 && t[5] == 114 && t[6] == 115 && t[7] == 116
    ensures At(t, 4, 0) == 113 && At(t, 5, 8) == 0x7200 && At(t, 6, 16) == 0x730000 && At(t, 7, 24) == 0x74000000
  {
  }

  lemma TailC(t: seq<Byte>)
    requires |t| == 11 && t[8] == 117 && t[9] == 118 && t[10] == 119
    ensures At(t, 8, 8) == 0x7500 && At(t, 9, 16) == 0x760000 && At(t, 10, 24) == 0x77000000
  {
  }
}
