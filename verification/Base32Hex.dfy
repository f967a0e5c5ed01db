/**
 base32hex (section 7 of RFC 4648) as NSEC3 order names use it: five octets become eight digits of five bits.

 Text and data are octets.  Shifts go by small constants, so they are written out case by case.
 */
module Base32Hex {

  type Octets = seq<bv8>

  const STUFFING: bv8 := 61

  /** The octets of a C string: a terminating zero follows the last one. */
  function Octet(s: Octets, i: nat): bv8 {
    if i < |s| then s[i] else 0
  }

  // ---------------------------------------------------------------- bit ranges

  /** Five bits from bit k (of 0..7) of two octets. */
  function FiveBits(cl: bv8, cc: bv8, k: nat): bv8 {
    var x := ((cl as bv16) << 8) | (cc as bv16);
    var y := if k == 0 then x >> 11 else if k == 1 then x >> 10 else if k == 2 then x >> 9 else if k == 3 then x >> 8
             else if k == 4 then x >> 7 else if k == 5 then x >> 6 else if k == 6 then x >> 5 else x >> 4;
    (y & 31) as bv8
  }

  /** extract_bits for five bits. */
  function ExtractBits(s: Octets, start: nat): bv8 {
    var cc := if start / 8 < (start + 4) / 8 then Octet(s, start / 8 + 1) else 0;
    FiveBits(Octet(s, start / 8), cc, start % 8)
  }

  function ShiftLeft(x: bv32, n: nat): bv32 {
    if n == 0 then x else if n == 1 then x << 1 else if n == 2 then x << 2 else if n == 3 then x << 3
    else if n == 4 then x << 4 else if n == 5 then x << 5 else if n == 6 then x << 6 else x << 7
  }

  function HighPart(v: bv8, shift: nat): bv8 {
    ((ShiftLeft(v as bv32, shift) >> 8) & 0xff) as bv8
  }

  function LowPart(v: bv8, shift: nat): bv8 {
    (ShiftLeft(v as bv32, shift) & 0xff) as bv8
  }

  function Or(a: bv8, b: bv8): bv8 { a | b }

  /** set_bits for five bits: they end `shift` bits before the end of an octet. */
  function SetBits(s: Octets, x: bv8, start: nat): (r: Octets)
    requires start + 5 <= 8 * |s|
    ensures |r| == |s|
  {
    var shift := (8 - (start + 5) % 8) % 8;
    var cc, cr := HighPart(x, shift), LowPart(x, shift);
    if shift + 5 > 8 then
      assert start / 8 + 1 < |s|;
      s[start / 8 := Or(s[start / 8], cc)][start / 8 + 1 := Or(s[start / 8 + 1], cr)]
    else
      s[start / 8 := Or(s[start / 8], cr)]
  }

  // ---------------------------------------------------------------- digits

  function Digit(v: bv8): bv8 {
    if v < 10 then 48 + v else 87 + v
  }

  /** The value of a digit; letters count on beyond the alphabet.  61 and 255 end the text. */
  function Undigit(c: bv8): bv8 {
    if 48 <= c <= 57 then c - 48
    else if 97 <= c <= 122 then 10 + (c - 97)
    else if 65 <= c <= 90 then 10 + (c - 65)
    else if c == STUFFING then STUFFING
    else 255
  }

  predicate Ends(c: bv8) {
    Undigit(c) == STUFFING || Undigit(c) == 255
  }

  lemma DigitRoundTrip(v: bv8)
    requires v < 32
    ensures Undigit(Digit(v)) == v && !Ends(Digit(v)) && Digit(v) != STUFFING
  {
  }

  lemma DigitOrder(v: bv8, w: bv8)
    requires v < 32 && w < 32
    ensures Digit(v) < Digit(w) <==> v < w
    ensures Digit(v) == Digit(w) <==> v == w
  {
  }

  /** The alphabet of section 7 of RFC 4648, in lower case. */
  lemma DigitIs(v: bv8)
    requires v < 32
    ensures Digit(v) as int == "0123456789abcdefghijklmnopqrstuv"[v as int] as int
  {
    var d := "0123456789abcdefghijklmnopqrstuv";
    if v < 10 {
      assert d[v as int] as int == 48 + v as int;
    } else {
      assert d[v as int] as int == 87 + v as int;
    }
  }

  /** Which octets are digits, and of which value: 0 to 9, then the letters in either case. */
  lemma UndigitIs(c: bv8, v: bv8)
    ensures !Ends(c) && Undigit(c) == v <==>
              (v < 10 && c == 48 + v) || (10 <= v < 36 && (c == 87 + v || c == 55 + v))
  {
  }

  /** Equal, or the two cases of one letter. */
  predicate SameDigitText(c: bv8, e: bv8) {
    c == e || (65 <= c <= 90 && e == c + 32) || (65 <= e <= 90 && c == e + 32)
  }

  lemma UndigitSame(c: bv8, e: bv8)
    requires SameDigitText(c, e)
    ensures Undigit(c) == Undigit(e)
  {
  }

  // ---------------------------------------------------------------- encoding

  /** A group that is not full has just the digits its octets need. */
  lemma StuffingIs(todo: nat)
    requires 1 <= todo <= 5
    ensures var digits := 8 - Stuffing(todo);
            5 * (digits - 1) < 8 * todo <= 5 * digits
  {
  }

  function Stuffing(todo: nat): nat {
    if todo == 1 then 6 else if todo == 2 then 4 else if todo == 3 then 3 else if todo == 4 then 1 else 0
  }

  /** The eight digits of the first five octets, missing ones taken as zero. */
  function Digits(s: Octets): (r: Octets)
    ensures |r| == 8
  {
    seq(8, n requires 0 <= n < 8 => Digit(ExtractBits(s, 5 * n)))
  }

  function Padding(n: nat): (r: Octets)
    ensures |r| == n && forall i :: 0 <= i < n ==> r[i] == STUFFING
  {
    seq(n, i => STUFFING)
  }

  function Group(s: Octets): (r: Octets)
    ensures |r| == 8
  {
    Digits(s)[..8 - Stuffing(|s|)] + Padding(Stuffing(|s|))
  }

  function Rest(s: Octets): Octets {
    if |s| <= 5 then [] else s[5..]
  }

  function Encode(s: Octets): Octets
    decreases |s|
  {
    if s == [] then [] else Group(s) + Encode(Rest(s))
  }

  /** The bits behind the last octet count as zeros. */
  lemma FilledWithZeros(s: Octets, zeros: Octets)
    requires forall i :: 0 <= i < |zeros| ==> zeros[i] == 0
    ensures Digits(s + zeros) == Digits(s)
  {
    hide FiveBits, Digit;
    forall n | 0 <= n < 8 ensures ExtractBits(s + zeros, 5 * n) == ExtractBits(s, 5 * n) {
      OctetFilled(s, zeros, 5 * n / 8);
      OctetFilled(s, zeros, 5 * n / 8 + 1);
    }
  }

  lemma OctetFilled(s: Octets, zeros: Octets, i: nat)
    requires forall k :: 0 <= k < |zeros| ==> zeros[k] == 0
    ensures Octet(s + zeros, i) == Octet(s, i)
  {
  }

  method EncodeGroup(s: Octets, todo: nat) returns (ret: Octets)
    requires todo == |s|
    ensures ret == Group(s)
  {
    hide ExtractBits, Digit;
    var stuffing := 0;
    match todo {
      case 1 => stuffing := 6;
      case 2 => stuffing := 4;
      case 3 => stuffing := 3;
      case 4 => stuffing := 1;
      case _ => stuffing := 0;
    }
    ret := [];
    var n := 0;
    while n < 8 - stuffing
      invariant 0 <= n <= 8 - stuffing && ret == Digits(s)[..n]
    {
      ret := ret + [Digit(ExtractBits(s, n * 5))];
      n := n + 1;
    }
    ret := ret + Padding(stuffing);
  }

  method ToBase32Hex(input: Octets) returns (ret: Octets)
    ensures ret == Encode(input)
  {
    hide Group;
    ret := [];
    var offset := 0;
    while offset < |input|
      invariant 0 <= offset
      invariant ret + Encode(if offset <= |input| then input[offset..] else []) == Encode(input)
      decreases |input| - offset
    {
      var group := EncodeGroup(input[offset..], |input| - offset);
      NextGroup(input, offset, ret);
      ret := ret + group;
      offset := offset + 5;
    }
  }

  lemma NextGroup(input: Octets, offset: nat, ret: Octets)
    requires offset < |input|
    ensures var next := if offset + 5 <= |input| then input[offset + 5..] else [];
            ret + Encode(input[offset..]) == ret + Group(input[offset..]) + Encode(next)
  {
    hide Group;
    var s := input[offset..];
    if |s| > 5 { assert s[5..] == input[offset + 5..]; }
    var next := Rest(s);
    assert ret + (Group(s) + Encode(next)) == ret + Group(s) + Encode(next);
  }

  // ---------------------------------------------------------------- decoding

  const BLANK: Octets := [0, 0, 0, 0, 0]

  /** Decoding with k digits of the current group in `block`. */
  function DecodeFrom(t: Octets, block: Octets, k: nat): Octets
    requires |block| == 5 && k < 8
    decreases |t|
  {
    if t == [] || Ends(t[0]) then block[..k * 5 / 8]
    else
      var b := SetBits(block, Undigit(t[0]), 5 * k);
      if k == 7 then b + DecodeFrom(t[1..], BLANK, 0) else DecodeFrom(t[1..], b, k + 1)
  }

  function Decode(t: Octets): Octets {
    DecodeFrom(t, BLANK, 0)
  }

  method SetBlockBits(block: array<bv8>, x: bv8, start: nat)
    requires start + 5 <= 8 * block.Length
    modifies block
    ensures block[..] == SetBits(old(block[..]), x, start)
  {
    hide HighPart, LowPart, Or;
    var shift := (8 - (start + 5) % 8) % 8;
    var cc, cr := HighPart(x, shift), LowPart(x, shift);
    if shift + 5 > 8 {
      assert start / 8 + 1 < block.Length;
      block[start / 8] := Or(block[start / 8], cc);
      block[start / 8 + 1] := Or(block[start / 8 + 1], cr);
    } else {
      block[start / 8] := Or(block[start / 8], cr);
    }
  }

  lemma DecodeStep(t: Octets, block: Octets, k: nat)
    requires |block| == 5 && k < 8
    ensures t == [] || Ends(t[0]) ==> DecodeFrom(t, block, k) == block[..k * 5 / 8]
    ensures t != [] && !Ends(t[0]) ==>
              var b := SetBits(block, Undigit(t[0]), 5 * k);
              DecodeFrom(t, block, k) == if k == 7 then b + DecodeFrom(t[1..], BLANK, 0) else DecodeFrom(t[1..], b, k + 1)
  {
    hide SetBits, Undigit;
  }

  lemma Modulo8(n: nat)
    ensures (n + 1) % 8 == if n % 8 == 7 then 0 else n % 8 + 1
  {
  }

  lemma Regrouped(a: Octets, b: Octets, c: Octets)
    ensures a + (b + c) == a + b + c
  {
  }

  method FromBase32Hex(input: Octets) returns (ret: Octets)
    ensures ret == Decode(input)
  {
    hide SetBits, Undigit, DecodeFrom;
    ret := [];
    var block := new bv8[5](_ => 0);
    assert block[..] == BLANK;
    var toWrite, n := 0, 0;
    while n < |input|
      invariant 0 <= n <= |input| && toWrite == n % 8
      invariant ret + DecodeFrom(input[n..], block[..], toWrite) == Decode(input)
      invariant fresh(block)
    {
      var c := Undigit(input[n]);
      DecodeStep(input[n..], block[..], toWrite);
      if c == STUFFING || c == 255 { break; }
      SetBlockBits(block, c, (n % 8) * 5);
      assert input[n..][1..] == input[n + 1..];
      Modulo8(n);
      toWrite := toWrite + 1;
      if toWrite == 8 {
        Regrouped(ret, block[..], DecodeFrom(input[n + 1..], BLANK, 0));
        ret := ret + block[..];
        forall i | 0 <= i < 5 { block[i] := 0; }
        assert block[..] == BLANK;
        toWrite := 0;
      }
      n := n + 1;
    }
    DecodeStep(input[n..], block[..], toWrite);
    ret := ret + block[..toWrite * 5 / 8];
  }

  // ---------------------------------------------------------------- decoding undoes encoding

  /** The first k bits of an octet, k being at most 8. */
  function Top(k: int): bv8 {
    if k <= 0 then 0 else if k == 1 then 0x80 else if k == 2 then 0xc0 else if k == 3 then 0xe0 else if k == 4 then 0xf0
    else if k == 5 then 0xf8 else if k == 6 then 0xfc else if k == 7 then 0xfe else 0xff
  }

  function Masked(c: bv8, k: int): bv8 { c & Top(k) }

  /** The first `bits` bits of a group of five octets, the rest zero. */
  function Known(s: Octets, bits: int): (r: Octets)
    ensures |r| == 5
  {
    [Masked(Octet(s, 0), bits), Masked(Octet(s, 1), bits - 8), Masked(Octet(s, 2), bits - 16),
     Masked(Octet(s, 3), bits - 24), Masked(Octet(s, 4), bits - 32)]
  }

  /** Five bits within one octet. */
  lemma BitsInOne(c: bv8, k: nat)
    requires k <= 3
    ensures Or(Masked(c, k), LowPart(FiveBits(c, 0, k), 3 - k)) == Masked(c, k + 5)
  {
    if k == 0 {
    } else if k == 1 {
    } else if k == 2 {
    } else {
    }
  }

  /** Five bits over two octets: the end of the first, the start of the second. */
  lemma BitsEndFirst(c: bv8, d: bv8, k: nat)
    requires 4 <= k <= 7
    ensures Or(Masked(c, k), HighPart(FiveBits(c, d, k), 11 - k)) == c
  {
    if k == 4 {
    } else if k == 5 {
    } else if k == 6 {
    } else {
    }
  }

  lemma BitsStartSecond(c: bv8, d: bv8, k: nat)
    requires 4 <= k <= 7
    ensures LowPart(FiveBits(c, d, k), 11 - k) == Masked(d, k - 3)
  {
    if k == 4 {
    } else if k == 5 {
    } else if k == 6 {
    } else {
    }
  }

  /** Writing the bits of octets c, d at bit k behind the first k bits of c. */
  lemma SetAt(s: Octets, i: nat, k: nat, c: bv8, d: bv8)
    requires k < 8 && i < |s| && (k > 3 ==> i + 1 < |s|)
    requires s[i] == Masked(c, k) && (k > 3 ==> s[i + 1] == 0)
    ensures 8 * i + k + 5 <= 8 * |s|
    ensures var r := SetBits(s, FiveBits(c, if k > 3 then d else 0, k), 8 * i + k);
            if k > 3 then r == s[i := c][i + 1 := Masked(d, k - 3)] else r == s[i := Masked(c, k + 5)]
  {
    hide FiveBits, Masked, HighPart, LowPart, Or, SetBits;
    var v := FiveBits(c, if k > 3 then d else 0, k);
    SetBitsAt(s, v, i, k);
    if k > 3 {
      BitsEndFirst(c, d, k);
      BitsStartSecond(c, d, k);
      OrZero(LowPart(v, 11 - k));
    } else {
      BitsInOne(c, k);
    }
  }

  /** Five bits from bit k of octet i on: the octets touched and the shift. */
  lemma SetBitsAt(s: Octets, x: bv8, i: nat, k: nat)
    requires k < 8 && i < |s| && (k > 3 ==> i + 1 < |s|)
    ensures 8 * i + k + 5 <= 8 * |s|
    ensures SetBits(s, x, 8 * i + k) ==
            if k > 3 then s[i := Or(s[i], HighPart(x, 11 - k))][i + 1 := Or(s[i + 1], LowPart(x, 11 - k))]
            else s[i := Or(s[i], LowPart(x, 3 - k))]
  {
    hide HighPart, LowPart, Or;
    assert (8 * i + k) / 8 == i && (8 * i + k + 5) % 8 == if k > 3 then k - 3 else if k == 3 then 0 else k + 5;
  }

  lemma OrZero(x: bv8)
    ensures Or(0, x) == x
  {
  }

  lemma MaskedEdges(c: bv8, k: int)
    ensures k <= 0 ==> Masked(c, k) == 0
    ensures k >= 8 ==> Masked(c, k) == c
  {
  }

  lemma KnownAt(s: Octets, bits: int, i: nat)
    requires i < 5
    ensures Known(s, bits)[i] == Masked(Octet(s, i), bits - 8 * i)
  {
    hide Masked;
  }

  /** Writing digit k brings the group from 5k to 5k + 5 known bits. */
  lemma FiveMore(s: Octets, k: nat)
    requires k < 8
    ensures SetBits(Known(s, 5 * k), ExtractBits(s, 5 * k), 5 * k) == Known(s, 5 * k + 5)
  {
    hide FiveBits, Masked, Known, SetBits;
    var bits := 5 * k;
    var i, m := bits / 8, bits % 8;
    var b, r := Known(s, bits), Known(s, bits + 5);
    assert bits == 8 * i + m && 8 * i + m + 5 <= 40;
    forall j | 0 <= j < 5
      ensures b[j] == Masked(Octet(s, j), bits - 8 * j) && r[j] == Masked(Octet(s, j), bits + 5 - 8 * j)
      ensures j < i ==> b[j] == r[j] == Octet(s, j)
      ensures j > i ==> b[j] == 0
      ensures bits + 5 <= 8 * j ==> r[j] == 0
      ensures bits + 5 >= 8 * (j + 1) ==> r[j] == Octet(s, j)
    {
      KnownAt(s, bits, j);
      KnownAt(s, bits + 5, j);
      MaskedEdges(Octet(s, j), bits - 8 * j);
      MaskedEdges(Octet(s, j), bits + 5 - 8 * j);
    }
    assert (bits + 4) / 8 == if m > 3 then i + 1 else i;
    SetAt(b, i, m, Octet(s, i), Octet(s, i + 1));
  }

  lemma FiveBitsSmall(cl: bv8, cc: bv8, k: nat)
    ensures FiveBits(cl, cc, k) < 32
  {
  }

  lemma ValueSmall(s: Octets, start: nat)
    ensures ExtractBits(s, start) < 32
  {
    hide FiveBits;
    FiveBitsSmall(Octet(s, start / 8), if start / 8 < (start + 4) / 8 then Octet(s, start / 8 + 1) else 0, start % 8);
  }

  /** A group is read back digit by digit. */
  lemma {:induction false} DigitsReadBack(s: Octets, k: nat, m: nat, tail: Octets)
    requires k <= m < 8
    ensures DecodeFrom(Digits(s)[k..m] + tail, Known(s, 5 * k), k) == DecodeFrom(tail, Known(s, 5 * m), m)
    decreases m - k
  {
    hide ExtractBits, Known, SetBits, Digit, Undigit;
    if k == m {
      assert Digits(s)[k..m] + tail == tail;
    } else {
      var t, v := Digits(s)[k..m] + tail, ExtractBits(s, 5 * k);
      assert t[0] == Digit(v) && t[1..] == Digits(s)[k + 1..m] + tail;
      ValueSmall(s, 5 * k);
      DigitRoundTrip(v);
      FiveMore(s, k);
      DigitsReadBack(s, k + 1, m, tail);
    }
  }

  lemma KnownWhole(s: Octets, n: nat, bits: nat)
    requires n <= 5 && n <= |s| && 8 * n <= bits
    ensures Known(s, bits)[..n] == s[..n]
  {
    hide Known, Masked;
    forall j | 0 <= j < n ensures Known(s, bits)[j] == s[j] {
      KnownAt(s, bits, j);
      MaskedEdges(Octet(s, j), bits - 8 * j);
    }
  }

  lemma KnownNone(s: Octets)
    ensures Known(s, 0) == BLANK
  {
    hide Masked;
    MaskedEdges(Octet(s, 0), 0);
    MaskedEdges(Octet(s, 1), -8);
    MaskedEdges(Octet(s, 2), -16);
    MaskedEdges(Octet(s, 3), -24);
    MaskedEdges(Octet(s, 4), -32);
  }

  lemma FullGroupReadBack(s: Octets, tail: Octets)
    requires |s| >= 5
    ensures Decode(Group(s) + tail) == s[..5] + Decode(tail)
  {
    hide ExtractBits, Known, SetBits, Digit, Undigit;
    var g, v := Digits(s), ExtractBits(s, 35);
    assert Group(s) + tail == g[0..7] + ([g[7]] + tail);
    KnownNone(s);
    DigitsReadBack(s, 0, 7, [g[7]] + tail);
    ValueSmall(s, 35);
    DigitRoundTrip(v);
    FiveMore(s, 7);
    KnownWhole(s, 5, 40);
    assert ([g[7]] + tail)[1..] == tail;
  }

  lemma LastGroupReadBack(s: Octets)
    requires 0 < |s| < 5
    ensures Decode(Group(s)) == s
  {
    hide ExtractBits, Known, SetBits, Digit, Undigit;
    var g, n := Digits(s), Stuffing(|s|);
    var m := 8 - n;
    assert Group(s) == g[0..m] + Padding(n);
    KnownNone(s);
    DigitsReadBack(s, 0, m, Padding(n));
    assert Undigit(STUFFING) == STUFFING by { StuffingEnds(); }
    assert m * 5 / 8 == |s|;
    KnownWhole(s, |s|, 5 * m);
  }

  lemma StuffingEnds()
    ensures Undigit(STUFFING) == STUFFING
  {
  }

  /** Decoding an encoding gives every string back. */
  lemma {:induction false} RoundTrip(s: Octets)
    ensures Decode(Encode(s)) == s
    decreases |s|
  {
    hide Group, Known, Undigit, SetBits;
    if s == [] {
    } else if |s| < 5 {
      assert Encode([]) == [];
      LastGroupReadBack(s);
      assert Group(s) + [] == Group(s);
    } else {
      RoundTrip(Rest(s));
      FullGroupReadBack(s, Encode(Rest(s)));
      assert s[..5] + Rest(s) == s;
    }
  }

  // ---------------------------------------------------------------- encoding keeps the order

  /** Lexicographic order of strings of one length. */
  predicate Less(a: Octets, b: Octets)
    requires |a| == |b|
  {
    a != [] && (a[0] < b[0] || (a[0] == b[0] && Less(a[1..], b[1..])))
  }

  lemma {:induction false} LessConcat(a: Octets, b: Octets, c: Octets, d: Octets)
    requires |a| == |c| && |b| == |d|
    ensures Less(a + b, c + d) <==> Less(a, c) || (a == c && Less(b, d))
  {
    if a == [] {
      assert a + b == b && c + d == d;
    } else {
      assert (a + b)[1..] == a[1..] + b && (c + d)[1..] == c[1..] + d;
      LessConcat(a[1..], b, c[1..], d);
      assert a == [a[0]] + a[1..] && c == [c[0]] + c[1..];
    }
  }

  lemma {:induction false} NotLessItself(a: Octets)
    ensures !Less(a, a)
  {
    if a != [] { NotLessItself(a[1..]); }
  }

  predicate Below(a: bv8, b: bv8) { a < b }

  /** The smaller octet has the smaller digit where their digits first differ. */
  lemma SmallerFirst(a: bv8, b: bv8, p: bv8, q: bv8)
    requires Below(a, p)
    ensures Below(FiveBits(a, 0, 0), FiveBits(p, 0, 0))
            || (FiveBits(a, 0, 0) == FiveBits(p, 0, 0) && Below(FiveBits(a, b, 5), FiveBits(p, q, 5)))
  {
  }

  lemma SmallerSecond(a: bv8, b: bv8, c: bv8, q: bv8, r: bv8)
    requires Below(b, q)
    ensures Below(FiveBits(a, b, 5), FiveBits(a, q, 5))
            || (FiveBits(a, b, 5) == FiveBits(a, q, 5)
                && (Below(FiveBits(b, 0, 2), FiveBits(q, 0, 2))
                    || (FiveBits(b, 0, 2) == FiveBits(q, 0, 2) && Below(FiveBits(b, c, 7), FiveBits(q, r, 7)))))
  {
  }

  lemma SmallerThird(b: bv8, c: bv8, d: bv8, r: bv8, s: bv8)
    requires Below(c, r)
    ensures Below(FiveBits(b, c, 7), FiveBits(b, r, 7))
            || (FiveBits(b, c, 7) == FiveBits(b, r, 7) && Below(FiveBits(c, d, 4), FiveBits(r, s, 4)))
  {
  }

  lemma SmallerFourth(c: bv8, d: bv8, e: bv8, s: bv8, t: bv8)
    requires Below(d, s)
    ensures Below(FiveBits(c, d, 4), FiveBits(c, s, 4))
            || (FiveBits(c, d, 4) == FiveBits(c, s, 4)
                && (Below(FiveBits(d, 0, 1), FiveBits(s, 0, 1))
                    || (FiveBits(d, 0, 1) == FiveBits(s, 0, 1) && Below(FiveBits(d, e, 6), FiveBits(s, t, 6)))))
  {
  }

  lemma SmallerFifth(d: bv8, e: bv8, t: bv8)
    requires Below(e, t)
    ensures Below(FiveBits(d, e, 6), FiveBits(d, t, 6))
            || (FiveBits(d, e, 6) == FiveBits(d, t, 6) && Below(FiveBits(e, 0, 3), FiveBits(t, 0, 3)))
  {
  }

  /** Equal octets give equal digits. */
  lemma SameDigit(x: Octets, y: Octets, n: nat, j: nat)
    requires 5 * n + 5 <= 8 * j && forall i :: 0 <= i < j ==> Octet(x, i) == Octet(y, i)
    ensures ExtractBits(x, 5 * n) == ExtractBits(y, 5 * n)
  {
    hide FiveBits;
  }

  /** The digits of a group, octet by octet. */
  lemma DigitValues(s: Octets)
    ensures var a, b, c, d, e := Octet(s, 0), Octet(s, 1), Octet(s, 2), Octet(s, 3), Octet(s, 4);
            && ExtractBits(s, 0) == FiveBits(a, 0, 0) && ExtractBits(s, 5) == FiveBits(a, b, 5)
            && ExtractBits(s, 10) == FiveBits(b, 0, 2) && ExtractBits(s, 15) == FiveBits(b, c, 7)
            && ExtractBits(s, 20) == FiveBits(c, d, 4) && ExtractBits(s, 25) == FiveBits(d, 0, 1)
            && ExtractBits(s, 30) == FiveBits(d, e, 6) && ExtractBits(s, 35) == FiveBits(e, 0, 3)
  {
    hide FiveBits;
  }

  /** The last digit that holds bits of octet j of a group. */
  function LastDigit(j: nat): nat {
    (8 * j + 7) / 5
  }

  /** The value of digit n of a group. */
  function Value(s: Octets, n: nat): bv8 {
    ExtractBits(s, 5 * n)
  }

  /** The values of all digits, octet by octet. */
  lemma Values8(s: Octets)
    ensures var a, b, c, d, e := Octet(s, 0), Octet(s, 1), Octet(s, 2), Octet(s, 3), Octet(s, 4);
            && Value(s, 0) == FiveBits(a, 0, 0) && Value(s, 1) == FiveBits(a, b, 5)
            && Value(s, 2) == FiveBits(b, 0, 2) && Value(s, 3) == FiveBits(b, c, 7)
            && Value(s, 4) == FiveBits(c, d, 4) && Value(s, 5) == FiveBits(d, 0, 1)
            && Value(s, 6) == FiveBits(d, e, 6) && Value(s, 7) == FiveBits(e, 0, 3)
  {
    hide FiveBits, ExtractBits;
    DigitValues(s);
  }

  /** Two groups first differ in digit n, x having the smaller one. */
  ghost predicate DiffersAt(x: Octets, y: Octets, n: nat) {
    Below(Value(x, n), Value(y, n)) && forall i :: 0 <= i < n ==> Value(x, i) == Value(y, i)
  }

  /** The first octet decides digit 0 or 1. */
  lemma FirstOctet(x: Octets, y: Octets)
    requires Below(Octet(x, 0), Octet(y, 0))
    ensures DiffersAt(x, y, 0) || DiffersAt(x, y, 1)
  {
    hide FiveBits, Value, Below, Octet;
    Values8(x);
    Values8(y);
    SmallerFirst(Octet(x, 0), Octet(x, 1), Octet(y, 0), Octet(y, 1));
  }

  /** The second one digit 1, 2 or 3. */
  lemma SecondOctet(x: Octets, y: Octets)
    requires Octet(x, 0) == Octet(y, 0) && Below(Octet(x, 1), Octet(y, 1))
    ensures DiffersAt(x, y, 1) || DiffersAt(x, y, 2) || DiffersAt(x, y, 3)
  {
    hide FiveBits, Value, Below, Octet;
    Values8(x);
    Values8(y);
    SmallerSecond(Octet(x, 0), Octet(x, 1), Octet(x, 2), Octet(y, 1), Octet(y, 2));
  }

  /** The third one digit 3 or 4. */
  lemma ThirdOctet(x: Octets, y: Octets)
    requires Octet(x, 0) == Octet(y, 0) && Octet(x, 1) == Octet(y, 1) && Below(Octet(x, 2), Octet(y, 2))
    ensures DiffersAt(x, y, 3) || DiffersAt(x, y, 4)
  {
    hide FiveBits, Value, Below, Octet;
    Values8(x);
    Values8(y);
    SmallerThird(Octet(x, 1), Octet(x, 2), Octet(x, 3), Octet(y, 2), Octet(y, 3));
  }

  /** The fourth one digit 4, 5 or 6. */
  lemma FourthOctet(x: Octets, y: Octets)
    requires Octet(x, 0) == Octet(y, 0) && Octet(x, 1) == Octet(y, 1) && Octet(x, 2) == Octet(y, 2)
    requires Below(Octet(x, 3), Octet(y, 3))
    ensures DiffersAt(x, y, 4) || DiffersAt(x, y, 5) || DiffersAt(x, y, 6)
  {
    hide FiveBits, Value, Below, Octet;
    Values8(x);
    Values8(y);
    SmallerFourth(Octet(x, 2), Octet(x, 3), Octet(x, 4), Octet(y, 3), Octet(y, 4));
  }

  /** The fifth one digit 6 or 7. */
  lemma FifthOctet(x: Octets, y: Octets)
    requires Octet(x, 0) == Octet(y, 0) && Octet(x, 1) == Octet(y, 1) && Octet(x, 2) == Octet(y, 2)
    requires Octet(x, 3) == Octet(y, 3) && Below(Octet(x, 4), Octet(y, 4))
    ensures DiffersAt(x, y, 6) || DiffersAt(x, y, 7)
  {
    hide FiveBits, Value, Below, Octet;
    Values8(x);
    Values8(y);
    SmallerFifth(Octet(x, 3), Octet(x, 4), Octet(y, 4));
  }

  /** Where two groups first differ in octet j, they first differ in one of its digits, the same way. */
  lemma FirstDifference(x: Octets, y: Octets, j: nat) returns (n: nat)
    requires j < 5 && Below(Octet(x, j), Octet(y, j)) && forall i :: 0 <= i < j ==> Octet(x, i) == Octet(y, i)
    ensures n <= LastDigit(j) && DiffersAt(x, y, n)
  {
    hide Octet, Below, DiffersAt;
    if j == 0 {
      FirstOctet(x, y);
    } else if j == 1 {
      SecondOctet(x, y);
    } else if j == 2 {
      ThirdOctet(x, y);
    } else if j == 3 {
      FourthOctet(x, y);
    } else {
      FifthOctet(x, y);
    }
    n :| n <= LastDigit(j) && DiffersAt(x, y, n);
  }

  lemma {:induction false} LessAt(a: Octets, b: Octets, n: nat)
    requires |a| == |b| && n < |a| && a[n] < b[n] && forall i :: 0 <= i < n ==> a[i] == b[i]
    ensures Less(a, b)
  {
    if n > 0 { LessAt(a[1..], b[1..], n - 1); }
  }

  /** The first difference decides. */
  lemma {:induction false} LessWhere(a: Octets, b: Octets) returns (n: nat)
    requires |a| == |b| && Less(a, b)
    ensures n < |a| && a[n] < b[n] && forall i :: 0 <= i < n ==> a[i] == b[i]
  {
    if a[0] < b[0] {
      n := 0;
    } else {
      var m := LessWhere(a[1..], b[1..]);
      n := m + 1;
      forall i | 0 <= i < n ensures a[i] == b[i] {
        if i > 0 { assert a[i] == a[1..][i - 1] && b[i] == b[1..][i - 1]; }
      }
    }
  }

  lemma GroupOrder(x: Octets, y: Octets, j: nat)
    requires |x| == |y| && j < 5 && j < |x| && x[j] < y[j] && forall i :: 0 <= i < j ==> x[i] == y[i]
    ensures Less(Group(x), Group(y))
  {
    hide ExtractBits, Digit, Less;
    var n := FirstDifference(x, y, j);
    assert n < 8 - Stuffing(|x|);
    var g, h := Group(x), Group(y);
    forall i | 0 <= i <= n
      ensures g[i] == Digit(ExtractBits(x, 5 * i)) && h[i] == Digit(ExtractBits(y, 5 * i))
      ensures if i < n then g[i] == h[i] else g[i] < h[i]
    {
      ValueSmall(x, 5 * i);
      ValueSmall(y, 5 * i);
      assert i < n ==> Value(x, i) == Value(y, i);
      DigitOrder(ExtractBits(x, 5 * i), ExtractBits(y, 5 * i));
    }
    LessAt(g, h, n);
  }

  lemma {:induction false} EncodedLength(x: Octets, y: Octets)
    requires |x| == |y|
    ensures |Encode(x)| == |Encode(y)|
    decreases |x|
  {
    hide Group;
    if x != [] { EncodedLength(Rest(x), Rest(y)); }
  }

  lemma SameGroup(x: Octets, y: Octets)
    requires |x| == |y| && x[..if |x| <= 5 then |x| else 5] == y[..if |x| <= 5 then |x| else 5]
    ensures Group(x) == Group(y)
  {
    hide ExtractBits, Digit;
    var m := if |x| <= 5 then |x| else 5;
    forall i | 0 <= i < 5 ensures Octet(x, i) == Octet(y, i) {
      if i < m { assert x[..m][i] == y[..m][i]; }
    }
    forall n | 0 <= n < 8 ensures Digits(x)[n] == Digits(y)[n] {
      SameDigit(x, y, n, 5);
    }
    assert Digits(x) == Digits(y);
  }

  lemma {:induction false} OrderForward(x: Octets, y: Octets)
    requires |x| == |y| && Less(x, y)
    ensures |Encode(x)| == |Encode(y)| && Less(Encode(x), Encode(y))
    decreases |x|
  {
    hide Group, Less;
    EncodedLength(x, y);
    var n := LessWhere(x, y);
    LessConcat(Group(x), Encode(Rest(x)), Group(y), Encode(Rest(y)));
    if n < 5 {
      GroupOrder(x, y, n);
    } else {
      SameGroup(x, y);
      LessAt(Rest(x), Rest(y), n - 5);
      OrderForward(Rest(x), Rest(y));
    }
  }

  lemma {:induction false} Trichotomy(a: Octets, b: Octets)
    requires |a| == |b|
    ensures Less(a, b) || a == b || Less(b, a)
    ensures !(Less(a, b) && Less(b, a))
  {
    if a != [] {
      Trichotomy(a[1..], b[1..]);
      assert a == [a[0]] + a[1..] && b == [b[0]] + b[1..];
    }
  }

  /** For strings of one length the order of the encodings is the order of the strings. */
  lemma OrderKept(x: Octets, y: Octets)
    requires |x| == |y|
    ensures |Encode(x)| == |Encode(y)| && (Less(Encode(x), Encode(y)) <==> Less(x, y))
  {
    hide Encode, Less;
    EncodedLength(x, y);
    Trichotomy(x, y);
    if Less(x, y) {
      OrderForward(x, y);
    } else if Less(y, x) {
      OrderForward(y, x);
      Trichotomy(Encode(x), Encode(y));
    } else {
      NotLessItself(Encode(x));
    }
  }

  // ---------------------------------------------------------------- the digits are the bits

  /** Five octets as one number. */
  function Word(a: bv8, b: bv8, c: bv8, d: bv8, e: bv8): bv40 {
    ((a as bv40) << 32) | ((b as bv40) << 24) | ((c as bv40) << 16) | ((d as bv40) << 8) | (e as bv40)
  }

  /** Eight five-bit values as one number. */
  function Values(a: bv8, b: bv8, c: bv8, d: bv8, e: bv8, f: bv8, g: bv8, h: bv8): bv40 {
    ((a as bv40) << 35) | ((b as bv40) << 30) | ((c as bv40) << 25) | ((d as bv40) << 20)
    | ((e as bv40) << 15) | ((f as bv40) << 10) | ((g as bv40) << 5) | (h as bv40)
  }

  lemma SameBits(a: bv8, b: bv8, c: bv8, d: bv8, e: bv8)
    ensures Word(a, b, c, d, e) ==
              Values(FiveBits(a, 0, 0), FiveBits(a, b, 5), FiveBits(b, 0, 2), FiveBits(b, c, 7),
                     FiveBits(c, d, 4), FiveBits(d, 0, 1), FiveBits(d, e, 6), FiveBits(e, 0, 3))
  {
  }

  /** The digits of a group are the forty bits of its octets, five by five. */
  lemma GroupBits(s: Octets)
    ensures Word(Octet(s, 0), Octet(s, 1), Octet(s, 2), Octet(s, 3), Octet(s, 4)) ==
              Values(ExtractBits(s, 0), ExtractBits(s, 5), ExtractBits(s, 10), ExtractBits(s, 15),
                     ExtractBits(s, 20), ExtractBits(s, 25), ExtractBits(s, 30), ExtractBits(s, 35))
  {
    hide FiveBits, ExtractBits, Word, Values;
    DigitValues(s);
    SameBits(Octet(s, 0), Octet(s, 1), Octet(s, 2), Octet(s, 3), Octet(s, 4));
  }

  // ---------------------------------------------------------------- decoding ignores case

  lemma {:induction false} DecodeSame(t: Octets, u: Octets, block: Octets, k: nat)
    requires |t| == |u| && |block| == 5 && k < 8
    requires forall i :: 0 <= i < |t| ==> SameDigitText(t[i], u[i])
    ensures DecodeFrom(t, block, k) == DecodeFrom(u, block, k)
    decreases |t|
  {
    hide SetBits, SameDigitText, Undigit, DecodeFrom;
    DecodeStep(t, block, k);
    DecodeStep(u, block, k);
    if t != [] {
      UndigitSame(t[0], u[0]);
      if !Ends(t[0]) {
        var b := SetBits(block, Undigit(t[0]), 5 * k);
        if k == 7 { DecodeSame(t[1..], u[1..], BLANK, 0); } else { DecodeSame(t[1..], u[1..], b, k + 1); }
      }
    }
  }

  /** Texts that differ only in the case of letters are decoded alike. */
  lemma CaseIgnored(t: Octets, u: Octets)
    requires |t| == |u|
    requires forall i :: 0 <= i < |t| ==>
               t[i] == u[i] || (65 <= t[i] <= 90 && u[i] == t[i] + 32) || (65 <= u[i] <= 90 && t[i] == u[i] + 32)
    ensures Decode(t) == Decode(u)
  {
    DecodeSame(t, u, BLANK, 0);
  }
}
