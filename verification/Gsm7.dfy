/**
  Packing of the GSM 7-bit default alphabet (3GPP TS 23.038 section 6.1.2): septets laid end to end,
  least significant bit first, in octets.
 */
module Gsm7 {

  type byte = bv8

  const CR: byte := 0x0D
  const SPACE: byte := 0x20

  // ---------------------------------------------------------------------------------------
  // The meaning: streams of bits.
  // ---------------------------------------------------------------------------------------

  /** Bit j of an octet, counted from the least significant. */
  function BitAt(b: byte, j: nat): bool
    requires j < 8
  {
    match j
    case 0 => b & 0x01 != 0
    case 1 => b & 0x02 != 0
    case 2 => b & 0x04 != 0
    case 3 => b & 0x08 != 0
    case 4 => b & 0x10 != 0
    case 5 => b & 0x20 != 0
    case 6 => b & 0x40 != 0
    case _ => b & 0x80 != 0
  }

  predicate Septets(s: seq<byte>) {
    forall i :: 0 <= i < |s| ==> s[i] < 0x80
  }

  function SeptetBit(s: seq<byte>, k: nat): bool
    requires k < 7 * |s|
  {
    BitAt(s[k / 7], k % 7)
  }

  function OctetBit(s: seq<byte>, k: nat): bool
    requires k < 8 * |s|
  {
    BitAt(s[k / 8], k % 8)
  }

  // ---------------------------------------------------------------------------------------
  // The octets and septets, one by one.
  // ---------------------------------------------------------------------------------------

  /** ceil(7n / 8) */
  function PackedLength(n: nat): nat {
    (7 * n + 7) / 8
  }

  /** The first septet that has bits in octet pos. */
  function FirstSeptet(pos: nat): nat {
    8 * (pos / 7) + pos % 7
  }

  /** The end of one septet below the start of the next one. */
  function Straddle(a: byte, b: byte, s: nat): byte
    requires s < 7
  {
    (a >> s) | (b << (7 - s))
  }

  /** What stands above the last septet: zeros, or a CR when seven bits are left. */
  function Above(src: seq<byte>, i: nat, s: nat): byte {
    if i + 1 < |src| then src[i + 1] else if s == 6 then CR else 0
  }

  lemma FirstSeptetInRange(n: nat, pos: nat)
    requires pos < PackedLength(n)
    ensures FirstSeptet(pos) < n
  {
  }

  function PackedOctet(src: seq<byte>, pos: nat): byte
    requires pos < PackedLength(|src|)
  {
    FirstSeptetInRange(|src|, pos);
    var i, s := FirstSeptet(pos), pos % 7;
    Straddle(src[i], Above(src, i, s), s)
  }

  function Packed(src: seq<byte>): (dest: seq<byte>)
    ensures |dest| == PackedLength(|src|)
  {
    seq(PackedLength(|src|), pos requires 0 <= pos < PackedLength(|src|) => PackedOctet(src, pos))
  }

  function UnpackedLength(m: nat): nat {
    8 * m / 7
  }

  /** The octet before octet pos; none stands for zero. */
  function Before(src: seq<byte>, pos: nat): byte
    requires pos <= |src|
  {
    if pos > 0 then src[pos - 1] else 0
  }

  /** A septet cut out of two neighbouring octets: t bits of the lower one, 7 - t of the upper. */
  function Cut(low: byte, high: byte, t: nat): byte
    requires t < 7
  {
    ((high << t) & 0x7F) | (low >> (8 - t))
  }

  function UnpackedSeptet(src: seq<byte>, i: nat): byte
    requires i < UnpackedLength(|src|)
  {
    var q, t := i / 8, i % 8;
    if t == 7 then src[7 * q + 6] >> 1 else Cut(Before(src, 7 * q + t), src[7 * q + t], t)
  }

  function Unpacked(src: seq<byte>): (dest: seq<byte>)
    ensures |dest| == UnpackedLength(|src|)
  {
    seq(UnpackedLength(|src|), i requires 0 <= i < UnpackedLength(|src|) => UnpackedSeptet(src, i))
  }

  function CrToSpace(b: byte): byte {
    if b == CR then SPACE else b
  }

  function CrsToSpaces(s: seq<byte>): seq<byte> {
    seq(|s|, i requires 0 <= i < |s| => CrToSpace(s[i]))
  }

  // ---------------------------------------------------------------------------------------
  // The program's loops.
  // ---------------------------------------------------------------------------------------

  lemma FirstOfAll()
    ensures FirstSeptet(0) == 0
  {
  }

  method PackOne(src: seq<byte>, i: nat, shift: nat) returns (octet: byte)
    requires i < |src| && shift < 7
    ensures octet == Straddle(src[i], Above(src, i, shift), shift)
  {
    octet := src[i] >> shift;
    if i + 1 < |src| {
      octet := octet | (src[i + 1] << (7 - shift));
    } else if shift == 6 {
      octet := octet | 0x1A;
    }
  }

  lemma OctetPlace(pos: nat, i: nat, shift: nat, n: nat)
    requires i < n && i == FirstSeptet(pos) && shift == pos % 7 && pos < PackedLength(n)
    ensures shift < 6 ==> FirstSeptet(pos + 1) == i + 1 && (pos + 1) % 7 == shift + 1
    ensures shift == 6 ==> FirstSeptet(pos + 1) == i + 2 && (pos + 1) % 7 == 0
    ensures i + 1 == n ==> pos + 1 == PackedLength(n)
    ensures FirstSeptet(pos + 1) < n <==> pos + 1 < PackedLength(n)
  {
  }

  method Pack(src: seq<byte>) returns (dest: array?<byte>)
    ensures dest == null <==> src == []
    ensures dest != null ==> fresh(dest) && PackedLength(|src|) <= dest.Length
    ensures dest != null ==> dest[..PackedLength(|src|)] == Packed(src)
    ensures dest != null ==> forall k :: PackedLength(|src|) <= k < dest.Length ==> dest[k] == 0
  {
    if |src| == 0 {
      return null;
    }
    hide Straddle, FirstSeptet;
    FirstOfAll();
    var outLen := |src| * 7 / 8 + 1;
    var d := new byte[outLen + 1](i => 0);
    var pos, i, shift := 0, 0, 0;
    while i < |src|
      invariant i < |src| ==> i == FirstSeptet(pos) && shift == pos % 7 && pos < PackedLength(|src|) <= outLen
      invariant i >= |src| ==> pos == PackedLength(|src|)
      invariant pos <= PackedLength(|src|) < d.Length
      invariant forall k :: 0 <= k < pos ==> d[k] == PackedOctet(src, k)
      invariant forall k :: pos <= k < d.Length ==> d[k] == 0
      decreases |src| - i
    {
      if pos >= outLen {
        assert false;
      }
      OctetPlace(pos, i, shift, |src|);
      d[pos] := PackOne(src, i, shift);
      if i + 1 < |src| {
        shift := shift + 1;
        if shift == 7 {
          shift := 0;
          i := i + 1;
        }
      }
      pos := pos + 1;
      i := i + 1;
    }
    dest := d;
  }

  method CutOut(src: seq<byte>, pos: nat, shift: nat) returns (septet: byte)
    requires pos < |src| && shift < 7 && (pos == 0 ==> shift == 0)
    ensures septet == Cut(Before(src, pos), src[pos], shift)
  {
    septet := (src[pos] << shift) & 0x7F;
    if pos != 0 {
      // Except for the first octet, a character holds bits of the octet before.
      septet := septet | (src[pos - 1] >> (8 - shift));
    }
  }

  /** One octet yields the rest of a septet, and every seventh a whole one more. */
  method UnpackSeptets(src: seq<byte>) returns (d: array<byte>)
    ensures fresh(d) && d.Length == UnpackedLength(|src|) + 1
    ensures d[..UnpackedLength(|src|)] == Unpacked(src)
  {
    hide PackedOctet, Cut;
    var outLen := |src| * 8 / 7;
    d := new byte[outLen + 1](i => 0);
    var i, pos, shift := 0, 0, 0;
    while pos < |src|
      invariant 0 <= pos <= |src| && i == FirstSeptet(pos) && shift == pos % 7
      invariant i <= outLen
      invariant forall k :: 0 <= k < i ==> d[k] == UnpackedSeptet(src, k)
    {
      SeptetPlace(pos, shift, i, |src|);
      d[i] := CutOut(src, pos, shift);
      shift := shift + 1;
      if shift == 7 {
        shift := 0;
        i := i + 1;
        assert src[pos] >> 1 == UnpackedSeptet(src, i);
        d[i] := src[pos] >> 1;
      }
      i := i + 1;
      pos := pos + 1;
    }
  }

  lemma SeptetPlace(pos: nat, shift: nat, i: nat, m: nat)
    requires pos < m && i == FirstSeptet(pos) && shift == pos % 7
    ensures i < UnpackedLength(m) && i / 8 == pos / 7 && i % 8 == shift && 7 * (i / 8) + shift == pos
    ensures shift < 6 ==> FirstSeptet(pos + 1) == i + 1 && (pos + 1) % 7 == shift + 1
    ensures shift == 6 ==> FirstSeptet(pos + 1) == i + 2 && (pos + 1) % 7 == 0
    ensures shift == 6 ==> i + 1 < UnpackedLength(m) && (i + 1) / 8 == pos / 7 && (i + 1) % 8 == 7
    ensures pos + 1 == m ==> FirstSeptet(m) == UnpackedLength(m)
  {
  }

  method Unpack(src: seq<byte>) returns (dest: array?<byte>)
    ensures dest == null <==> src == []
    ensures dest != null ==> fresh(dest) && dest.Length == UnpackedLength(|src|) + 1
    ensures dest != null ==> dest[..UnpackedLength(|src|)] == CrsToSpaces(Unpacked(src))
    ensures dest != null ==> dest[UnpackedLength(|src|)] == 0
  {
    if |src| == 0 {
      return null;
    }
    hide UnpackedSeptet;
    var d := UnpackSeptets(src);
    var outLen := UnpackedLength(|src|);
    ghost var septets := Unpacked(src);
    assert forall k :: 0 <= k < outLen ==> d[k] == d[..outLen][k];
    var i := 0;
    while i < outLen
      invariant 0 <= i <= outLen
      invariant forall k :: 0 <= k < i ==> d[k] == CrToSpace(septets[k])
      invariant forall k :: i <= k < outLen ==> d[k] == septets[k]
    {
      if d[i] == CR {
        d[i] := SPACE;
      }
      i := i + 1;
    }
    d[outLen] := 0;
    dest := d;
  }

  // ---------------------------------------------------------------------------------------
  // Packing is bit concatenation.
  // ---------------------------------------------------------------------------------------

  lemma StraddleBits(a: byte, b: byte, s: nat, j: nat)
    requires a < 0x80 && s < 7 && j < 8
    ensures BitAt(Straddle(a, b, s), j) == if s + j < 7 then BitAt(a, s + j) else BitAt(b, s + j - 7)
  {
    hide Straddle, BitAt;
    if s == 0 { StraddleBits0(a, b, j); }
    else if s == 1 { StraddleBits1(a, b, j); }
    else if s == 2 { StraddleBits2(a, b, j); }
    else if s == 3 { StraddleBits3(a, b, j); }
    else if s == 4 { StraddleBits4(a, b, j); }
    else if s == 5 { StraddleBits5(a, b, j); }
    else { StraddleBits6(a, b, j); }
  }

  lemma StraddleBits0(a: byte, b: byte, j: nat)
    requires a < 0x80 && j < 8
    ensures BitAt(Straddle(a, b, 0), j) == if 0 + j < 7 then BitAt(a, 0 + j) else BitAt(b, 0 + j - 7)
  {}

  lemma StraddleBits1(a: byte, b: byte, j: nat)
    requires a < 0x80 && j < 8
    ensures BitAt(Straddle(a, b, 1), j) == if 1 + j < 7 then BitAt(a, 1 + j) else BitAt(b, 1 + j - 7)
  {}

  lemma StraddleBits2(a: byte, b: byte, j: nat)
    requires a < 0x80 && j < 8
    ensures BitAt(Straddle(a, b, 2), j) == if 2 + j < 7 then BitAt(a, 2 + j) else BitAt(b, 2 + j - 7)
  {}

  lemma StraddleBits3(a: byte, b: byte, j: nat)
    requires a < 0x80 && j < 8
    ensures BitAt(Straddle(a, b, 3), j) == if 3 + j < 7 then BitAt(a, 3 + j) else BitAt(b, 3 + j - 7)
  {}

  lemma StraddleBits4(a: byte, b: byte, j: nat)
    requires a < 0x80 && j < 8
    ensures BitAt(Straddle(a, b, 4), j) == if 4 + j < 7 then BitAt(a, 4 + j) else BitAt(b, 4 + j - 7)
  {}

  lemma StraddleBits5(a: byte, b: byte, j: nat)
    requires a < 0x80 && j < 8
    ensures BitAt(Straddle(a, b, 5), j) == if 5 + j < 7 then BitAt(a, 5 + j) else BitAt(b, 5 + j - 7)
  {}

  lemma StraddleBits6(a: byte, b: byte, j: nat)
    requires a < 0x80 && j < 8
    ensures BitAt(Straddle(a, b, 6), j) == if 6 + j < 7 then BitAt(a, 6 + j) else BitAt(b, 6 + j - 7)
  {}

  lemma DivMod(k: nat, d: nat, q: nat, r: nat)
    requires d == 7 || d == 8
    requires k == d * q + r && r < d
    ensures k / d == q && k % d == r
  {
  }

  function PadBit(n: nat, k: nat): bool
    requires 7 * n <= k < 8 * PackedLength(n)
  {
    n % 8 == 7 && k - 7 * n < 7 && BitAt(CR, k - 7 * n)
  }

  /**
    Bit k of the packed octets is bit k of the septets laid end to end; what is left of the last
    octet is zero, or a CR when it is a whole septet.
   */
  lemma PackedBits(src: seq<byte>, k: nat)
    requires Septets(src) && k < 8 * PackedLength(|src|)
    ensures OctetBit(Packed(src), k) == if k < 7 * |src| then SeptetBit(src, k) else PadBit(|src|, k)
  {
    hide Straddle, BitAt, Above, Packed, PackedOctet;
    var pos, j := k / 8, k % 8;
    var s := pos % 7;
    FirstSeptetInRange(|src|, pos);
    var i := FirstSeptet(pos);
    PackedOctetIs(src, pos);
    if i + 1 == |src| {
      LastSeptet(|src|, pos);
    }
    assert k == 7 * i + (s + j);
    hide FirstSeptet, PackedLength;
    StraddleBits(src[i], Above(src, i, s), s, j);
    if s + j < 7 {
      DivMod(k, 7, i, s + j);
    } else {
      DivMod(k, 7, i + 1, s + j - 7);
      AboveBits(src, i, s, s + j - 7);
    }
  }

  /** The octet that holds the end of the last septet. */
  lemma LastSeptet(n: nat, pos: nat)
    requires pos < PackedLength(n) && FirstSeptet(pos) + 1 == n
    ensures n % 8 == pos % 7 + 1
  {
  }

  lemma PackedOctetIs(src: seq<byte>, pos: nat)
    requires pos < PackedLength(|src|) && FirstSeptet(pos) < |src|
    ensures Packed(src)[pos] == Straddle(src[FirstSeptet(pos)], Above(src, FirstSeptet(pos), pos % 7), pos % 7)
  {
    hide Straddle, Above;
  }

  lemma AboveBits(src: seq<byte>, i: nat, s: nat, t: nat)
    requires i < |src| && s < 7 && t < 7
    requires s == 6 ==> (i + 1 == |src| ==> |src| % 8 == 7)
    requires s < 6 ==> (i + 1 == |src| ==> |src| % 8 == s + 1)
    ensures BitAt(Above(src, i, s), t) ==
      if i + 1 < |src| then BitAt(src[i + 1], t) else |src| % 8 == 7 && BitAt(CR, t)
  {
  }

  // ---------------------------------------------------------------------------------------
  // Unpacking reads the septets back.
  // ---------------------------------------------------------------------------------------

  /** The same bits, wherever they stand: bit b of the cut is bit 8 - t + b of the two octets end to end. */
  predicate CutBit(low: byte, high: byte, t: nat, b: nat)
    requires t < 7 && b < 7
  {
    BitAt(Cut(low, high, t), b) == if b < t then BitAt(low, 8 - t + b) else BitAt(high, b - t)
  }

  lemma CutBits0(low: byte, high: byte, b: nat)
    requires b < 7
    ensures CutBit(low, high, 0, b)
  {}

  lemma CutBits1(low: byte, high: byte, b: nat)
    requires b < 7
    ensures CutBit(low, high, 1, b)
  {}

  lemma CutBits2(low: byte, high: byte, b: nat)
    requires b < 7
    ensures CutBit(low, high, 2, b)
  {}

  lemma CutBits3(low: byte, high: byte, b: nat)
    requires b < 7
    ensures CutBit(low, high, 3, b)
  {}

  lemma CutBits4(low: byte, high: byte, b: nat)
    requires b < 7
    ensures CutBit(low, high, 4, b)
  {}

  lemma CutBits5(low: byte, high: byte, b: nat)
    requires b < 7
    ensures CutBit(low, high, 5, b)
  {}

  lemma CutBits6(low: byte, high: byte, b: nat)
    requires b < 7
    ensures CutBit(low, high, 6, b)
  {}

  lemma CutBits(low: byte, high: byte, t: nat, b: nat)
    requires t < 7 && b < 7
    ensures CutBit(low, high, t, b)
  {
    hide CutBit;
    if t == 0 { CutBits0(low, high, b); }
    else if t == 1 { CutBits1(low, high, b); }
    else if t == 2 { CutBits2(low, high, b); }
    else if t == 3 { CutBits3(low, high, b); }
    else if t == 4 { CutBits4(low, high, b); }
    else if t == 5 { CutBits5(low, high, b); }
    else { CutBits6(low, high, b); }
  }

  lemma SeptetRange(low: byte, high: byte, t: nat)
    requires t < 7
    ensures Cut(low, high, t) < 0x80 && low >> 1 < 0x80
  {
  }

  /** Bits 1..7 of an octet, moved down by one. */
  lemma TopBits(low: byte, b: nat)
    requires b < 7
    ensures BitAt(low >> 1, b) == BitAt(low, b + 1)
  {
  }

  /** Bit b of septet i of the unpacked octets is bit 7i + b of the octets. */
  lemma UnpackedBits(o: seq<byte>, i: nat, b: nat)
    requires i < UnpackedLength(|o|) && b < 7
    ensures 7 * i + b < 8 * |o|
    ensures BitAt(UnpackedSeptet(o, i), b) == OctetBit(o, 7 * i + b)
  {
    hide BitAt, Cut;
    var q, t := i / 8, i % 8;
    if t == 7 {
      DivMod(7 * i + b, 8, 7 * q + 6, b + 1);
      TopBits(o[7 * q + 6], b);
    } else {
      var pos := 7 * q + t;
      CutBits(Before(o, pos), o[pos], t, b);
      if b < t {
        DivMod(7 * i + b, 8, pos - 1, 8 - t + b);
      } else {
        DivMod(7 * i + b, 8, pos, b - t);
      }
    }
  }

  lemma UnpackedInRange(o: seq<byte>, i: nat)
    requires i < UnpackedLength(|o|)
    ensures UnpackedSeptet(o, i) < 0x80
  {
    hide Cut;
    var q, t := i / 8, i % 8;
    if t == 7 {
      SeptetRange(o[7 * q + 6], 0, 0);
    } else {
      SeptetRange(Before(o, 7 * q + t), o[7 * q + t], t);
    }
  }

  /** Septets with the same seven bits are the same. */
  lemma SameBits(x: byte, y: byte)
    requires x < 0x80 && y < 0x80
    requires forall b: nat :: b < 7 ==> BitAt(x, b) == BitAt(y, b)
    ensures x == y
  {
    assert BitAt(x, 0) == BitAt(y, 0) && BitAt(x, 1) == BitAt(y, 1) && BitAt(x, 2) == BitAt(y, 2);
    assert BitAt(x, 3) == BitAt(y, 3) && BitAt(x, 4) == BitAt(y, 4) && BitAt(x, 5) == BitAt(y, 5);
    assert BitAt(x, 6) == BitAt(y, 6);
  }

  lemma Lengths(n: nat)
    ensures UnpackedLength(PackedLength(n)) == if n % 8 == 7 then n + 1 else n
  {
  }

  lemma RoundTripAt(src: seq<byte>, i: nat)
    requires Septets(src) && i < UnpackedLength(PackedLength(|src|))
    ensures UnpackedSeptet(Packed(src), i) == if i < |src| then src[i] else CR
  {
    hide BitAt, Packed, UnpackedSeptet;
    var octets := Packed(src);
    Lengths(|src|);
    var want := if i < |src| then src[i] else CR;
    forall b: nat | b < 7
      ensures BitAt(UnpackedSeptet(octets, i), b) == BitAt(want, b)
    {
      UnpackedBits(octets, i, b);
      PackedBits(src, 7 * i + b);
      if i < |src| {
        DivMod(7 * i + b, 7, i, b);
      }
    }
    UnpackedInRange(octets, i);
    SameBits(UnpackedSeptet(octets, i), want);
  }

  /**
    Packing and unpacking gives the septets back with CR read as a space, and one space more exactly
    when the septets fill their octets up to a whole spare septet.
   */
  lemma PackRoundTrip(src: seq<byte>)
    requires Septets(src)
    ensures CrsToSpaces(Unpacked(Packed(src))) == CrsToSpaces(src) + if |src| % 8 == 7 then [SPACE] else []
  {
    hide Packed, UnpackedSeptet;
    var octets := Packed(src);
    Lengths(|src|);
    forall i: nat | i < UnpackedLength(|octets|)
      ensures UnpackedSeptet(octets, i) == if i < |src| then src[i] else CR
    {
      RoundTripAt(src, i);
    }
  }

  /** Seven septets in seven octets leave a carriage return in the spare septet, and reading shows it as a space. */
  lemma SpareSeptet(src: seq<byte>)
    requires Septets(src) && |src| % 8 == 7
    ensures |Packed(src)| > 0 && Packed(src)[|Packed(src)| - 1] >> 1 == 0x0D
    ensures forall s: seq<byte>, i :: 0 <= i < |s| ==> CrsToSpaces(s)[i] == if s[i] == 0x0D then 0x20 else s[i]
  {
    Lengths(|src|);
    RoundTripAt(src, |src|);
    hide Packed;
  }
}
