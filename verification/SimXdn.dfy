/**
  Dialing-number records of a SIM (3GPP TS 51.011 section 10.5.1): an alpha identifier padded with
  0xFF, then fourteen octets holding a BCD number of at most twenty digits.
 */
module SimXdn {

  import opened Wrappers

  type byte = b: int | 0 <= b < 256

  const ALPHA_ID_LEN_MAX := 30
  const NUMBER_LEN_MAX := 20
  const TAIL := 14
  const PAD: byte := 0xFF

  /** What a record says. */
  datatype Xdn = Xdn(alphaMax: int, alpha: seq<byte>, numberMax: int, number: seq<byte>,
                     ton: byte, npi: byte, capability: byte, extension: byte)

  // ---------------------------------------------------------------------------------------
  // Digits and nibbles.
  // ---------------------------------------------------------------------------------------

  function ToUpper(c: byte): byte {
    if 'a' as int <= c <= 'z' as int then c - 0x20 else c
  }

  function NibbleOf(c: byte): (n: byte)
    ensures n < 16
  {
    if c == '*' as int then 0x0A
    else if c == '#' as int then 0x0B
    else if ToUpper(c) == 'P' as int then 0x0C
    else if c == '?' as int then 0x0D
    else c % 16
  }

  /** 0x0F ends the number. */
  function DigitOf(n: byte): byte
    requires n < 16
  {
    if n == 0x0A then '*' as int
    else if n == 0x0B then '#' as int
    else if n == 0x0C then 'P' as int
    else if n == 0x0D then '?' as int
    else if n == 0x0F then 0
    else if n == 0x0E then 'E' as int
    else '0' as int + n
  }

  predicate InAlphabet(c: byte) {
    '0' as int <= c <= '9' as int || c in {'*' as int, '#' as int, 'P' as int, 'p' as int, '?' as int}
  }

  /** A pause is written back in upper case. */
  function Normal(c: byte): byte {
    if c == 'p' as int then 'P' as int else c
  }

  function Normalized(number: seq<byte>): (r: seq<byte>)
    ensures |r| == |number|
  {
    seq(|number|, i requires 0 <= i < |number| => Normal(number[i]))
  }

  /** Exactly the alphabet of the format survives the nibbles. */
  lemma DigitSurvives(c: byte)
    ensures DigitOf(NibbleOf(c)) == Normal(c) <==> InAlphabet(c)
    ensures InAlphabet(c) ==> NibbleOf(c) < 0x0E && Normal(c) != 0
  {
  }

  /** 0123456789 -> 1032547698: the second digit of a pair stands in the high nibble. */
  function PairOf(number: seq<byte>, j: nat): byte
    requires 2 * j < |number|
  {
    var higher := if 2 * j + 1 < |number| then NibbleOf(number[2 * j + 1]) else 0x0F;
    higher * 16 + NibbleOf(number[2 * j])
  }

  function Pairs(number: seq<byte>): (bcd: seq<byte>)
    ensures |bcd| == (|number| + 1) / 2
  {
    seq((|number| + 1) / 2, j requires 0 <= j < (|number| + 1) / 2 => PairOf(number, j))
  }

  function DigitAt(bcd: seq<byte>, t: nat): byte
    requires t < 2 * |bcd|
  {
    DigitOf(if t % 2 == 0 then bcd[t / 2] % 16 else bcd[t / 2] / 16)
  }

  function Digits(bcd: seq<byte>): (digits: seq<byte>)
    ensures |digits| == 2 * |bcd|
  {
    seq(2 * |bcd|, t requires 0 <= t < 2 * |bcd| => DigitAt(bcd, t))
  }

  function Repeat(b: byte, n: nat): (s: seq<byte>)
    ensures |s| == n && forall i :: 0 <= i < n ==> s[i] == b
  {
    seq(n, i => b)
  }

  /** What stands before the first c. */
  function UpTo(s: seq<byte>, c: byte): (r: seq<byte>)
    ensures r <= s && c !in r
    ensures r == s || s[|r|] == c
  {
    if s == [] || s[0] == c then [] else [s[0]] + UpTo(s[1..], c)
  }

  lemma {:induction false} UpToIs(s: seq<byte>, c: byte, n: nat)
    requires n <= |s| && c !in s[..n] && (n < |s| ==> s[n] == c)
    ensures UpTo(s, c) == s[..n]
  {
    if n == 0 {
    } else {
      assert s[0] == s[..n][0] && s[..n] == [s[0]] + s[1..][..n - 1];
      UpToIs(s[1..], c, n - 1);
    }
  }

  // ---------------------------------------------------------------------------------------
  // Records.
  // ---------------------------------------------------------------------------------------

  function Bcd(number: seq<byte>): (bcd: seq<byte>)
    requires |number| <= NUMBER_LEN_MAX
    ensures |bcd| == NUMBER_LEN_MAX / 2
  {
    Pairs(number) + Repeat(PAD, NUMBER_LEN_MAX / 2 - (|number| + 1) / 2)
  }

  predicate Fits(x: Xdn, length: nat) {
    TAIL + |x.alpha| <= length && |x.number| <= NUMBER_LEN_MAX
  }

  function Record(x: Xdn, length: nat): (r: seq<byte>)
    requires Fits(x, length)
    ensures |r| == length
  {
    x.alpha + Repeat(PAD, length - TAIL - |x.alpha|)
    + [(|x.number| + 1) / 2 + 1, 0x80 + x.ton % 8 * 16 + x.npi % 16]
    + Bcd(x.number)
    + [x.capability, x.extension]
  }

  predicate Blank(r: seq<byte>) {
    forall i :: 0 <= i < |r| ==> r[i] == PAD
  }

  /** An alpha identifier in a one-octet alphabet ends at the padding; any other fills its field. */
  function AlphaOf(field: seq<byte>): (alpha: seq<byte>)
    ensures alpha <= field
  {
    if field == [] || field[0] == PAD then []
    else if field[0] <= 0x7F then UpTo(field, PAD)
    else field
  }

  function NumberMax(length: byte): int {
    if (length - 1) * 2 > NUMBER_LEN_MAX then NUMBER_LEN_MAX else (length - 1) * 2
  }

  function NumberOf(field: seq<byte>): seq<byte> {
    UpTo(Digits(UpTo(field, PAD)), 0)
  }

  function Decoded(r: seq<byte>): Option<Xdn>
    requires r == [] || |r| >= TAIL
  {
    if Blank(r) then None
    else
      var x := |r| - TAIL;
      if r[x] == PAD then Some(Xdn(x, AlphaOf(r[..x]), 0, [], 0, 0, 0, 0))
      else
        Some(Xdn(x, AlphaOf(r[..x]), NumberMax(r[x]), NumberOf(r[x + 2..x + 12]),
          r[x + 1] / 16 % 8, r[x + 1] % 16, r[x + 12], r[x + 13]))
  }

  // ---------------------------------------------------------------------------------------
  // The round trip.
  // ---------------------------------------------------------------------------------------

  /** The alpha identifiers that a field of the given width gives back. */
  predicate AlphaSurvives(alpha: seq<byte>, width: nat) {
    || alpha == []
    || (alpha[0] <= 0x7F && PAD !in alpha)
    || (0x7F < alpha[0] < PAD && |alpha| == width)
  }

  lemma AlphaRoundTrip(alpha: seq<byte>, width: nat)
    requires |alpha| <= width
    ensures AlphaOf(alpha + Repeat(PAD, width - |alpha|)) == alpha <==> AlphaSurvives(alpha, width)
  {
    var field := alpha + Repeat(PAD, width - |alpha|);
    if alpha != [] && PAD !in alpha {
      assert field[..|alpha|] == alpha;
      UpToIs(field, PAD, |alpha|);
      if |alpha| == width {
        assert field == alpha;
      }
    } else if alpha == [] {
      assert field == [] || field[0] == PAD;
    }
  }

  lemma PairsDigits(number: seq<byte>, t: nat)
    requires t < 2 * |Pairs(number)|
    ensures DigitAt(Pairs(number), t) == if t < |number| then DigitOf(NibbleOf(number[t])) else 0
  {
    PairIs(number, t / 2);
    assert DigitOf(0x0F) == 0;
    hide DigitOf, NibbleOf, Pairs, PairOf;
  }

  lemma PairIs(number: seq<byte>, j: nat)
    requires j < |Pairs(number)|
    ensures Pairs(number)[j] % 16 == NibbleOf(number[2 * j])
    ensures Pairs(number)[j] / 16 == if 2 * j + 1 < |number| then NibbleOf(number[2 * j + 1]) else 0x0F
  {
    hide NibbleOf;
  }

  /** The decoded number is the encoded one, pauses in upper case, exactly when it is in the alphabet. */
  lemma NumberRoundTrip(number: seq<byte>)
    requires |number| <= NUMBER_LEN_MAX
    ensures NumberOf(Bcd(number)) == Normalized(number) <==> forall c <- number :: InAlphabet(c)
  {
    if forall c <- number :: InAlphabet(c) {
      AlphabetComesBack(number);
    } else if NumberOf(Bcd(number)) == Normalized(number) {
      OnlyAlphabetComesBack(number);
    }
  }

  lemma AlphabetComesBack(number: seq<byte>)
    requires |number| <= NUMBER_LEN_MAX
    requires forall c <- number :: InAlphabet(c)
    ensures NumberOf(Bcd(number)) == Normalized(number)
  {
    hide DigitOf, NibbleOf, InAlphabet, UpTo;
    var pairs := Pairs(number);
    forall j | 0 <= j < |pairs|
      ensures pairs[j] != PAD
    {
      DigitSurvives(number[2 * j]);
    }
    assert Bcd(number)[..|pairs|] == pairs;
    UpToIs(Bcd(number), PAD, |pairs|);
    var digits := Digits(pairs);
    forall t | 0 <= t < |digits|
      ensures digits[t] == if t < |number| then Normal(number[t]) else 0
      ensures t < |number| ==> digits[t] != 0
    {
      PairsDigits(number, t);
      if t < |number| {
        DigitSurvives(number[t]);
      }
    }
    UpToIs(digits, 0, |number|);
    assert digits[..|number|] == Normalized(number);
  }

  lemma OnlyAlphabetComesBack(number: seq<byte>)
    requires |number| <= NUMBER_LEN_MAX
    requires NumberOf(Bcd(number)) == Normalized(number)
    ensures forall c <- number :: InAlphabet(c)
  {
    hide DigitOf, NibbleOf, InAlphabet, UpTo;
    var kept := UpTo(Bcd(number), PAD);
    forall c | c in number
      ensures InAlphabet(c)
    {
      var t :| 0 <= t < |number| && number[t] == c;
      assert Normalized(number)[t] == Digits(kept)[t] == DigitAt(kept, t);
      assert kept[t / 2] == Bcd(number)[t / 2] == Pairs(number)[t / 2];
      PairsDigits(number, t);
      DigitSurvives(c);
    }
  }

  /**
    Decoding an encoded record: the lengths, the kind of number and the identifiers come back, and
    the alpha identifier and the number each come back exactly on their own condition.
   */
  lemma RecordRoundTrip(x: Xdn, length: nat)
    requires Fits(x, length)
    ensures Decoded(Record(x, length)).Some?
    ensures
      var y := Decoded(Record(x, length)).value;
      && y.alphaMax == length - TAIL
      && y.numberMax == (|x.number| + 1) / 2 * 2
      && y.ton == x.ton % 8 && y.npi == x.npi % 16
      && y.capability == x.capability && y.extension == x.extension
      && (y.alpha == x.alpha <==> AlphaSurvives(x.alpha, length - TAIL))
      && (y.number == Normalized(x.number) <==> forall c <- x.number :: InAlphabet(c))
  {
    hide AlphaOf, NumberOf, AlphaSurvives, InAlphabet, Bcd;
    var r, w := Record(x, length), length - TAIL;
    assert r[w] == (|x.number| + 1) / 2 + 1 != PAD;
    assert r[..w] == x.alpha + Repeat(PAD, w - |x.alpha|);
    assert r[w + 2..w + 12] == Bcd(x.number);
    AlphaRoundTrip(x.alpha, w);
    NumberRoundTrip(x.number);
  }

  // ---------------------------------------------------------------------------------------
  // The program.
  // ---------------------------------------------------------------------------------------

  method DigitToBcd(bcd: array<byte>, digits: seq<byte>)
    requires |digits| <= 2 * bcd.Length
    modifies bcd
    ensures bcd[..] == Pairs(digits) + old(bcd[..])[(|digits| + 1) / 2..]
  {
    var i, j := 0, 0;
    while i < |digits|
      invariant i == 2 * j && j <= (|digits| + 1) / 2
      invariant forall k :: 0 <= k < j ==> bcd[k] == PairOf(digits, k)
      invariant forall k :: j <= k < bcd.Length ==> bcd[k] == old(bcd[k])
    {
      var lower := NibbleOf(digits[i]);
      var higher: byte := 0xFF;
      if |digits| != i + 1 {
        higher := NibbleOf(digits[i + 1]);
      }
      bcd[j] := higher % 16 * 16 + lower;
      i, j := i + 2, j + 1;
    }
  }

  /** The digits are written over a cleared buffer, whose length as a C string is returned. */
  method BcdToDigit(digit: array<byte>, bcd: seq<byte>) returns (length: nat)
    requires 2 * |bcd| < digit.Length
    requires digit[2 * |bcd|] == 0
    modifies digit
    ensures digit[..] == Digits(bcd) + old(digit[..])[2 * |bcd|..]
    ensures length <= 2 * |bcd| && digit[..length] == UpTo(Digits(bcd), 0)
  {
    forall k | 0 <= k < 2 * |bcd| {
      digit[k] := 0;
    }
    for i := 0 to |bcd|
      invariant forall m :: 0 <= m < 2 * i ==> digit[m] == DigitAt(bcd, m)
      invariant forall m :: 2 * |bcd| <= m < digit.Length ==> digit[m] == old(digit[m])
    {
      var higher := DigitOf(bcd[i] / 16);
      var lower := DigitOf(bcd[i] % 16);
      digit[i * 2] := lower;
      digit[i * 2 + 1] := higher;
    }
    length := 0;
    while digit[length] != 0
      invariant length <= 2 * |bcd|
      invariant 0 !in digit[..length]
      decreases 2 * |bcd| - length
    {
      length := length + 1;
    }
    assert digit[..2 * |bcd|] == Digits(bcd);
    assert digit[..length] == Digits(bcd)[..length];
    UpToIs(Digits(bcd), 0, length);
  }

  method GetValidBcdByte(bcd: seq<byte>) returns (length: nat)
    ensures length <= |bcd| && bcd[..length] == UpTo(bcd, PAD)
  {
    length := 0;
    while length < |bcd| && bcd[length] != PAD
      invariant length <= |bcd|
      invariant PAD !in bcd[..length]
    {
      length := length + 1;
    }
    UpToIs(bcd, PAD, length);
  }

  method IsEmpty(r: seq<byte>) returns (empty: bool)
    ensures empty == Blank(r)
  {
    for i := 0 to |r|
      invariant forall k :: 0 <= k < i ==> r[k] == PAD
    {
      if r[i] != PAD {
        return false;
      }
    }
    empty := true;
  }

  /** The structure that callers fill in and read. */
  class DialingNumber {
    var alphaIdMaxLength: int
    var alphaIdLength: nat
    const alphaId: array<byte>
    var diallingNumMaxLength: int
    var diallingNumLength: nat
    const diallingNum: array<byte>
    var typeOfNumber: byte
    var numberingPlan: byte
    var capaConfigId: byte
    var ext1RecordId: byte

    predicate Valid() {
      && alphaId.Length == ALPHA_ID_LEN_MAX + 1
      && diallingNum.Length == NUMBER_LEN_MAX + 1
      && alphaId != diallingNum
    }

    predicate Readable()
      reads this
    {
      Valid() && alphaIdLength <= alphaId.Length && diallingNumLength <= diallingNum.Length
    }

    function View(): Xdn
      reads this, alphaId, diallingNum
      requires Readable()
    {
      Xdn(alphaIdMaxLength, alphaId[..alphaIdLength], diallingNumMaxLength, diallingNum[..diallingNumLength],
        typeOfNumber, numberingPlan, capaConfigId, ext1RecordId)
    }

    constructor ()
      ensures Readable() && fresh(alphaId) && fresh(diallingNum)
      ensures View() == Xdn(0, [], 0, [], 0, 0, 0, 0)
    {
      alphaIdMaxLength, alphaIdLength, diallingNumMaxLength, diallingNumLength := 0, 0, 0, 0;
      typeOfNumber, numberingPlan, capaConfigId, ext1RecordId := 0, 0, 0, 0;
      alphaId := new byte[ALPHA_ID_LEN_MAX + 1](_ => 0);
      diallingNum := new byte[NUMBER_LEN_MAX + 1](_ => 0);
    }

    method Clear()
      requires Valid()
      modifies this, alphaId, diallingNum
      ensures Readable() && View() == Xdn(0, [], 0, [], 0, 0, 0, 0)
      ensures diallingNum[..] == Repeat(0, NUMBER_LEN_MAX + 1)
    {
      alphaIdMaxLength, alphaIdLength, diallingNumMaxLength, diallingNumLength := 0, 0, 0, 0;
      typeOfNumber, numberingPlan, capaConfigId, ext1RecordId := 0, 0, 0, 0;
      forall k | 0 <= k < alphaId.Length {
        alphaId[k] := 0;
      }
      forall k | 0 <= k < diallingNum.Length {
        diallingNum[k] := 0;
      }
    }

    /** Copies the alpha identifier out of its field. */
    method GetString(field: seq<byte>)
      requires Valid() && 0 < |field| <= alphaId.Length
      modifies this`alphaIdLength, alphaId
      ensures alphaIdLength <= |field| && alphaId[..alphaIdLength] == AlphaOf(field)
    {
      forall k | 0 <= k < |field| {
        alphaId[k] := 0;
      }
      alphaIdLength := 0;
      if field[0] == PAD {
        return;
      }
      var i := 0;
      while i < |field| && !(field[0] <= 0x7F && field[i] == PAD)
        invariant i <= |field| && alphaIdLength == i
        invariant alphaId[..i] == field[..i]
        invariant field[0] <= 0x7F ==> PAD !in field[..i]
      {
        alphaId[i] := field[i];
        alphaIdLength := alphaIdLength + 1;
        i := i + 1;
      }
      if field[0] <= 0x7F {
        UpToIs(field, PAD, i);
      }
    }

    /** Reads a record; false for an empty one. */
    method Decode(r: seq<byte>) returns (ok: bool)
      requires Valid()
      requires r == [] || TAIL <= |r| <= TAIL + ALPHA_ID_LEN_MAX
      modifies this, alphaId, diallingNum
      ensures Readable()
      ensures ok <==> Decoded(r).Some?
      ensures ok ==> View() == Decoded(r).value
      ensures !ok ==> View() == Xdn(0, [], 0, [], 0, 0, 0, 0)
    {
      hide AlphaOf, Digits, UpTo;
      Clear();
      if |r| == 0 {
        return false;
      }
      var empty := IsEmpty(r);
      if empty {
        return false;
      }
      var x := |r| - TAIL;
      if x != 0 {
        GetString(r[..x]);
        alphaIdMaxLength := x;
      } else {
        assert alphaId[..0] == AlphaOf(r[..0]);
      }
      if r[x] != PAD {
        var length: int := r[x];
        diallingNumMaxLength := (length - 1) * 2;
        if diallingNumMaxLength > NUMBER_LEN_MAX {
          diallingNumMaxLength := NUMBER_LEN_MAX;
        }
        typeOfNumber := r[x + 1] / 16 % 8;
        numberingPlan := r[x + 1] % 16;
        var bcdByte := GetValidBcdByte(r[x + 2..x + 12]);
        diallingNumLength := BcdToDigit(diallingNum, r[x + 2..x + 12][..bcdByte]);
        capaConfigId := r[x + 12];
        ext1RecordId := r[x + 13];
      }
      ok := true;
    }

    /** Writes a record; false when the alpha identifier or the number does not fit. */
    method Encode(out: array<byte>) returns (ok: bool)
      requires Valid() && out != alphaId && out != diallingNum
      requires out.Length >= TAIL
      requires alphaIdLength <= out.Length - TAIL ==> alphaIdLength <= alphaId.Length
      modifies out
      ensures ok <==> alphaIdLength <= out.Length - TAIL && diallingNumLength <= NUMBER_LEN_MAX
      ensures ok ==> Readable() && out[..] == Record(View(), out.Length)
      ensures !ok ==> Blank(out[..])
    {
      forall k | 0 <= k < out.Length {
        out[k] := PAD;
      }
      var x := out.Length - TAIL;
      if x < alphaIdLength {
        return false;
      }
      if diallingNumLength > NUMBER_LEN_MAX {
        return false;
      }
      WriteFields(out, x);
      ok := true;
    }

    method WriteFields(out: array<byte>, x: nat)
      requires Readable() && out != alphaId && out != diallingNum
      requires out.Length == x + TAIL && alphaIdLength <= x && diallingNumLength <= NUMBER_LEN_MAX
      requires Blank(out[..])
      modifies out
      ensures out[..] == Record(View(), out.Length)
    {
      hide Pairs;
      ghost var head := View().alpha + Repeat(PAD, x - alphaIdLength);
      assert out[..] == [] + Repeat(PAD, out.Length);
      Write(out, [], alphaId[..alphaIdLength], 0);
      assert out[..] == head + Repeat(PAD, TAIL);
      var kind := [(diallingNumLength + 1) / 2 + 1, 0x80 + typeOfNumber % 8 * 16 + numberingPlan % 16];
      Write(out, head, kind, x);
      var bcdCode := new byte[NUMBER_LEN_MAX / 2](_ => PAD);
      DigitToBcd(bcdCode, diallingNum[..diallingNumLength]);
      assert bcdCode[..] == Bcd(View().number);
      Write(out, head + kind, bcdCode[..], x + 2);
      Write(out, head + kind + bcdCode[..], [capaConfigId, ext1RecordId], x + 12);
    }
  }

  /** Copies s behind the part already written; the rest stays padding. */
  method Write(out: array<byte>, ghost done: seq<byte>, s: seq<byte>, at: nat)
    requires at == |done| && at + |s| <= out.Length
    requires out[..] == done + Repeat(PAD, out.Length - at)
    modifies out
    ensures out[..] == done + s + Repeat(PAD, out.Length - at - |s|)
  {
    ghost var was := out[..];
    forall k | 0 <= k < |s| {
      out[at + k] := s[k];
    }
    assert out[..] == was[..at] + s + was[at + |s|..];
  }

  // ---------------------------------------------------------------------------------------
  // The record by its octets.
  // ---------------------------------------------------------------------------------------

  /** The nibbles of the digits, and of the four other characters of a number. */
  lemma NibbleValues(d: nat)
    requires d <= 9
    ensures NibbleOf(48 + d) == d && DigitOf(d) == 48 + d
    ensures NibbleOf('*' as int) == 10 && NibbleOf('#' as int) == 11
    ensures NibbleOf('P' as int) == 12 && NibbleOf('p' as int) == 12 && NibbleOf('?' as int) == 13
    ensures DigitOf(10) == '*' as int && DigitOf(11) == '#' as int && DigitOf(12) == 'P' as int
    ensures DigitOf(13) == '?' as int && DigitOf(14) == 'E' as int && DigitOf(15) == 0
  {
  }

  /**
    The octets of a record, w being the width of the alpha field: padding behind the identifier, the
    number of octets that follow in use, kind and plan of the number under a set top bit, ten octets of
    two digits each, the first of them in the low nibble, and the two identifiers.
   */
  lemma RecordLayout(x: Xdn, length: nat, j: nat)
    requires Fits(x, length) && j < 10
    ensures
      var r, w, n := Record(x, length), length - 14, |x.number|;
      && |r| == length
      && r[..|x.alpha|] == x.alpha && (forall i :: |x.alpha| <= i < w ==> r[i] == 0xFF)
      && r[w] == (n + 1) / 2 + 1
      && r[w + 1] == 128 + x.ton % 8 * 16 + x.npi % 16
      && r[w + 2 + j] == (
           if 2 * j + 1 < n then NibbleOf(x.number[2 * j + 1]) * 16 + NibbleOf(x.number[2 * j])
           else if 2 * j + 1 == n then 0xF0 + NibbleOf(x.number[2 * j])
           else 0xFF)
      && r[w + 12] == x.capability && r[w + 13] == x.extension
  {
    hide NibbleOf;
    var r, w := Record(x, length), length - TAIL;
    assert r[w + 2..w + 12] == Bcd(x.number);
    assert r[w + 2 + j] == Bcd(x.number)[j];
  }

  /**
    What the octets of a record say, w being the width of the alpha field: no number where its length is
    padding, and otherwise at most twenty digits, kind and plan without the top bit, and the identifiers.
   */
  lemma DecodedLayout(r: seq<byte>, i: nat)
    requires |r| >= 14 && i < |r| && r[i] != 0xFF
    ensures Decoded(r).Some?
    ensures
      var x, w := Decoded(r).value, |r| - 14;
      && x.alphaMax == w && x.alpha == AlphaOf(r[..w])
      && if r[w] == 0xFF then
           x.numberMax == 0 && x.number == [] && x.ton == 0 && x.npi == 0 && x.capability == 0 && x.extension == 0
         else
           && x.numberMax == (if (r[w] as int) <= 11 then ((r[w] as int) - 1) * 2 else 20)
           && x.ton == r[w + 1] / 16 % 8 && x.npi == r[w + 1] % 16
           && x.number == NumberOf(r[w + 2..w + 12])
           && x.capability == r[w + 12] && x.extension == r[w + 13]
  {
    hide AlphaOf, NumberOf;
  }

  /** A record of padding only says nothing. */
  lemma BlankSaysNothing(r: seq<byte>)
    requires (r == [] || |r| >= 14) && forall i :: 0 <= i < |r| ==> r[i] == 0xFF
    ensures Decoded(r).None?
  {
  }
}
