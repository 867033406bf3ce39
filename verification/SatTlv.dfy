/**
  The tag-length-value objects of SIM toolkit commands and terminal responses (ETSI TS 102 223
  section 8), and a reader that takes any sequence of them apart.
 */
module SatTlv {

  import opened Wrappers

  type byte = b: int | 0 <= b < 256

  const COMMAND_DETAILS_TAG: byte := 0x01
  const DEVICE_IDENTITY_TAG: byte := 0x02
  const RESULT_TAG: byte := 0x03
  const DURATION_TAG: byte := 0x04
  const TEXT_STRING_TAG: byte := 0x0D
  const BEARER_DESCRIPTION_TAG: byte := 0x35
  const CHANNEL_DATA_TAG: byte := 0x36
  const CHANNEL_DATA_LENGTH_TAG: byte := 0x37
  const CHANNEL_STATUS_TAG: byte := 0x38
  const BUFFER_SIZE_TAG: byte := 0x39

  const CHANNEL_DATA_LEN_MAX := 255

  // ---------------------------------------------------------------------------------------
  // Any sequence of objects.
  // ---------------------------------------------------------------------------------------

  datatype Tlv = Tlv(tag: byte, value: seq<byte>)

  /** The number of octets of a length field; 0 for one that is not understood. */
  function LengthFieldSize(first: byte): nat {
    if first <= 0x7F then 1 else if first == 0x81 then 2 else 0
  }

  /** Takes the octets apart, to the last one. */
  function Walk(b: seq<byte>): Option<seq<Tlv>>
    decreases |b|
  {
    if b == [] then Some([])
    else if |b| < 2 then None
    else
      var size := LengthFieldSize(b[1]);
      if size == 0 || |b| < 1 + size || |b| < 1 + size + b[size] then None
      else
        var rest := Walk(b[1 + size + b[size]..]);
        if rest.None? then None else Some([Tlv(b[0], b[1 + size..1 + size + b[size]])] + rest.value)
  }

  function Tile(t: Tlv): (b: seq<byte>)
    requires |t.value| < 256
    ensures |b| >= 2
  {
    (if |t.value| <= 0x7F then [t.tag, |t.value|] else [t.tag, 0x81, |t.value|]) + t.value
  }

  function Tiles(ts: seq<Tlv>): (b: seq<byte>)
    requires forall t <- ts :: |t.value| < 256
  {
    if ts == [] then [] else Tile(ts[0]) + Tiles(ts[1..])
  }

  lemma WalkTile(t: Tlv, rest: seq<byte>)
    requires |t.value| < 256
    ensures Walk(Tile(t) + rest) == match Walk(rest) case None => None case Some(ts) => Some([t] + ts)
  {
    var b := Tile(t) + rest;
    var size := LengthFieldSize(b[1]);
    assert b[1 + size + b[size]..] == rest;
    assert b[1 + size..1 + size + b[size]] == t.value;
  }

  lemma {:induction false} WalkTiles(ts: seq<Tlv>, rest: seq<byte>)
    requires forall t <- ts :: |t.value| < 256
    ensures Walk(Tiles(ts) + rest) == match Walk(rest) case None => None case Some(us) => Some(ts + us)
    decreases |ts|
  {
    hide Walk, Tile;
    if ts == [] {
      assert Tiles(ts) + rest == rest;
      assert forall us: seq<Tlv> :: ts + us == us;
    } else {
      WalkTiles(ts[1..], rest);
      WalkTile(ts[0], Tiles(ts[1..]) + rest);
      assert Tiles(ts) + rest == Tile(ts[0]) + (Tiles(ts[1..]) + rest);
      assert forall us :: [ts[0]] + (ts[1..] + us) == ts + us;
    }
  }

  // ---------------------------------------------------------------------------------------
  // The data coding scheme.
  // ---------------------------------------------------------------------------------------

  datatype Format = SmsDefault | EightBit | Ucs2 | Reserved
  datatype Class = NoClass | Class0 | Class1 | Class2 | Class3 | ReservedClass

  datatype Dcs = Dcs(compressed: bool, format: Format, class_: Class)

  /** The numbers of the message classes start at one. */
  function ClassNumber(c: Class): nat {
    match c
    case Class0 => 1
    case Class1 => 2
    case Class2 => 3
    case Class3 => 4
    case _ => 0
  }

  function FormatBits(f: Format): nat {
    match f
    case SmsDefault => 0x00
    case EightBit => 0x04
    case Ucs2 => 0x08
    case Reserved => 0x0C
  }

  /** A class number of four runs into the bits of the format. */
  function EncodeDcs(d: Dcs): byte {
    var compressed := if d.compressed then 0x20 else 0;
    var class_ := if d.class_ == NoClass || d.class_ == ReservedClass then 0 else 0x10 + ClassNumber(d.class_);
    if d.class_ != Class3 then compressed + class_ + FormatBits(d.format)
    else
      match d.format
      case SmsDefault => compressed + 0x10
      case EightBit => compressed + 0x14
      case Ucs2 => compressed + 0x1C
      case Reserved => compressed + 0x1C
  }

  function DecodeDcs(b: byte): Dcs {
    Dcs(b / 32 % 2 == 1,
      match b / 4 % 4 case 1 => EightBit case 2 => Ucs2 case _ => SmsDefault,
      if b / 16 % 2 == 0 then NoClass
      else match b % 4 case 0 => Class0 case 1 => Class1 case 2 => Class2 case _ => Class3)
  }

  /** No message class survives, and no reserved format. */
  lemma DcsRoundTrip(d: Dcs)
    ensures DecodeDcs(EncodeDcs(d)) == d <==> d.class_ == NoClass && d.format != Reserved
  {
  }

  // ---------------------------------------------------------------------------------------
  // Text strings.
  // ---------------------------------------------------------------------------------------

  datatype Text = Text(dcs: Dcs, rawDcs: byte, chars: seq<byte>)

  function DcsOctet(t: Text, raw: bool): byte {
    if raw then t.rawDcs else EncodeDcs(t.dcs)
  }

  /** The length counts the data coding scheme, and is cut down to one octet. */
  function TextOctets(t: Text, raw: bool): (b: seq<byte>)
    ensures |b| == (if |t.chars| <= 0x7F then 1 else 2) + 2 + |t.chars|
  {
    var length := (1 + |t.chars|) % 256;
    (if |t.chars| <= 0x7F then [TEXT_STRING_TAG, length] else [TEXT_STRING_TAG, 0x81, length])
    + [DcsOctet(t, raw)] + t.chars
  }

  function TextTlv(t: Text, raw: bool): Tlv {
    Tlv(TEXT_STRING_TAG, [DcsOctet(t, raw)] + t.chars)
  }

  /** The lengths whose length octet says what it should. */
  predicate GoodLength(n: nat) {
    n <= 126 || 128 <= n <= 254
  }

  lemma TextIsTile(t: Text, raw: bool)
    requires GoodLength(|t.chars|)
    ensures TextOctets(t, raw) == Tile(TextTlv(t, raw))
  {
  }

  /** An encoded text reads as one object with its scheme and characters exactly for these lengths. */
  lemma TextWalks(t: Text, raw: bool)
    ensures Walk(TextOctets(t, raw)) == Some([TextTlv(t, raw)]) <==> GoodLength(|t.chars|)
  {
    var b := TextOctets(t, raw);
    if GoodLength(|t.chars|) {
      TextIsTile(t, raw);
      hide Walk, TextOctets;
      WalkTile(TextTlv(t, raw), []);
      WalkNothing();
      assert Tile(TextTlv(t, raw)) + [] == b;
      assert [TextTlv(t, raw)] + [] == [TextTlv(t, raw)];
    } else {
      hide EncodeDcs;
    }
  }

  lemma WalkNothing()
    ensures Walk([]) == Some([])
  {
  }

  datatype Outcome = Done | NotUnderstood | Overrun

  /**
    What reading a text at an offset finds: how it ends, the scheme if one is read, the characters,
    and how many octets are consumed. Overrun is a read past the octets there are.
   */
  datatype Found = Found(outcome: Outcome, scheme: Option<byte>, chars: seq<byte>, consumed: nat)

  const NOTHING := Found(NotUnderstood, None, [], 0)

  function ReadText(b: seq<byte>, length: nat, offset: nat): Found
    requires length <= |b|
  {
    if length <= offset + 1 || b[offset] % 128 != TEXT_STRING_TAG then NOTHING
    else
      var size := LengthFieldSize(b[offset + 1]);
      if size == 0 then NOTHING
      else if offset + size >= |b| then NOTHING.(outcome := Overrun)
      else
        var n := b[offset + size];
        var start := offset + 1 + size;
        if n <= 1 then Found(Done, None, [], 1 + size + n)
        else if start + n > |b| then NOTHING.(outcome := Overrun)
        else Found(Done, Some(b[start]), b[start + 1..start + n], 1 + size + n)
  }

  /**
    Reading an encoded text back, wherever it stands, finds its scheme and characters and consumes
    what the encoder said it wrote, exactly for the good lengths. The scheme of an empty text is not read.
   */
  lemma TextRoundTrip(t: Text, raw: bool, before: seq<byte>, after: seq<byte>)
    ensures
      var b := before + TextOctets(t, raw) + after;
      var scheme := if t.chars == [] then None else Some(DcsOctet(t, raw));
      ReadText(b, |b|, |before|) == Found(Done, scheme, t.chars, |TextOctets(t, raw)|) <==> GoodLength(|t.chars|)
    ensures
      var found := ReadText(before + TextOctets(t, raw) + after, |before + TextOctets(t, raw) + after|, |before|);
      found.outcome == Done && found.consumed == |TextOctets(t, raw)| <==> GoodLength(|t.chars|)
  {
    hide EncodeDcs;
    var o := TextOctets(t, raw);
    var b := before + o + after;
    var at, n := |before|, |t.chars|;
    assert b[at..at + |o|] == o;
    assert b[at] == o[0] && b[at + 1] == o[1] && b[at + 2] == o[2];
    if GoodLength(n) {
      var start := |o| - n - 1;
      assert b[at + start] == o[start];
      assert b[at + start + 1..at + |o|] == t.chars;
    }
  }

  // ---------------------------------------------------------------------------------------
  // Channel data.
  // ---------------------------------------------------------------------------------------

  function ChannelDataTlv(data: seq<byte>): Tlv {
    Tlv(CHANNEL_DATA_TAG, data)
  }

  function ReadChannelData(b: seq<byte>, length: nat, offset: nat): Found
    requires length <= |b|
  {
    if length <= offset + 1 || b[offset] % 128 != CHANNEL_DATA_TAG then NOTHING
    else
      var size := LengthFieldSize(b[offset + 1]);
      if size == 0 then NOTHING
      else if offset + size >= |b| then NOTHING.(outcome := Overrun)
      else
        var n := b[offset + size];
        var start := offset + 1 + size;
        if start + n > length then NOTHING
        else Found(Done, None, b[start..start + n], 1 + size + n)
  }

  /** Channel data of every length comes back. */
  lemma ChannelDataRoundTrip(data: seq<byte>, before: seq<byte>, after: seq<byte>)
    requires |data| <= CHANNEL_DATA_LEN_MAX
    ensures
      var b := before + Tile(ChannelDataTlv(data)) + after;
      ReadChannelData(b, |b|, |before|) == Found(Done, None, data, |Tile(ChannelDataTlv(data))|)
  {
    var o := Tile(ChannelDataTlv(data));
    var b := before + o + after;
    var at := |before|;
    assert b[at..at + |o|] == o;
    assert b[at] == o[0] && b[at + 1] == o[1];
    if |data| > 0x7F {
      assert b[at + 2] == o[2];
    }
    assert b[at + |o| - |data|..at + |o|] == data;
  }

  // ---------------------------------------------------------------------------------------
  // The objects by their octets.
  // ---------------------------------------------------------------------------------------

  /** The scheme octet: bit 5 for compression, bits 2 and 3 for the alphabet, bit 4 and the class if there is one. */
  lemma SchemeOctet(d: Dcs)
    requires d.class_ == NoClass
    ensures EncodeDcs(d) == (if d.compressed then 32 else 0) +
      match d.format case SmsDefault => 0 case EightBit => 4 case Ucs2 => 8 case Reserved => 12
  {
  }

  /** An octet read as a scheme; alphabets 0 and 3 are the default one. */
  lemma SchemeRead(compressed: bool, alphabet: nat, classed: bool, class_: nat)
    requires alphabet < 4 && class_ < 4
    ensures
      var o := (if compressed then 32 else 0) + (if classed then 16 else 0) + 4 * alphabet + class_;
      DecodeDcs(o) == Dcs(compressed,
        if alphabet == 1 then EightBit else if alphabet == 2 then Ucs2 else SmsDefault,
        if !classed then NoClass
        else if class_ == 0 then Class0 else if class_ == 1 then Class1 else if class_ == 2 then Class2 else Class3)
  {
  }

  /** A text object: tag, length of scheme and characters, scheme, characters; the length octet wraps around. */
  lemma TextLayout(t: Text, raw: bool)
    ensures
      var n, scheme := |t.chars|, if raw then t.rawDcs else EncodeDcs(t.dcs);
      TextOctets(t, raw) ==
        (if n <= 127 then [0x0D, n + 1] else [0x0D, 0x81, (n + 1) % 256]) + [scheme] + t.chars
  {
    hide EncodeDcs;
  }

  /** An object: tag, length in one octet up to 127 and in two from there on, value. */
  lemma TileLayout(t: Tlv)
    requires |t.value| < 256
    ensures Tile(t) == (if |t.value| < 128 then [t.tag, |t.value|] else [t.tag, 0x81, |t.value|]) + t.value
    ensures forall data :: |data| < 256 ==> ChannelDataTlv(data) == Tlv(0x36, data)
  {
  }

  /** A message class sets bit 4 and its number from one to four; four runs into the alphabet and is lost there. */
  lemma SchemeClassed(d: Dcs)
    requires d.class_ in {Class0, Class1, Class2, Class3}
    ensures EncodeDcs(d) == (if d.compressed then 32 else 0) + 16 +
      (match d.class_ case Class0 => 1 case Class1 => 2 case Class2 => 3 case _ => 0) +
      (match d.format
       case SmsDefault => 0
       case EightBit => 4
       case Ucs2 => if d.class_ == Class3 then 12 else 8
       case Reserved => 12)
    ensures forall x: Dcs :: x.class_ == ReservedClass ==> EncodeDcs(x) == EncodeDcs(x.(class_ := NoClass))
  {
  }

  /** A length field: one octet up to 127, or two of which the first is 0x81. */
  predicate LengthField(field: seq<byte>, n: nat) {
    n < 256 && ((field == [n] && n < 128) || field == [0x81, n])
  }

  lemma FieldAt(b: seq<byte>, before: seq<byte>, tag: byte, field: seq<byte>, value: seq<byte>, after: seq<byte>)
    requires b == before + [tag] + field + value + after && LengthField(field, |value|)
    ensures |before| + 1 + |field| + |value| <= |b| && b[|before|] == tag
    ensures LengthFieldSize(b[|before| + 1]) == |field| && b[|before| + |field|] == |value|
    ensures b[|before| + 1 + |field|..|before| + 1 + |field| + |value|] == value
  {
    assert b[|before| + 1] == field[0];
    if |field| == 2 {
      assert b[|before| + 2] == field[1];
    }
  }

  /** A text object with either tag and either length field, at any offset: its scheme and characters are found. */
  lemma TextRead(before: seq<byte>, tag: byte, field: seq<byte>, value: seq<byte>, after: seq<byte>)
    requires tag in {0x0D, 0x8D} && LengthField(field, |value|)
    ensures
      var b := before + [tag] + field + value + after;
      ReadText(b, |b|, |before|) == Found(Done, if |value| > 1 then Some(value[0]) else None,
                                          if |value| > 1 then value[1..] else [], 1 + |field| + |value|)
  {
    var b := before + [tag] + field + value + after;
    FieldAt(b, before, tag, field, value, after);
    var start := |before| + 1 + |field|;
    if |value| > 1 {
      assert b[start] == b[start..start + |value|][0];
      assert b[start + 1..start + |value|] == b[start..start + |value|][1..];
    }
  }

  /** Any other tag, and a length field that is none, are not understood. */
  lemma TextNotRead(b: seq<byte>, offset: nat)
    requires offset + 1 < |b| ==> b[offset] !in {0x0D, 0x8D} || (b[offset + 1] > 127 && b[offset + 1] != 0x81)
    ensures ReadText(b, |b|, offset) == Found(NotUnderstood, None, [], 0)
  {
  }

  lemma ChannelDataRead(before: seq<byte>, tag: byte, field: seq<byte>, value: seq<byte>, after: seq<byte>)
    requires tag in {0x36, 0xB6} && LengthField(field, |value|)
    ensures
      var b := before + [tag] + field + value + after;
      ReadChannelData(b, |b|, |before|) == Found(Done, None, value, 1 + |field| + |value|)
  {
    var b := before + [tag] + field + value + after;
    FieldAt(b, before, tag, field, value, after);
  }
}
