/**
  CMUX basic-mode frames (3GPP TS 27.010 section 5.2.1): their layout on the wire and how the
  receiver reads a complete one back.
 */
module MuxFrame {
  import opened MuxFcs

  const FLAG: byte := 0xF9
  const MAX_BUFFER: nat := 4096
  const MAX_CHANNELS: byte := 8
  // Flag, address, control, two length octets, FCS, flag.
  const MAX_OVERHEAD: nat := 7

  const SABM: byte := 0x2F
  const UA: byte := 0x63
  const DM: byte := 0x0F
  const DISC: byte := 0x43
  const UIH: byte := 0xEF
  const UI: byte := 0x03

  const POLL_FINAL: byte := 0x10

  datatype Frame = Frame(channel: byte, ea: bool, cr: bool, frameType: byte, pf: bool, info: seq<byte>)

  /** The frames the encoder can lay out in its buffer; the P/F bit is not part of the type. */
  predicate Encodable(f: Frame) {
    && f.channel < MAX_CHANNELS
    && f.frameType & POLL_FINAL == 0
    && |f.info| + MAX_OVERHEAD <= MAX_BUFFER
  }

  function Address(channel: byte, ea: bool, cr: bool): byte {
    (if ea then 1 else 0) | (if cr then 2 else 0) | (channel << 2)
  }

  function Control(frameType: byte, pf: bool): byte {
    if pf then frameType | POLL_FINAL else frameType
  }

  /** Section 5.2.1.5: one octet with the EA bit set below 128, else two octets. */
  function LengthOctets(n: nat): seq<byte>
    requires n < 0x8000
  {
    if n < 128 then [((n as byte) << 1) | 1] else [((n % 128) as byte) << 1, (n / 128) as byte]
  }

  function Header(f: Frame): seq<byte>
    requires |f.info| < 0x8000
  {
    [Address(f.channel, f.ea, f.cr), Control(f.frameType, f.pf)] + LengthOctets(|f.info|)
  }

  /** What the encoder puts on the wire for a frame. */
  function FrameOctets(f: Frame): seq<byte>
    requires |f.info| < 0x8000
  {
    [FLAG] + Header(f) + f.info + [Fcs(Header(f)), FLAG]
  }

  // ---------------------------------------------------------------------------------------
  // Reading a complete frame: opening flag, header, information field, FCS, closing flag.
  // ---------------------------------------------------------------------------------------

  /** The information length announced by a buffer that starts with flag, address, control. */
  function InfoLength(buf: seq<byte>): (n: nat)
    requires |buf| >= 4 && (buf[3] & 1 == 1 || |buf| >= 5)
    ensures n < 0x8000
  {
    if buf[3] & 1 == 1 then (buf[3] >> 1) as nat
    else (buf[3] >> 1) as nat + 128 * (buf[4] as nat)
  }

  function HeaderLength(buf: seq<byte>): nat
    requires |buf| >= 4
  {
    if buf[3] & 1 == 1 then 3 else 4
  }

  /** The buffer holds exactly one frame, as long as its own length indicator says. */
  predicate Complete(buf: seq<byte>) {
    && |buf| >= 4
    && (buf[3] & 1 == 1 || |buf| >= 5)
    && |buf| == 1 + HeaderLength(buf) + InfoLength(buf) + 2
  }

  datatype Received = BadChannel | BadFcs | Accepted(frame: Frame)

  function FrameIn(buf: seq<byte>): Frame
    requires Complete(buf)
  {
    var start := 1 + HeaderLength(buf);
    Frame((buf[1] >> 2) & 0x3F, buf[1] & 1 == 1, (buf[1] >> 1) & 1 == 1,
          buf[2] & !POLL_FINAL, buf[2] & POLL_FINAL != 0,
          buf[start..start + InfoLength(buf)])
  }

  function Receive(buf: seq<byte>): Received
    requires Complete(buf)
  {
    var h := HeaderLength(buf);
    if (buf[1] >> 2) & 0x3F >= MAX_CHANNELS then BadChannel
    else if buf[1 + h + InfoLength(buf)] != Fcs(buf[1..1 + h]) then BadFcs
    else Accepted(FrameIn(buf))
  }

  lemma AddressBits(channel: byte, ea: bool, cr: bool)
    requires channel < MAX_CHANNELS
    ensures var a := Address(channel, ea, cr);
      && a != FLAG
      && (a >> 2) & 0x3F == channel
      && (a & 1 == 1 <==> ea)
      && ((a >> 1) & 1 == 1 <==> cr)
  {
  }

  lemma ControlBits(frameType: byte, pf: bool)
    requires frameType & POLL_FINAL == 0
    ensures var c := Control(frameType, pf);
      && c & !POLL_FINAL == frameType
      && (c & POLL_FINAL != 0 <==> pf)
  {
  }

  lemma ByteOfNat(n: nat)
    requires n < 256
    ensures (n as byte) as nat == n
    ensures n < 128 ==> n as byte < 0x80
  {
  }

  lemma ShiftedOctet(b: byte)
    requires b < 0x80
    ensures ((b << 1) | 1) & 1 == 1 && ((b << 1) | 1) >> 1 == b
    ensures (b << 1) & 1 == 0 && (b << 1) >> 1 == b
  {
  }

  lemma LengthShape(n: nat)
    requires n < 0x8000
    ensures var l := LengthOctets(n);
      (|l| == 1 && l[0] & 1 == 1) || (|l| == 2 && l[0] & 1 == 0)
  {
    if n < 128 {
      ByteOfNat(n);
      ShiftedOctet(n as byte);
    } else {
      ByteOfNat(n % 128);
      ShiftedOctet((n % 128) as byte);
    }
  }

  /** The length indicator of an encoded frame announces exactly its information field. */
  lemma LengthRoundTrip(buf: seq<byte>, n: nat)
    requires n < 0x8000
    requires |buf| >= 3 + |LengthOctets(n)|
    requires buf[3..3 + |LengthOctets(n)|] == LengthOctets(n)
    ensures HeaderLength(buf) == 2 + |LengthOctets(n)|
    ensures InfoLength(buf) == n
  {
    var l := LengthOctets(n);
    assert buf[3] == l[0];
    if n < 128 {
      ByteOfNat(n);
      ShiftedOctet(n as byte);
    } else {
      assert buf[4] == l[1];
      ByteOfNat(n % 128);
      ByteOfNat(n / 128);
      ShiftedOctet((n % 128) as byte);
    }
  }

  /** Reading back what the encoder wrote gives the frame, with an accepted FCS. */
  lemma FrameRoundTrip(f: Frame)
    requires Encodable(f)
    ensures Complete(FrameOctets(f))
    ensures Receive(FrameOctets(f)) == Accepted(f)
  {
    hide Fcs, Address, Control, LengthOctets, InfoLength, HeaderLength;
    var l := LengthOctets(|f.info|);
    var buf, h := FrameOctets(f), Header(f);
    assert buf[3..3 + |l|] == l;
    LengthRoundTrip(buf, |f.info|);
    FrameParts(f, buf, h);
    AddressBits(f.channel, f.ea, f.cr);
    ControlBits(f.frameType, f.pf);
  }

  lemma FrameParts(f: Frame, buf: seq<byte>, h: seq<byte>)
    requires Encodable(f) && h == Header(f) && buf == FrameOctets(f)
    ensures 3 <= |h| <= 4 && |buf| == |h| + |f.info| + 3
    ensures buf[1] == Address(f.channel, f.ea, f.cr) && buf[2] == Control(f.frameType, f.pf)
    ensures buf[1..1 + |h|] == h
    ensures buf[1 + |h|..1 + |h| + |f.info|] == f.info
    ensures buf[1 + |h| + |f.info|] == Fcs(h)
  {
    hide Fcs, Address, Control;
    assert buf[1] == h[0] && buf[2] == h[1];
  }

  lemma AddressSum(channel: byte, ea: bool, cr: bool)
    requires channel < MAX_CHANNELS
    ensures Address(channel, ea, cr) == 4 * channel + (if cr then 2 else 0) + (if ea then 1 else 0)
  {
  }

  lemma ControlSum(frameType: byte, pf: bool)
    requires frameType & 0x10 == 0
    ensures Control(frameType, pf) == frameType + if pf then 0x10 else 0
  {
  }

  lemma ShiftedSum(b: byte)
    requires b < 0x80
    ensures (b << 1) | 1 == 2 * b + 1 && b << 1 == 2 * b
  {
  }

  function LengthValues(n: nat): seq<byte>
    requires n < 0x8000
  {
    if n < 128 then [2 * (n as byte) + 1] else [2 * ((n % 128) as byte), (n / 128) as byte]
  }

  lemma LengthLayout(n: nat)
    requires n < 0x8000
    ensures LengthOctets(n) == LengthValues(n)
  {
    ByteOfNat(n % 128);
    ShiftedSum((n % 128) as byte);
  }

  /**
    The octets of a frame by their values: flag, address with the channel in its upper six bits, control
    with the poll/final bit, length in one or two octets, the information field, the FCS and the flag.
   */
  lemma Layout(f: Frame)
    requires Encodable(f)
    ensures
      var address := 4 * f.channel + (if f.cr then 2 else 0) + (if f.ea then 1 else 0);
      var control := f.frameType + if f.pf then 0x10 else 0;
      var header := [address, control] + LengthValues(|f.info|);
      FrameOctets(f) == [0xF9] + header + f.info + [Fcs(header), 0xF9]
  {
    AddressSum(f.channel, f.ea, f.cr);
    ControlSum(f.frameType, f.pf);
    LengthLayout(|f.info|);
    hide Fcs, Address, Control, LengthOctets, LengthValues;
  }

  /** Which frames there are: eight channels, types without the poll/final bit, and up to 4089 octets of information. */
  lemma EncodableExactly(f: Frame)
    ensures Encodable(f) <==> f.channel < 8 && f.frameType & 0x10 == 0 && |f.info| <= 4089
  {
  }
}
