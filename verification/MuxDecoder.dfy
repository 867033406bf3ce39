/**
  The stream decoder of the multiplexer. The physical line delivers octets in chunks of any size;
  the decoder keeps its place between calls and hands over each frame once its FCS has arrived.

  The reference reads one octet at a time (Step, Run). The program copies information fields in
  bulk and keeps its place in static variables (class Decoder).
 */
module MuxDecoder {
  import opened MuxFcs
  import opened MuxFrame

  // ---------------------------------------------------------------------------------------
  // The reference: one octet at a time.
  // ---------------------------------------------------------------------------------------

  /** What is awaited next; buf is the frame so far, opening flag included. */
  datatype State =
    | FlagHunt
    | AddrHunt
    | ControlHunt(buf: seq<byte>)
    | Length1Hunt(buf: seq<byte>)
    | Length2Hunt(buf: seq<byte>)
    | DataHunt(buf: seq<byte>, left: nat)
    | FcsHunt(buf: seq<byte>)

  datatype Progress = Progress(state: State, frames: seq<seq<byte>>)

  function Held(s: State): seq<byte> {
    match s
    case FlagHunt => []
    case AddrHunt => []
    case ControlHunt(buf) => buf
    case Length1Hunt(buf) => buf
    case Length2Hunt(buf) => buf
    case DataHunt(buf, _) => buf
    case FcsHunt(buf) => buf
  }

  /** The held octets are a frame prefix that ends where the state says. */
  predicate WellFormed(s: State) {
    match s
    case FlagHunt => true
    case AddrHunt => true
    case ControlHunt(buf) => |buf| == 2
    case Length1Hunt(buf) => |buf| == 3
    case Length2Hunt(buf) => |buf| == 4 && buf[3] & 1 == 0
    case DataHunt(buf, left) => left > 0 && HeaderRead(buf) && |buf| + left == FcsPosition(buf)
    case FcsHunt(buf) => HeaderRead(buf) && |buf| == FcsPosition(buf)
  }

  predicate HeaderRead(buf: seq<byte>) {
    |buf| >= 4 && (buf[3] & 1 == 1 || |buf| >= 5)
  }

  function FcsPosition(buf: seq<byte>): nat
    requires HeaderRead(buf)
  {
    1 + HeaderLength(buf) + InfoLength(buf)
  }

  function AwaitInfo(buf: seq<byte>, n: nat): State {
    if n > 0 then DataHunt(buf, n) else FcsHunt(buf)
  }

  function Step(s: State, b: byte): Progress {
    match s
    case FlagHunt => Progress(if b == FLAG then AddrHunt else FlagHunt, [])
    case AddrHunt => Progress(if b == FLAG then AddrHunt else ControlHunt([FLAG, b]), [])
    case ControlHunt(buf) => Progress(Length1Hunt(buf + [b]), [])
    case Length1Hunt(buf) =>
      Progress(if b & 1 == 1 then AwaitInfo(buf + [b], (b >> 1) as nat) else Length2Hunt(buf + [b]), [])
    case Length2Hunt(buf) =>
      Progress(AwaitInfo(buf + [b], if |buf| > 3 then (buf[3] >> 1) as nat + 128 * (b as nat) else 0), [])
    case DataHunt(buf, left) =>
      Progress(AwaitInfo(buf + [b], if left > 0 then left - 1 else 0), [])
    case FcsHunt(buf) => Progress(FlagHunt, [buf + [b, FLAG]])
  }

  function Run(s: State, data: seq<byte>): Progress
    decreases |data|
  {
    if data == [] then Progress(s, [])
    else
      var first := Step(s, data[0]);
      var rest := Run(first.state, data[1..]);
      Progress(rest.state, first.frames + rest.frames)
  }

  /** The frame in progress, with the two octets added once its FCS is in, stays in the buffer. */
  predicate StepFits(s: State, b: byte) {
    && |Held(Step(s, b).state)| <= MAX_BUFFER
    && (s.FcsHunt? ==> |s.buf| + 2 <= MAX_BUFFER)
  }

  predicate Fits(s: State, data: seq<byte>)
    decreases |data|
  {
    data == [] || (StepFits(s, data[0]) && Fits(Step(s, data[0]).state, data[1..]))
  }

  lemma StepWellFormed(s: State, b: byte)
    requires WellFormed(s)
    ensures WellFormed(Step(s, b).state)
    ensures forall f :: f in Step(s, b).frames ==> Complete(f)
  {
    match s
    case FlagHunt =>
    case AddrHunt =>
    case ControlHunt(buf) =>
    case Length1Hunt(buf) => LengthStepWellFormed(s, buf, b);
    case Length2Hunt(buf) => LengthStepWellFormed(s, buf, b);
    case DataHunt(buf, left) =>
      HeaderKept(buf, [b]);
      hide HeaderRead, FcsPosition, Complete;
    case FcsHunt(buf) =>
      HeaderKept(buf, [b, FLAG]);
      hide HeaderRead, FcsPosition, Complete;
  }

  lemma LengthStepWellFormed(s: State, buf: seq<byte>, b: byte)
    requires WellFormed(s) && (s == Length1Hunt(buf) || s == Length2Hunt(buf))
    ensures WellFormed(Step(s, b).state) && Step(s, b).frames == []
  {
    LengthReadSoFar(buf, b);
    hide InfoLength, FcsPosition, HeaderRead;
  }

  /** Octets after the length indicator do not change what it says. */
  lemma HeaderKept(buf: seq<byte>, more: seq<byte>)
    requires HeaderRead(buf)
    ensures HeaderRead(buf + more) && FcsPosition(buf + more) == FcsPosition(buf)
    ensures |buf| == FcsPosition(buf) && |more| == 2 ==> Complete(buf + more)
  {
    var all := buf + more;
    assert all[3] == buf[3];
    assert buf[3] & 1 == 1 || all[4] == buf[4];
  }

  lemma LengthReadSoFar(buf: seq<byte>, b: byte)
    requires |buf| == 3 || (|buf| == 4 && buf[3] & 1 == 0)
    ensures var all := buf + [b];
      HeaderRead(all) ==>
        && FcsPosition(all) == |all| + InfoLength(all)
        && InfoLength(all) == (if |buf| == 3 then (b >> 1) as nat else (buf[3] >> 1) as nat + 128 * (b as nat))
    ensures HeaderRead(buf + [b]) <==> |buf| == 4 || b & 1 == 1
    ensures |buf| == 3 && b & 1 != 1 ==> b & 1 == 0
  {
    var all := buf + [b];
    assert all[|buf|] == b;
    assert |buf| == 4 ==> all[3] == buf[3];
  }

  lemma Length1Step(buf: seq<byte>, b: byte)
    requires |buf| == 3
    ensures (b >> 1) as nat < 0x80
    ensures var next := if b & 1 == 1 then AwaitInfo(buf + [b], (b >> 1) as nat) else Length2Hunt(buf + [b]);
      Step(Length1Hunt(buf), b) == Progress(next, []) && WellFormed(next)
  {
    LengthReadSoFar(buf, b);
    StepWellFormed(Length1Hunt(buf), b);
  }

  lemma Length2Step(buf: seq<byte>, b: byte)
    requires |buf| == 4 && buf[3] & 1 == 0
    ensures var n := (buf[3] >> 1) as nat + 128 * (b as nat);
      && n < 0x8000
      && Step(Length2Hunt(buf), b) == Progress(AwaitInfo(buf + [b], n), [])
      && WellFormed(AwaitInfo(buf + [b], n))
  {
    assert WellFormed(Length2Hunt(buf));
    LengthStepWellFormed(Length2Hunt(buf), buf, b);
    ShiftedBelow(buf[3]);
    hide WellFormed;
  }

  lemma ShiftedBelow(b: byte)
    ensures (b >> 1) as nat < 0x80
  {
  }

  /** Every buffer handed over is one complete frame, whatever the line delivered. */
  lemma {:induction false} FramesComplete(s: State, data: seq<byte>)
    requires WellFormed(s)
    ensures WellFormed(Run(s, data).state)
    ensures forall f :: f in Run(s, data).frames ==> Complete(f)
    decreases |data|
  {
    if data == [] {
    } else {
      StepWellFormed(s, data[0]);
      FramesComplete(Step(s, data[0]).state, data[1..]);
    }
  }

  /** Cutting the stream anywhere changes neither the frames nor the state reached. */
  lemma {:induction false} RunSplit(s: State, a: seq<byte>, b: seq<byte>)
    ensures var first := Run(s, a);
      var second := Run(first.state, b);
      Run(s, a + b) == Progress(second.state, first.frames + second.frames)
    decreases |a|
  {
    if a == [] {
      assert a + b == b;
    } else {
      assert (a + b)[1..] == a[1..] + b;
      RunSplit(Step(s, a[0]).state, a[1..], b);
    }
  }

  lemma {:induction false} FitsSplit(s: State, a: seq<byte>, b: seq<byte>)
    ensures Fits(s, a + b) <==> Fits(s, a) && Fits(Run(s, a).state, b)
    decreases |a|
  {
    if a == [] {
      assert a + b == b;
    } else {
      assert (a + b)[1..] == a[1..] + b;
      FitsSplit(Step(s, a[0]).state, a[1..], b);
    }
  }

  function Flatten(chunks: seq<seq<byte>>): seq<byte> {
    if chunks == [] then [] else chunks[0] + Flatten(chunks[1..])
  }

  /** One call per chunk, each starting where the last one stopped. */
  function RunChunks(s: State, chunks: seq<seq<byte>>): Progress
    decreases |chunks|
  {
    if chunks == [] then Progress(s, [])
    else
      var first := Run(s, chunks[0]);
      var rest := RunChunks(first.state, chunks[1..]);
      Progress(rest.state, first.frames + rest.frames)
  }

  lemma {:induction false} ChunkIndependence(s: State, chunks: seq<seq<byte>>)
    ensures RunChunks(s, chunks) == Run(s, Flatten(chunks))
    decreases |chunks|
  {
    if chunks == [] {
    } else {
      RunSplit(s, chunks[0], Flatten(chunks[1..]));
      ChunkIndependence(Run(s, chunks[0]).state, chunks[1..]);
    }
  }

  // ---------------------------------------------------------------------------------------
  // Decoding what the encoder wrote.
  // ---------------------------------------------------------------------------------------

  function Wire(frames: seq<Frame>): seq<byte>
    requires forall f :: f in frames ==> Encodable(f)
  {
    if frames == [] then []
    else
      assert Encodable(frames[0]);
      FrameOctets(frames[0]) + Wire(frames[1..])
  }

  function Octets(frames: seq<Frame>): seq<seq<byte>>
    requires forall f :: f in frames ==> Encodable(f)
  {
    seq(|frames|, i requires 0 <= i < |frames| => assert Encodable(frames[i]); FrameOctets(frames[i]))
  }

  lemma OctetsStep(frames: seq<Frame>)
    requires frames != [] && forall f :: f in frames ==> Encodable(f)
    ensures Encodable(frames[0]) && |frames[0].info| < 0x8000
    ensures Octets(frames) == [FrameOctets(frames[0])] + Octets(frames[1..])
  {
    assert Encodable(frames[0]);
    hide FrameOctets, Encodable;
  }

  /** Information octets are counted, never searched for flags. */
  lemma {:induction false} RunInfo(buf: seq<byte>, n: nat, info: seq<byte>)
    requires |info| <= n
    ensures Run(AwaitInfo(buf, n), info) == Progress(AwaitInfo(buf + info, n - |info|), [])
    ensures |buf| <= MAX_BUFFER ==> (Fits(AwaitInfo(buf, n), info) <==> |buf| + |info| <= MAX_BUFFER)
    decreases |info|
  {
    if info == [] {
      assert buf + info == buf;
    } else {
      var b, rest := info[0], info[1..];
      RunInfo(buf + [b], n - 1, rest);
      assert Step(DataHunt(buf, n), b) == Progress(AwaitInfo(buf + [b], n - 1), []);
      assert buf + [b] + rest == buf + info;
    }
  }

  lemma CopyFits(buf: seq<byte>, n: nat, data: seq<byte>, count: nat)
    requires |buf| <= MAX_BUFFER && count <= n && count <= |data|
    requires WellFormed(AwaitInfo(buf, n)) && Fits(AwaitInfo(buf, n), data)
    ensures var info := data[..count];
      && |buf| + count <= MAX_BUFFER
      && WellFormed(AwaitInfo(buf + info, n - count))
      && Run(AwaitInfo(buf, n), info) == Progress(AwaitInfo(buf + info, n - count), [])
  {
    var info := data[..count];
    assert data == info + data[count..];
    FitsSplit(AwaitInfo(buf, n), info, data[count..]);
    RunInfo(buf, n, info);
    FramesComplete(AwaitInfo(buf, n), info);
  }

  lemma RunOne(s: State, b: byte)
    ensures Run(s, [b]) == Step(s, b)
    ensures Fits(s, [b]) <==> StepFits(s, b)
  {
    assert [b][1..] == [];
    var st := Step(s, b);
    assert st.frames + [] == st.frames;
  }

  lemma RunOneLength(top: seq<byte>, b: byte)
    requires |top| == 3 && b & 1 == 1
    ensures Run(Length1Hunt(top), [b]) == Progress(AwaitInfo(top + [b], InfoLength(top + [b])), [])
    ensures Fits(Length1Hunt(top), [b])
  {
    LengthReadSoFar(top, b);
    RunOne(Length1Hunt(top), b);
  }

  lemma RunTwoLengths(top: seq<byte>, a: byte, b: byte)
    requires |top| == 3 && a & 1 == 0
    ensures (top + [a, b])[3] == a
    ensures Run(Length1Hunt(top), [a, b]) == Progress(AwaitInfo(top + [a, b], InfoLength(top + [a, b])), [])
    ensures Fits(Length1Hunt(top), [a, b])
  {
    var first := top + [a];
    assert first[3] == a;
    assert first + [b] == top + [a, b];
    LengthReadSoFar(first, b);
    assert Step(Length1Hunt(top), a) == Progress(Length2Hunt(first), []);
    RunTwo(Length1Hunt(top), a, b);
  }

  /** The length octets lead to an information field of the announced length. */
  lemma RunLength(top: seq<byte>, n: nat)
    requires |top| == 3 && n < 0x8000
    ensures var l := LengthOctets(n);
      && Run(Length1Hunt(top), l) == Progress(AwaitInfo(top + l, n), [])
      && Fits(Length1Hunt(top), l)
  {
    hide Run, Fits, AwaitInfo, LengthOctets, InfoLength;
    var l := LengthOctets(n);
    assert (top + l)[3..3 + |l|] == l;
    LengthRoundTrip(top + l, n);
    LengthShape(n);
    if |l| == 1 {
      assert l == [l[0]];
      RunOneLength(top, l[0]);
    } else {
      assert l == [l[0], l[1]];
      RunTwoLengths(top, l[0], l[1]);
    }
  }

  /** The header octets of an encoded frame lead to its information field. */
  lemma RunHeader(s: State, f: Frame)
    requires s == FlagHunt || s == AddrHunt
    requires Encodable(f)
    ensures var front := [FLAG] + Header(f);
      && Run(s, front) == Progress(AwaitInfo(front, |f.info|), [])
      && Fits(s, front)
  {
    hide LengthOctets, Address, Control, Run, Fits, AwaitInfo;
    var h, l := Header(f), LengthOctets(|f.info|);
    var top := [FLAG, h[0], h[1]];
    AddressBits(f.channel, f.ea, f.cr);
    RunThree(s, FLAG, h[0], h[1]);
    RunLength(top, |f.info|);
    RunSplit(s, top, l);
    FitsSplit(s, top, l);
    assert [FLAG] + h == top + l;
  }

  lemma RunTwo(s: State, a: byte, b: byte)
    ensures var s1 := Step(s, a);
      var s2 := Step(s1.state, b);
      && Run(s, [a, b]) == Progress(s2.state, s1.frames + s2.frames)
      && (Fits(s, [a, b]) <==> StepFits(s, a) && StepFits(s1.state, b))
  {
    assert [a, b] == [a] + [b];
    RunSplit(s, [a], [b]);
    FitsSplit(s, [a], [b]);
    RunOne(s, a);
    RunOne(Step(s, a).state, b);
  }

  lemma RunThree(s: State, a: byte, b: byte, c: byte)
    requires s == FlagHunt || s == AddrHunt
    requires a == FLAG && b != FLAG
    ensures Run(s, [a, b, c]) == Progress(Length1Hunt([a, b, c]), [])
    ensures Fits(s, [a, b, c])
  {
    assert [a, b, c] == [a, b] + [c];
    RunTwo(s, a, b);
    RunSplit(s, [a, b], [c]);
    FitsSplit(s, [a, b], [c]);
    RunOne(ControlHunt([a, b]), c);
  }

  /** One encoded frame, met between frames, is handed over octet for octet. */
  lemma RunFrame(s: State, f: Frame)
    requires s == FlagHunt || s == AddrHunt
    requires Encodable(f)
    ensures Run(s, FrameOctets(f)) == Progress(AddrHunt, [FrameOctets(f)])
    ensures Fits(s, FrameOctets(f))
  {
    var h := Header(f);
    var front, fcs := [FLAG] + h, Fcs(h);
    RunHeader(s, f);
    RunInfo(front, |f.info|, f.info);
    var body := front + f.info;
    RunSplit(s, front, f.info);
    FitsSplit(s, front, f.info);
    RunTwo(FcsHunt(body), fcs, FLAG);
    RunSplit(s, body, [fcs, FLAG]);
    FitsSplit(s, body, [fcs, FLAG]);
    assert FrameOctets(f) == body + [fcs, FLAG];
  }

  lemma {:induction false} RunNoise(noise: seq<byte>)
    requires FLAG !in noise
    ensures Run(FlagHunt, noise) == Progress(FlagHunt, [])
    ensures Fits(FlagHunt, noise)
  {
    if noise == [] {
    } else {
      RunNoise(noise[1..]);
    }
  }

  lemma {:induction false} RunWire(s: State, frames: seq<Frame>)
    requires s == FlagHunt || s == AddrHunt
    requires forall f :: f in frames ==> Encodable(f)
    ensures Run(s, Wire(frames)).frames == Octets(frames)
    ensures Run(s, Wire(frames)).state == (if frames == [] then s else AddrHunt)
    ensures Fits(s, Wire(frames))
    decreases |frames|
  {
    if frames == [] {
      assert Octets(frames) == [];
    } else {
      assert Encodable(frames[0]);
      OctetsStep(frames);
      hide FrameOctets, Run, Fits, Encodable, Octets;
      var first, rest := FrameOctets(frames[0]), Wire(frames[1..]);
      RunFrame(s, frames[0]);
      RunWire(AddrHunt, frames[1..]);
      RunSplit(s, first, rest);
      FitsSplit(s, first, rest);
    }
  }

  function ReceiveAll(buffers: seq<seq<byte>>): seq<Received>
    requires forall b :: b in buffers ==> Complete(b)
  {
    seq(|buffers|, i requires 0 <= i < |buffers| => Receive(buffers[i]))
  }

  /**
    Any list of frames, encoded, put on the line behind any noise without a flag octet and cut
    into chunks in any way, is decoded to the same list in the same order, every FCS accepted.
   */
  lemma WireRoundTrip(noise: seq<byte>, frames: seq<Frame>, chunks: seq<seq<byte>>)
    requires FLAG !in noise
    requires forall f :: f in frames ==> Encodable(f)
    requires Flatten(chunks) == noise + Wire(frames)
    ensures var got := RunChunks(FlagHunt, chunks);
      && Fits(FlagHunt, Flatten(chunks))
      && (forall b :: b in got.frames ==> Complete(b))
      && ReceiveAll(got.frames) == seq(|frames|, i requires 0 <= i < |frames| => Accepted(frames[i]))
  {
    hide Fcs, FrameOctets, Receive;
    var got := RunChunks(FlagHunt, chunks);
    ChunkIndependence(FlagHunt, chunks);
    RunNoise(noise);
    RunSplit(FlagHunt, noise, Wire(frames));
    FitsSplit(FlagHunt, noise, Wire(frames));
    RunWire(FlagHunt, frames);
    assert got.frames == Octets(frames);
    FramesComplete(FlagHunt, Flatten(chunks));
    forall i | 0 <= i < |frames| ensures Receive(got.frames[i]) == Accepted(frames[i]) {
      FrameRoundTrip(frames[i]);
    }
  }

  // ---------------------------------------------------------------------------------------
  // The program: static variables advanced by a loop of jumps.
  // ---------------------------------------------------------------------------------------

  datatype DecodeState = FLAG_HUNT | ADDR_HUNT | CONTROL_HUNT | LENGTH1_HUNT | LENGTH2_HUNT | DATA_HUNT | FCS_HUNT

  class Decoder {
    var decodeState: DecodeState
    const muxBuffer: array<byte>
    var decData: nat       // index into muxBuffer
    var decLength: nat     // 16 bits wide in the program
    var fullFrameLen: nat
    var frames: seq<seq<byte>>  // what the frame processor was called with, in order

    ghost predicate Valid()
      reads this, muxBuffer
    {
      && muxBuffer.Length == MAX_BUFFER
      && fullFrameLen <= MAX_BUFFER
      && (decodeState != FLAG_HUNT ==> decData == fullFrameLen)
      && (decodeState == ADDR_HUNT ==> fullFrameLen == 0)
      && (decodeState == LENGTH2_HUNT ==> fullFrameLen > 3 && decLength == (muxBuffer[3] >> 1) as nat)
      && decLength < 0x8000
      && WellFormed(Reached())
    }

    /** A data hunt with nothing left to copy is already waiting for the FCS. */
    ghost function Reached(): State
      reads this, muxBuffer
      requires muxBuffer.Length == MAX_BUFFER && fullFrameLen <= MAX_BUFFER
    {
      var buf := muxBuffer[..fullFrameLen];
      match decodeState
      case FLAG_HUNT => FlagHunt
      case ADDR_HUNT => AddrHunt
      case CONTROL_HUNT => ControlHunt(buf)
      case LENGTH1_HUNT => Length1Hunt(buf)
      case LENGTH2_HUNT => Length2Hunt(buf)
      case DATA_HUNT => AwaitInfo(buf, decLength)
      case FCS_HUNT => FcsHunt(buf)
    }

    constructor ()
      ensures Valid() && fresh(muxBuffer)
      ensures Reached() == FlagHunt && frames == []
    {
      decodeState := FLAG_HUNT;
      muxBuffer := new byte[MAX_BUFFER];
      decData, decLength, fullFrameLen := 0, 0, 0;
      frames := [];
    }

    /** The next octet of the frame goes into the buffer. */
    method Store(b: byte)
      requires muxBuffer.Length == MAX_BUFFER && decData == fullFrameLen < MAX_BUFFER
      modifies this`decData, this`fullFrameLen, muxBuffer
      ensures decData == fullFrameLen == old(fullFrameLen) + 1
      ensures muxBuffer[..fullFrameLen] == old(muxBuffer[..fullFrameLen]) + [b]
    {
      muxBuffer[decData] := b;
      decData := decData + 1;
      fullFrameLen := fullFrameLen + 1;
    }

    method CopyIn(octets: seq<byte>)
      requires muxBuffer.Length == MAX_BUFFER && decData == fullFrameLen && fullFrameLen + |octets| <= MAX_BUFFER
      modifies this`decData, this`fullFrameLen, muxBuffer
      ensures decData == fullFrameLen == old(fullFrameLen) + |octets|
      ensures muxBuffer[..fullFrameLen] == old(muxBuffer[..fullFrameLen]) + octets
    {
      forall i | 0 <= i < |octets| {
        muxBuffer[decData + i] := octets[i];
      }
      decData := decData + |octets|;
      fullFrameLen := fullFrameLen + |octets|;
    }

    method FlagFound()
      requires Valid() && decodeState == FLAG_HUNT
      modifies this
      ensures Valid() && Reached() == AddrHunt && frames == old(frames)
    {
      fullFrameLen, decLength, decData := 0, 0, 0;
      decodeState := ADDR_HUNT;
    }

    method AddressFound(b: byte)
      requires Valid() && decodeState == ADDR_HUNT && b != FLAG
      modifies this, muxBuffer
      ensures Valid() && Reached() == ControlHunt([FLAG, b]) && frames == old(frames)
    {
      decodeState := CONTROL_HUNT;
      assert muxBuffer[..0] == [];
      Store(FLAG);
      Store(b);
    }

    method ControlFound(b: byte)
      requires Valid() && decodeState == CONTROL_HUNT
      modifies this, muxBuffer
      ensures Valid() && Reached() == Step(old(Reached()), b).state && frames == old(frames)
    {
      decodeState := LENGTH1_HUNT;
      Store(b);
    }

    method Length1Found(b: byte)
      requires Valid() && decodeState == LENGTH1_HUNT
      modifies this, muxBuffer
      ensures Valid() && Reached() == Step(old(Reached()), b).state && frames == old(frames)
    {
      Length1Step(muxBuffer[..fullFrameLen], b);
      hide WellFormed, Step;
      decLength := (b >> 1) as nat;
      if b & 1 == 1 {
        decodeState := if decLength > 0 then DATA_HUNT else FCS_HUNT;
      } else {
        decodeState := LENGTH2_HUNT;
      }
      Store(b);
      assert muxBuffer[..fullFrameLen][3] == b;
    }

    method Length2Found(b: byte)
      requires Valid() && decodeState == LENGTH2_HUNT
      modifies this, muxBuffer
      ensures Valid() && Reached() == Step(old(Reached()), b).state && frames == old(frames)
    {
      ghost var buf := muxBuffer[..fullFrameLen];
      assert |buf| == 4 && buf[3] == muxBuffer[3];
      Length2Step(buf, b);
      hide WellFormed, Step, InfoLength, HeaderLength, Complete;
      // The two parts of the length share no bits, so the program's OR is this sum.
      decLength := decLength + 128 * (b as nat);
      decodeState := DATA_HUNT;
      Store(b);
    }

    /** Copies what the chunk holds of the information field, all of it or up to its end. */
    method DataFound(data: seq<byte>, pos: nat) returns (next: nat)
      requires Valid() && decodeState == DATA_HUNT && pos < |data|
      requires Fits(Reached(), data[pos..])
      modifies this, muxBuffer
      ensures pos <= next <= |data| && (next == pos ==> decodeState == FCS_HUNT)
      ensures Valid() && frames == old(frames)
      ensures Run(old(Reached()), data[pos..next]) == Progress(Reached(), [])
    {
      hide Fits, Run, WellFormed;
      var cpLen := decLength;
      if decLength < |data| - pos {
        decodeState := FCS_HUNT;
      } else {
        cpLen := |data| - pos;
      }
      next := pos + cpLen;
      var info := data[pos..next];
      ghost var buf := muxBuffer[..fullFrameLen];
      assert data[pos..][..cpLen] == info;
      CopyFits(buf, decLength, data[pos..], cpLen);
      CopyIn(info);
      decLength := decLength - cpLen;
    }

    method FcsFound(b: byte)
      requires Valid() && decodeState == FCS_HUNT && fullFrameLen + 2 <= MAX_BUFFER
      modifies this, muxBuffer
      ensures Valid() && Reached() == FlagHunt
      ensures frames == old(frames) + Step(old(Reached()), b).frames
    {
      ghost var buf := muxBuffer[..fullFrameLen];
      Store(b);
      Store(FLAG);
      assert buf + [b] + [FLAG] == buf + [b, FLAG];
      frames := frames + [muxBuffer[..fullFrameLen]];
      decodeState := FLAG_HUNT;
    }

    /** The jump table: the label of the current state, run on the octets at pos. */
    method Advance(data: seq<byte>, pos: nat) returns (next: nat)
      requires Valid() && pos < |data|
      requires Fits(Reached(), data[pos..])
      modifies this, muxBuffer
      ensures Valid()
      ensures pos <= next <= |data| && (next == pos ==> old(decodeState) == DATA_HUNT && decodeState == FCS_HUNT)
      ensures var run := Run(old(Reached()), data[pos..next]);
        Reached() == run.state && frames == old(frames) + run.frames
    {
      if decodeState == DATA_HUNT {
        next := DataFound(data, pos);
        return;
      }
      ghost var s := Reached();
      var b := data[pos];
      next := pos + 1;
      assert data[pos..next] == [b];
      RunOne(s, b);
      hide Run, Fits, WellFormed;
      match decodeState {
        case FLAG_HUNT => if b == FLAG { FlagFound(); }
        case ADDR_HUNT => if b != FLAG { AddressFound(b); }
        case CONTROL_HUNT => ControlFound(b);
        case LENGTH1_HUNT => Length1Found(b);
        case LENGTH2_HUNT => Length2Found(b);
        case FCS_HUNT => FcsFound(b);
      }
    }

    /** One call per chunk. It never writes outside the buffer when the frames fit it. */
    method RcvFromHal(data: seq<byte>)
      requires Valid()
      requires Fits(Reached(), data)
      modifies this, muxBuffer
      ensures Valid()
      ensures var run := Run(old(Reached()), data);
        Reached() == run.state && frames == old(frames) + run.frames
    {
      hide WellFormed, Step, StepFits, Complete;
      var pos := 0;
      ghost var run, before := Run(Reached(), data), frames;
      assert data[0..] == data;
      while pos < |data|
        invariant 0 <= pos <= |data|
        invariant Valid()
        invariant Fits(Reached(), data[pos..])
        invariant var rest := Run(Reached(), data[pos..]);
          run.state == rest.state && before + run.frames == frames + rest.frames
        decreases |data| - pos, if decodeState == DATA_HUNT then 1 else 0
      {
        ghost var s, tail := Reached(), data[pos..];
        var next := Advance(data, pos);
        ghost var part := data[pos..next];
        assert tail == part + data[next..];
        RunSplit(s, part, data[next..]);
        FitsSplit(s, part, data[next..]);
        pos := next;
      }
      assert data[pos..] == [];
    }
  }
}
