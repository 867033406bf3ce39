/**
  Terminal responses of a SIM toolkit session, written object by object into a buffer.
 */
module SatResponses {

  import opened Wrappers
  import opened SatTlv

  datatype Command = Command(number: byte, kind: byte, qualifier: byte)

  datatype ChannelStatus = ChannelStatus(active: bool, channel: byte, info: byte)

  datatype Bearer =
    | Csd(rate: byte, service: byte, connection: byte)
    | Gprs(precedence: byte, delay: byte, reliability: byte, peak: byte, mean: byte, pdp: byte)
    | OtherBearer(kind: byte)

  /** The fields of the four responses; each uses its own. */
  datatype Response = Response(
    comprehensive: bool, command: Command, source: byte, destination: byte,
    result: byte, meProblem: byte, bipProblem: byte,
    text: Text, timeUnit: byte, timeInterval: byte,
    status: ChannelStatus, bearer: Bearer, bufferHigh: byte, bufferLow: byte,
    data: seq<byte>, dataLength: byte)

  // ---------------------------------------------------------------------------------------
  // What a response consists of.
  // ---------------------------------------------------------------------------------------

  function Tag(tag: byte, comprehensive: bool): byte
    requires tag < 0x80
  {
    if comprehensive then tag + 0x80 else tag
  }

  function CommandTlv(r: Response): (t: Tlv)
    ensures |t.value| < 256
  {
    Tlv(Tag(COMMAND_DETAILS_TAG, r.comprehensive), [r.command.number, r.command.kind, r.command.qualifier])
  }

  function DevicesTlv(r: Response): (t: Tlv)
    ensures |t.value| < 256
  {
    Tlv(Tag(DEVICE_IDENTITY_TAG, r.comprehensive), [r.source, r.destination])
  }

  function ResultTlv(r: Response, problem: seq<byte>): (t: Tlv)
    requires |problem| <= 1
    ensures |t.value| < 256
  {
    Tlv(Tag(RESULT_TAG, r.comprehensive), [r.result] + problem)
  }

  function DurationTlv(r: Response): (t: Tlv)
    ensures |t.value| < 256
  {
    Tlv(DURATION_TAG, [r.timeUnit, r.timeInterval])
  }

  function BearerValue(b: Bearer): (v: seq<byte>)
    ensures 1 <= |v| <= 7
  {
    match b
    case Csd(rate, service, connection) => [0x01, rate, service, connection]
    case Gprs(precedence, delay, reliability, peak, mean, pdp) =>
      [0x02, precedence, delay, reliability, peak, mean, pdp]
    case OtherBearer(kind) => [kind]
  }

  function BearerTlv(r: Response): (t: Tlv)
    ensures |t.value| < 256
  {
    Tlv(BEARER_DESCRIPTION_TAG, BearerValue(r.bearer))
  }

  function BufferTlv(r: Response): (t: Tlv)
    ensures |t.value| < 256
  {
    Tlv(BUFFER_SIZE_TAG, [r.bufferHigh, r.bufferLow])
  }

  function DataLengthTlv(r: Response): (t: Tlv)
    ensures |t.value| < 256
  {
    Tlv(CHANNEL_DATA_LENGTH_TAG, [r.dataLength])
  }

  /** The status is added to what the buffer held before. */
  function StatusTlv(r: Response, was: byte): (t: Tlv)
    ensures |t.value| < 256
  {
    var before: int := was;
    Tlv(CHANNEL_STATUS_TAG, [(before + (if r.status.active then 0x80 else 0) + r.status.channel) % 256, r.status.info])
  }

  function Head(r: Response): (ts: seq<Tlv>)
    ensures forall t <- ts :: |t.value| < 256
  {
    [CommandTlv(r), DevicesTlv(r)]
  }

  datatype Kind = Answered | Bare | Timed | MeProblem | BipProblem | Unknown

  /** Get inkey. */
  function InkeyKind(result: byte): Kind {
    if result in {0x00, 0x01, 0x02, 0x04} then Answered
    else if result in {0x10, 0x11, 0x13, 0x30, 0x31, 0x32, 0x33, 0x36} then Bare
    else if result == 0x12 then Timed
    else if result in {0x20, 0x3C} then MeProblem
    else Unknown
  }

  /** Get input knows no duration. */
  function InputKind(result: byte): Kind {
    if InkeyKind(result) == Timed then Bare else InkeyKind(result)
  }

  function OpenChannelKind(result: byte): Kind {
    if result in {0x00, 0x01, 0x02, 0x04, 0x07} then Answered
    else if result in {0x08, 0x10, 0x22, 0x25, 0x30, 0x31, 0x32, 0x33, 0x36} then Bare
    else if result in {0x20, 0x21, 0x3C} then MeProblem
    else if result == 0x3A then BipProblem
    else Unknown
  }

  function ReceiveDataKind(result: byte): Kind {
    if result in {0x00, 0x01, 0x02, 0x04, 0x10, 0x30, 0x31, 0x32, 0x33, 0x36} then Answered
    else if result in {0x20, 0x3C} then MeProblem
    else if result == 0x3A then BipProblem
    else Unknown
  }

  function Problem(r: Response, k: Kind): (p: seq<byte>)
    ensures |p| <= 1
  {
    match k
    case MeProblem => [r.meProblem]
    case BipProblem => [r.bipProblem]
    case _ => []
  }

  function Start(r: Response, k: Kind): (ts: seq<Tlv>)
    ensures forall t <- ts :: |t.value| < 256
  {
    Head(r) + [ResultTlv(r, Problem(r, k))]
  }

  /** A response to get inkey or get input that answers ends in the text. */
  function TextResponse(r: Response, k: Kind): seq<Tlv> {
    match k
    case Unknown => []
    case Answered => Start(r, k) + [TextTlv(r.text, false)]
    case Timed => Start(r, k) + [DurationTlv(r)]
    case _ => Start(r, k)
  }

  function OpenChannelResponse(r: Response, was: byte): seq<Tlv> {
    var k := OpenChannelKind(r.result);
    if k == Unknown then []
    else Start(r, k) + (if k == Answered then [StatusTlv(r, was)] else []) + [BearerTlv(r), BufferTlv(r)]
  }

  function ReceiveDataResponse(r: Response): seq<Tlv> {
    var k := ReceiveDataKind(r.result);
    if k == Unknown then []
    else Start(r, k) + if k == Answered then [ChannelDataTlv(r.data), DataLengthTlv(r)] else []
  }

  // ---------------------------------------------------------------------------------------
  // The octets, and how they read.
  // ---------------------------------------------------------------------------------------

  function TextResponseOctets(r: Response, k: Kind): seq<byte> {
    match k
    case Unknown => []
    case Answered => Tiles(Start(r, k)) + TextOctets(r.text, false)
    case Timed => Tiles(Start(r, k)) + Tile(DurationTlv(r))
    case _ => Tiles(Start(r, k))
  }

  /** The objects of a response to get inkey or get input tile it exactly when its text, if any, has a good length. */
  lemma TextResponseTiled(r: Response, k: Kind)
    ensures Walk(TextResponseOctets(r, k)) == Some(TextResponse(r, k)) <==>
            (k == Answered ==> GoodLength(|r.text.chars|))
  {
    hide Walk, Tile, Tiles, TextOctets, TextTlv;
    WalkNothing();
    if k != Unknown {
      var start := Start(r, k);
      WalkTiles(start, []);
      assert Tiles(start) + [] == Tiles(start) && start + [] == start;
      if k == Answered {
        WalkTiles(start, TextOctets(r.text, false));
        TextWalks(r.text, false);
        SameEnd(start, Walk(TextOctets(r.text, false)), [TextTlv(r.text, false)]);
      } else if k == Timed {
        WalkTiles(start, Tile(DurationTlv(r)) + []);
        WalkTile(DurationTlv(r), []);
        assert Tile(DurationTlv(r)) + [] == Tile(DurationTlv(r));
        assert [DurationTlv(r)] + [] == [DurationTlv(r)];
      }
    }
  }

  lemma SameEnd(start: seq<Tlv>, found: Option<seq<Tlv>>, end: seq<Tlv>)
    ensures found == Some(end) <==> found.Some? && start + found.value == start + end
  {
    if found.Some? && start + found.value == start + end {
      assert found.value == (start + found.value)[|start|..] == (start + end)[|start|..] == end;
    }
  }

  /** The response to open channel is always tiled by its objects. */
  lemma OpenChannelTiled(r: Response, was: byte)
    ensures Walk(Tiles(OpenChannelResponse(r, was))) == Some(OpenChannelResponse(r, was))
  {
    TilesWalk(OpenChannelResponse(r, was));
  }

  lemma ReceiveDataTiled(r: Response)
    requires |r.data| <= CHANNEL_DATA_LEN_MAX
    ensures Walk(Tiles(ReceiveDataResponse(r))) == Some(ReceiveDataResponse(r))
  {
    TilesWalk(ReceiveDataResponse(r));
  }

  lemma TilesWalk(ts: seq<Tlv>)
    requires forall t <- ts :: |t.value| < 256
    ensures Walk(Tiles(ts)) == Some(ts)
  {
    hide Walk, Tiles;
    WalkNothing();
    WalkTiles(ts, []);
    assert Tiles(ts) + [] == Tiles(ts) && ts + [] == ts;
  }

  // ---------------------------------------------------------------------------------------
  // The encoders. Each object is written behind what is already there.
  // ---------------------------------------------------------------------------------------

  /** The buffer was, with done written over its start. */
  function Over(was: seq<byte>, done: seq<byte>): (b: seq<byte>)
    requires |done| <= |was|
    ensures |b| == |was|
  {
    done + was[|done|..]
  }

  method EncodeCommand(r: Response, dst: array<byte>, at: nat, ghost was: seq<byte>, ghost done: seq<byte>)
      returns (n: nat)
    requires at == |done| && at + 5 <= dst.Length == |was| && dst[..] == Over(was, done)
    modifies dst
    ensures n == 5 && dst[..] == Over(was, done + Tile(CommandTlv(r)))
  {
    dst[at] := Tag(COMMAND_DETAILS_TAG, r.comprehensive);
    dst[at + 1] := 3;
    dst[at + 2] := r.command.number;
    dst[at + 3] := r.command.kind;
    dst[at + 4] := r.command.qualifier;
    n := 5;
  }

  method EncodeDevices(r: Response, dst: array<byte>, at: nat, ghost was: seq<byte>, ghost done: seq<byte>)
      returns (n: nat)
    requires at == |done| && at + 4 <= dst.Length == |was| && dst[..] == Over(was, done)
    modifies dst
    ensures n == 4 && dst[..] == Over(was, done + Tile(DevicesTlv(r)))
  {
    dst[at] := Tag(DEVICE_IDENTITY_TAG, r.comprehensive);
    dst[at + 1] := 2;
    dst[at + 2] := r.source;
    dst[at + 3] := r.destination;
    n := 4;
  }

  method EncodeResult(r: Response, problem: seq<byte>, dst: array<byte>, at: nat, ghost was: seq<byte>,
                      ghost done: seq<byte>) returns (n: nat)
    requires |problem| <= 1
    requires at == |done| && at + 4 <= dst.Length == |was| && dst[..] == Over(was, done)
    modifies dst
    ensures n == 3 + |problem| && dst[..] == Over(was, done + Tile(ResultTlv(r, problem)))
  {
    dst[at] := Tag(RESULT_TAG, r.comprehensive);
    dst[at + 1] := 1 + |problem|;
    dst[at + 2] := r.result;
    n := 3;
    if |problem| == 1 {
      dst[at + 3] := problem[0];
      n := 4;
    }
  }

  method EncodeDuration(r: Response, dst: array<byte>, at: nat, ghost was: seq<byte>, ghost done: seq<byte>)
      returns (n: nat)
    requires at == |done| && at + 4 <= dst.Length == |was| && dst[..] == Over(was, done)
    modifies dst
    ensures n == 4 && dst[..] == Over(was, done + Tile(DurationTlv(r)))
  {
    dst[at] := DURATION_TAG;
    dst[at + 1] := 2;
    dst[at + 2] := r.timeUnit;
    dst[at + 3] := r.timeInterval;
    n := 4;
  }

  method EncodeText(t: Text, raw: bool, dst: array<byte>, at: nat, ghost was: seq<byte>, ghost done: seq<byte>)
      returns (n: nat)
    requires at == |done| && at + |TextOctets(t, raw)| <= dst.Length == |was| && dst[..] == Over(was, done)
    modifies dst
    ensures n == |TextOctets(t, raw)| && dst[..] == Over(was, done + TextOctets(t, raw))
  {
    hide EncodeDcs;
    var index := at;
    dst[index] := TEXT_STRING_TAG;
    index := index + 1;
    if |t.chars| > 0x7F {
      dst[index] := 0x81;
      index := index + 1;
    }
    dst[index] := (1 + |t.chars|) % 256;
    index := index + 1;
    dst[index] := DcsOctet(t, raw);
    index := index + 1;
    forall k | 0 <= k < |t.chars| {
      dst[index + k] := t.chars[k];
    }
    n := index - at + |t.chars|;
  }

  lemma Written(b: seq<byte>, was: seq<byte>, done: seq<byte>, more: seq<byte>)
    requires |done| + |more| <= |was| == |b|
    requires forall k :: 0 <= k < |done| ==> b[k] == done[k]
    requires forall k :: 0 <= k < |more| ==> b[|done| + k] == more[k]
    requires forall k :: |done| + |more| <= k < |b| ==> b[k] == was[k]
    ensures b == Over(was, done + more)
  {
  }

  lemma Before(b: seq<byte>, was: seq<byte>, done: seq<byte>)
    requires |done| <= |was| && b == Over(was, done)
    ensures |b| == |was|
    ensures forall k :: 0 <= k < |done| ==> b[k] == done[k]
    ensures forall k :: |done| <= k < |b| ==> b[k] == was[k]
  {
  }

  lemma BearerTile(r: Response)
    ensures var t := Tile(BearerTlv(r));
      && |t| == 2 + |BearerValue(r.bearer)| && t[0] == BEARER_DESCRIPTION_TAG
      && match r.bearer
         case Csd(rate, service, connection) =>
           |t| == 6 && t[1] == 4 && t[2] == 0x01 && t[3] == rate && t[4] == service && t[5] == connection
         case Gprs(precedence, delay, reliability, peak, mean, pdp) =>
           && |t| == 9 && t[1] == 7 && t[2] == 0x02 && t[3] == precedence && t[4] == delay
           && t[5] == reliability && t[6] == peak && t[7] == mean && t[8] == pdp
         case OtherBearer(kind) => |t| == 3 && t[1] == 1 && t[2] == kind
  {
  }

  method EncodeBearer(r: Response, dst: array<byte>, at: nat, ghost was: seq<byte>, ghost done: seq<byte>)
      returns (n: nat)
    requires at == |done| && at + 9 <= dst.Length == |was| && dst[..] == Over(was, done)
    modifies dst
    ensures n == 2 + |BearerValue(r.bearer)| && dst[..] == Over(was, done + Tile(BearerTlv(r)))
  {
    BearerTile(r);
    Before(dst[..], was, done);
    hide Over, Tile, BearerTlv, BearerValue;
    dst[at] := BEARER_DESCRIPTION_TAG;
    match r.bearer {
      case Csd(rate, service, connection) =>
        dst[at + 2], dst[at + 3], dst[at + 4], dst[at + 5] := 0x01, rate, service, connection;
        dst[at + 1] := 4;
        n := 6;
      case Gprs(precedence, delay, reliability, peak, mean, pdp) =>
        dst[at + 2], dst[at + 3], dst[at + 4], dst[at + 5] := 0x02, precedence, delay, reliability;
        dst[at + 6], dst[at + 7], dst[at + 8] := peak, mean, pdp;
        dst[at + 1] := 7;
        n := 9;
      case OtherBearer(kind) =>
        dst[at + 2] := kind;
        dst[at + 1] := 1;
        n := 3;
    }
    Written(dst[..], was, done, Tile(BearerTlv(r)));
  }

  method EncodeBufferSize(r: Response, dst: array<byte>, at: nat, ghost was: seq<byte>, ghost done: seq<byte>)
      returns (n: nat)
    requires at == |done| && at + 4 <= dst.Length == |was| && dst[..] == Over(was, done)
    modifies dst
    ensures n == 4 && dst[..] == Over(was, done + Tile(BufferTlv(r)))
  {
    dst[at] := BUFFER_SIZE_TAG;
    dst[at + 1] := 2;
    dst[at + 2] := r.bufferHigh;
    dst[at + 3] := r.bufferLow;
    n := 4;
  }

  method EncodeChannelData(data: seq<byte>, dst: array<byte>, at: nat, ghost was: seq<byte>,
                           ghost done: seq<byte>) returns (n: nat)
    requires |data| <= CHANNEL_DATA_LEN_MAX
    requires at == |done| && at + |data| + 3 <= dst.Length == |was| && dst[..] == Over(was, done)
    modifies dst
    ensures n == |Tile(ChannelDataTlv(data))| && dst[..] == Over(was, done + Tile(ChannelDataTlv(data)))
  {
    var index := at;
    dst[index] := CHANNEL_DATA_TAG;
    index := index + 1;
    if |data| > 0x7F {
      dst[index] := 0x81;
      index := index + 1;
    }
    dst[index] := |data|;
    index := index + 1;
    forall k | 0 <= k < |data| {
      dst[index + k] := data[k];
    }
    n := index - at + |data|;
  }

  method EncodeChannelDataLength(r: Response, dst: array<byte>, at: nat, ghost was: seq<byte>,
                                 ghost done: seq<byte>) returns (n: nat)
    requires at == |done| && at + 3 <= dst.Length == |was| && dst[..] == Over(was, done)
    modifies dst
    ensures n == 3 && dst[..] == Over(was, done + Tile(DataLengthTlv(r)))
  {
    dst[at] := CHANNEL_DATA_LENGTH_TAG;
    dst[at + 1] := 1;
    dst[at + 2] := r.dataLength;
    n := 3;
  }

  method EncodeChannelStatus(r: Response, dst: array<byte>, at: nat, ghost was: seq<byte>,
                             ghost done: seq<byte>) returns (n: nat)
    requires at == |done| && at + 4 <= dst.Length == |was| && dst[..] == Over(was, done)
    modifies dst
    ensures n == 4 && dst[..] == Over(was, done + Tile(StatusTlv(r, was[at + 2])))
  {
    assert dst[..][at + 2] == was[at + 2];
    StatusTile(r, was[at + 2]);
    hide Tile, StatusTlv;
    dst[at] := CHANNEL_STATUS_TAG;
    dst[at + 1] := 2;
    if r.status.active {
      var raised: int := dst[at + 2];
      dst[at + 2] := (raised + 0x80) % 256;
    }
    var sum: int := dst[at + 2];
    dst[at + 2] := (sum + r.status.channel) % 256;
    dst[at + 3] := r.status.info;
    n := 4;
  }

  lemma StatusTile(r: Response, was: byte)
    ensures Tile(StatusTlv(r, was))
      == [CHANNEL_STATUS_TAG, 2, ((was as int) + (if r.status.active then 0x80 else 0) + r.status.channel) % 256,
          r.status.info]
  {
  }

  method EncodeHead(r: Response, dst: array<byte>) returns (n: nat)
    requires dst.Length >= 9
    modifies dst
    ensures n == 9 == |Tiles(Head(r))| && dst[..] == Over(old(dst[..]), Tiles(Head(r)))
  {
    ghost var was := dst[..];
    assert dst[..] == Over(was, []);
    var a := EncodeCommand(r, dst, 0, was, []);
    var b := EncodeDevices(r, dst, a, was, [] + Tile(CommandTlv(r)));
    n := a + b;
    TwoTiles(CommandTlv(r), DevicesTlv(r));
  }

  lemma TwoTiles(t: Tlv, u: Tlv)
    requires |t.value| < 256 && |u.value| < 256
    ensures Tiles([t, u]) == [] + Tile(t) + Tile(u)
  {
    hide Tile;
    assert [t, u][1..] == [u] && [u][1..] == [];
    assert Tiles([u]) == Tile(u) + Tiles([]);
  }

  /** The tiles of a longer list. */
  lemma {:induction false} TilesAppend(ts: seq<Tlv>, us: seq<Tlv>)
    requires (forall t <- ts :: |t.value| < 256) && (forall u <- us :: |u.value| < 256)
    ensures Tiles(ts + us) == Tiles(ts) + Tiles(us)
    decreases |ts|
  {
    hide Tile;
    if ts == [] {
      assert ts + us == us;
    } else {
      TilesAppend(ts[1..], us);
      assert (ts + us)[1..] == ts[1..] + us;
    }
  }

  lemma TilesOne(ts: seq<Tlv>, t: Tlv)
    requires (forall u <- ts :: |u.value| < 256) && |t.value| < 256
    ensures Tiles(ts + [t]) == Tiles(ts) + Tile(t)
  {
    TilesAppend(ts, [t]);
    assert [t][1..] == [];
    hide Tile;
    assert Tiles([t]) == Tile(t);
  }

  method EncodeStart(r: Response, k: Kind, dst: array<byte>) returns (n: nat)
    requires dst.Length >= 13
    modifies dst
    ensures n == |Tiles(Start(r, k))| <= 13 && dst[..] == Over(old(dst[..]), Tiles(Start(r, k)))
  {
    hide Tile, Tiles, Head, Problem;
    n := EncodeHead(r, dst);
    TilesOne(Head(r), ResultTlv(r, Problem(r, k)));
    var m := EncodeResult(r, Problem(r, k), dst, n, old(dst[..]), Tiles(Head(r)));
    ResultSize(r, k);
    n := n + m;
  }

  lemma ResultSize(r: Response, k: Kind)
    ensures |Tile(ResultTlv(r, Problem(r, k)))| == 3 + |Problem(r, k)|
  {
  }

  /** Get inkey: 0, with the tag of the result left behind, for a result it does not know. */
  method EncodeGetInkey(r: Response, dst: array<byte>) returns (n: nat)
    requires dst.Length >= 17 + |TextOctets(r.text, false)|
    modifies dst
    ensures n == |TextResponseOctets(r, InkeyKind(r.result))| <= dst.Length
    ensures dst[..n] == TextResponseOctets(r, InkeyKind(r.result))
  {
    n := EncodeTextResponse(r, InkeyKind(r.result), dst);
  }

  method EncodeGetInput(r: Response, dst: array<byte>) returns (n: nat)
    requires dst.Length >= 17 + |TextOctets(r.text, false)|
    modifies dst
    ensures n == |TextResponseOctets(r, InputKind(r.result))| <= dst.Length
    ensures dst[..n] == TextResponseOctets(r, InputKind(r.result))
  {
    n := EncodeTextResponse(r, InputKind(r.result), dst);
  }

  method EncodeTextResponse(r: Response, k: Kind, dst: array<byte>) returns (n: nat)
    requires dst.Length >= 17 + |TextOctets(r.text, false)|
    modifies dst
    ensures n == |TextResponseOctets(r, k)| <= dst.Length && dst[..n] == TextResponseOctets(r, k)
  {
    hide Tile, Tiles, Start, TextOctets;
    ghost var was := dst[..];
    if k == Unknown {
      var h := EncodeHead(r, dst);
      dst[h] := Tag(RESULT_TAG, r.comprehensive);
      return 0;
    }
    n := EncodeStart(r, k, dst);
    ghost var start := Tiles(Start(r, k));
    var m := 0;
    if k == Answered {
      m := EncodeText(r.text, false, dst, n, was, start);
    } else if k == Timed {
      DurationSize(r);
      m := EncodeDuration(r, dst, n, was, start);
    }
    n := n + m;
    assert dst[..n] == dst[..][..n];
  }

  lemma DurationSize(r: Response)
    ensures |Tile(DurationTlv(r))| == 4
  {
  }

  method EncodeOpenChannel(r: Response, dst: array<byte>) returns (n: nat)
    requires dst.Length >= 30
    modifies dst
    ensures n == |Tiles(OpenChannelResponse(r, old(dst[14])))| <= dst.Length
    ensures dst[..n] == Tiles(OpenChannelResponse(r, old(dst[14])))
  {
    hide Tile, Tiles, Start, BearerValue, StatusTlv;
    ghost var was := dst[..];
    var k := OpenChannelKind(r.result);
    if k == Unknown {
      var h := EncodeHead(r, dst);
      dst[h] := Tag(RESULT_TAG, r.comprehensive);
      NoTiles();
      return 0;
    }
    n := EncodeStart(r, k, dst);
    ghost var ts := Start(r, k);
    OpenChannelSizes(r, k, was[14]);
    if k == Answered {
      TilesOne(ts, StatusTlv(r, was[14]));
      var m := EncodeChannelStatus(r, dst, n, was, Tiles(ts));
      n := n + m;
      ts := ts + [StatusTlv(r, was[14])];
    }
    TilesOne(ts, BearerTlv(r));
    var b := EncodeBearer(r, dst, n, was, Tiles(ts));
    n := n + b;
    ts := ts + [BearerTlv(r)];
    TilesOne(ts, BufferTlv(r));
    var s := EncodeBufferSize(r, dst, n, was, Tiles(ts));
    n := n + s;
    ts := ts + [BufferTlv(r)];
    assert ts == OpenChannelResponse(r, was[14]);
    assert dst[..n] == dst[..][..n];
  }

  lemma NoTiles()
    ensures Tiles([]) == []
  {
  }

  lemma OpenChannelSizes(r: Response, k: Kind, was: byte)
    requires k == OpenChannelKind(r.result) != Unknown
    ensures |Tile(StatusTlv(r, was))| == 4 == |Tile(BufferTlv(r))|
    ensures |Tile(BearerTlv(r))| == 2 + |BearerValue(r.bearer)|
    ensures k == Answered ==> |Tiles(Start(r, k))| == 12
  {
    TilesOne(Head(r), ResultTlv(r, Problem(r, k)));
    TwoTiles(CommandTlv(r), DevicesTlv(r));
  }

  method EncodeReceiveData(r: Response, dst: array<byte>) returns (n: nat)
    requires |r.data| <= CHANNEL_DATA_LEN_MAX && dst.Length >= 19 + |r.data|
    modifies dst
    ensures n == |Tiles(ReceiveDataResponse(r))| <= dst.Length && dst[..n] == Tiles(ReceiveDataResponse(r))
  {
    hide Tile, Tiles, Start;
    ghost var was := dst[..];
    var k := ReceiveDataKind(r.result);
    if k == Unknown {
      var h := EncodeHead(r, dst);
      dst[h] := Tag(RESULT_TAG, r.comprehensive);
      NoTiles();
      return 0;
    }
    n := EncodeStart(r, k, dst);
    ghost var ts := Start(r, k);
    if k == Answered {
      ReceiveDataSizes(r);
      TilesOne(ts, ChannelDataTlv(r.data));
      var d := EncodeChannelData(r.data, dst, n, was, Tiles(ts));
      n := n + d;
      ts := ts + [ChannelDataTlv(r.data)];
      TilesOne(ts, DataLengthTlv(r));
      var m := EncodeChannelDataLength(r, dst, n, was, Tiles(ts));
      n := n + m;
      ts := ts + [DataLengthTlv(r)];
    }
    assert ts == ReceiveDataResponse(r);
    assert dst[..n] == dst[..][..n];
  }

  lemma ReceiveDataSizes(r: Response)
    requires |r.data| <= CHANNEL_DATA_LEN_MAX
    ensures |Tile(DataLengthTlv(r))| == 3 && |Tile(ChannelDataTlv(r.data))| <= 3 + |r.data|
  {
  }

  // ---------------------------------------------------------------------------------------
  // The responses by their octets.
  // ---------------------------------------------------------------------------------------

  /** Command details, device identities and the tag of the result, with the comprehension bit set or not. */
  function Opening(r: Response): seq<byte> {
    var bit := if r.comprehensive then 128 else 0;
    [1 + bit, 3, r.command.number, r.command.kind, r.command.qualifier, 2 + bit, 2, r.source, r.destination, 3 + bit]
  }

  lemma StartOctets(r: Response, k: Kind)
    ensures Tiles(Start(r, k)) == Opening(r) +
      (match k
       case MeProblem => [2, r.result, r.meProblem]
       case BipProblem => [2, r.result, r.bipProblem]
       case _ => [1, r.result])
  {
    TilesOne(Head(r), ResultTlv(r, Problem(r, k)));
    TwoTiles(CommandTlv(r), DevicesTlv(r));
  }

  /** The response to get inkey, for each of its results. */
  lemma InkeyOctets(r: Response)
    ensures TextResponseOctets(r, InkeyKind(r.result)) ==
      if r.result in {0x00, 0x01, 0x02, 0x04} then Opening(r) + [1, r.result] + TextOctets(r.text, false)
      else if r.result in {0x10, 0x11, 0x13, 0x30, 0x31, 0x32, 0x33, 0x36} then Opening(r) + [1, r.result]
      else if r.result == 0x12 then Opening(r) + [1, r.result] + [4, 2, r.timeUnit, r.timeInterval]
      else if r.result in {0x20, 0x3C} then Opening(r) + [2, r.result, r.meProblem]
      else []
  {
    StartOctets(r, InkeyKind(r.result));
    hide Opening, Tiles, Start, TextOctets;
  }

  /** The response to get input: the same without a duration. */
  lemma InputOctets(r: Response)
    ensures TextResponseOctets(r, InputKind(r.result)) ==
      if r.result in {0x00, 0x01, 0x02, 0x04} then Opening(r) + [1, r.result] + TextOctets(r.text, false)
      else if r.result in {0x10, 0x11, 0x12, 0x13, 0x30, 0x31, 0x32, 0x33, 0x36} then Opening(r) + [1, r.result]
      else if r.result in {0x20, 0x3C} then Opening(r) + [2, r.result, r.meProblem]
      else []
  {
    StartOctets(r, InputKind(r.result));
    hide Opening, Tiles, Start, TextOctets;
  }

  /** The bearer description and the buffer size that end a response to open channel. */
  function Bearing(r: Response): seq<byte> {
    (match r.bearer
     case Csd(rate, service, connection) => [0x35, 4, 1, rate, service, connection]
     case Gprs(precedence, delay, reliability, peak, mean, pdp) =>
       [0x35, 7, 2, precedence, delay, reliability, peak, mean, pdp]
     case OtherBearer(kind) => [0x35, 1, kind])
    + [0x39, 2, r.bufferHigh, r.bufferLow]
  }

  lemma BearingOctets(r: Response, ts: seq<Tlv>)
    requires forall t <- ts :: |t.value| < 256
    ensures Tiles(ts + [BearerTlv(r), BufferTlv(r)]) == Tiles(ts) + Bearing(r)
  {
    TilesAppend(ts, [BearerTlv(r), BufferTlv(r)]);
    TwoTiles(BearerTlv(r), BufferTlv(r));
    BearerTiles(r);
    hide Tiles, Tile, BearerTlv, BufferTlv, Bearing;
  }

  lemma BearerTiles(r: Response)
    ensures [] + Tile(BearerTlv(r)) + Tile(BufferTlv(r)) == Bearing(r)
  {
  }

  /** The response to open channel: with the status of the channel where the terminal did as it was told. */
  lemma OpenChannelOctets(r: Response, was: byte)
    ensures Tiles(OpenChannelResponse(r, was)) ==
      if r.result in {0x00, 0x01, 0x02, 0x04, 0x07} then
        Opening(r) + [1, r.result]
        + [0x38, 2, ((was as int) + (if r.status.active then 128 else 0) + r.status.channel) % 256, r.status.info]
        + Bearing(r)
      else if r.result in {0x08, 0x10, 0x22, 0x25, 0x30, 0x31, 0x32, 0x33, 0x36} then
        Opening(r) + [1, r.result] + Bearing(r)
      else if r.result in {0x20, 0x21, 0x3C} then Opening(r) + [2, r.result, r.meProblem] + Bearing(r)
      else if r.result == 0x3A then Opening(r) + [2, r.result, r.bipProblem] + Bearing(r)
      else []
  {
    var k := OpenChannelKind(r.result);
    StartOctets(r, k);
    NoTiles();
    BearingOctets(r, Start(r, k));
    BearingOctets(r, Start(r, k) + [StatusTlv(r, was)]);
    TilesAppend(Start(r, k), [StatusTlv(r, was)]);
    StatusOctets(r, was);
    assert Start(r, k) + [] == Start(r, k);
    hide Opening, Bearing, Tiles, Start, StatusTlv, BearerTlv, BufferTlv;
  }

  lemma StatusOctets(r: Response, was: byte)
    ensures Tiles([StatusTlv(r, was)])
      == [0x38, 2, ((was as int) + (if r.status.active then 128 else 0) + r.status.channel) % 256, r.status.info]
  {
    assert [StatusTlv(r, was)][1..] == [];
  }

  /** The response to receive data: data and the length left where the terminal did as it was told. */
  lemma ReceiveDataOctets(r: Response)
    requires |r.data| <= 255
    ensures Tiles(ReceiveDataResponse(r)) ==
      if r.result in {0x00, 0x01, 0x02, 0x04, 0x10, 0x30, 0x31, 0x32, 0x33, 0x36} then
        Opening(r) + [1, r.result]
        + ((if |r.data| < 128 then [0x36, |r.data|] else [0x36, 0x81, |r.data|]) + r.data)
        + [0x37, 1, r.dataLength]
      else if r.result in {0x20, 0x3C} then Opening(r) + [2, r.result, r.meProblem]
      else if r.result == 0x3A then Opening(r) + [2, r.result, r.bipProblem]
      else []
  {
    var k := ReceiveDataKind(r.result);
    StartOctets(r, k);
    NoTiles();
    DataOctets(r, Start(r, k));
    assert Start(r, k) + [] == Start(r, k);
    hide Opening, Tiles, Start, ChannelDataTlv, DataLengthTlv;
  }

  lemma DataOctets(r: Response, ts: seq<Tlv>)
    requires |r.data| <= 255 && forall t <- ts :: |t.value| < 256
    ensures Tiles(ts + [ChannelDataTlv(r.data), DataLengthTlv(r)])
      == Tiles(ts)
         + ((if |r.data| < 128 then [0x36, |r.data|] else [0x36, 0x81, |r.data|]) + r.data)
         + [0x37, 1, r.dataLength]
  {
    TilesAppend(ts, [ChannelDataTlv(r.data), DataLengthTlv(r)]);
    TwoTiles(ChannelDataTlv(r.data), DataLengthTlv(r));
    TileLayout(ChannelDataTlv(r.data));
    DataLengthOctets(r);
    hide Tiles, Tile, DataLengthTlv;
  }

  lemma DataLengthOctets(r: Response)
    ensures Tile(DataLengthTlv(r)) == [0x37, 1, r.dataLength]
  {
  }
}
