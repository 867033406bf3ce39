/**
  The multiplexer object: the frame encoder, the processing of a received frame, and the state of
  the eight channels (3GPP TS 27.010 section 5.4.1). Calls into other components are a log.
 */
module Mux {
  import opened MuxFcs
  import opened MuxFrame

  const CLD: byte := 0xC3
  const CHANNELS: nat := 8

  // The channel states that the program assigns.
  datatype ChannelState = Closed | SabmSendWaitingForUa | Established | DiscSendWaitingForUa

  datatype Channel = Channel(state: ChannelState, frameType: byte, ext: bool, cr: bool, pf: bool)

  datatype Output =
    | ToHal(channel: nat, payload: seq<byte>)  // dispatched to the channel's logical HAL
    | ToLine(octets: seq<byte>)                // sent on the physical HAL
    | CmuxUp                                   // the modem object's "CMUX-UP" callback
    | CloseDown                                // the multiplexer is torn down

  datatype View = View(channels: seq<Channel>, count: nat, log: seq<Output>)

  predicate ValidView(v: View) {
    |v.channels| == CHANNELS
  }

  predicate Down(v: View) {
    CloseDown in v.log
  }

  function Emit(v: View, o: Output): View {
    v.(log := v.log + [o])
  }

  function SetState(v: View, c: nat, s: ChannelState): View
    requires c < |v.channels|
  {
    v.(channels := v.channels[c := v.channels[c].(state := s)])
  }

  /** An answer without information field, command bits set. */
  function Reply(c: byte, frameType: byte): Frame {
    Frame(c, true, true, frameType, true, [])
  }

  function OnInformation(v: View, f: Frame): View {
    if f.channel != 0 then Emit(v, ToHal(f.channel as nat, f.info))
    else if f.info != [] && f.info[0] == CLD then Emit(v, CloseDown)
    else v
  }

  function OnUa(v: View, c: nat, modem: bool): View
    requires c < |v.channels|
  {
    match v.channels[c].state
    case SabmSendWaitingForUa =>
      var w := SetState(v, c, Established).(count := v.count + 1);
      if w.count != CHANNELS || !modem then w else Emit(w, CmuxUp).(count := 0)
    case DiscSendWaitingForUa =>
      var w := SetState(v, c, Closed);
      if c == 0 then Emit(w, CloseDown) else w
    case _ => v
  }

  function OnDm(v: View, c: nat): View
    requires c < |v.channels|
  {
    if v.channels[c].state in {Established, SabmSendWaitingForUa} then SetState(v, c, Closed) else v
  }

  function OnDisc(v: View, f: Frame): View
    requires f.channel as nat < |v.channels|
  {
    if !f.pf then v
    else
      var answer := if v.channels[f.channel as nat].state == Closed then DM else UA;
      var w := Emit(v, ToLine(FrameOctets(Reply(f.channel, answer))));
      if f.channel == 0 then Emit(w, CloseDown) else w
  }

  function OnSabm(v: View, f: Frame): View
    requires f.channel as nat < |v.channels|
  {
    if !f.pf then v
    else SetState(Emit(v, ToLine(FrameOctets(Reply(f.channel, UA)))), f.channel as nat, Established)
  }

  function Handle(v: View, f: Frame, modem: bool): View
    requires f.channel as nat < |v.channels|
  {
    if f.frameType == UI || f.frameType == UIH then OnInformation(v, f)
    else if f.frameType == UA then OnUa(v, f.channel as nat, modem)
    else if f.frameType == DM then OnDm(v, f.channel as nat)
    else if f.frameType == DISC then OnDisc(v, f)
    else if f.frameType == SABM then OnSabm(v, f)
    else v
  }

  /** The channel remembers the last header seen for it, even when the FCS is wrong. */
  function Note(v: View, buf: seq<byte>): View
    requires ValidView(v) && Complete(buf) && FrameIn(buf).channel < MAX_CHANNELS
  {
    var f := FrameIn(buf);
    var c := f.channel as nat;
    v.(channels := v.channels[c := Channel(v.channels[c].state, buf[2], f.ea, f.cr, f.pf)])
  }

  /** One received buffer, from flag to flag. */
  function Process(v: View, buf: seq<byte>, modem: bool): (w: View)
    requires ValidView(v) && Complete(buf)
    ensures ValidView(w)
  {
    match Receive(buf)
    case BadChannel => v
    case BadFcs => Note(v, buf)
    case Accepted(f) => Handle(Note(v, buf), f, modem)
  }

  class Multiplexer {
    const infoField: array<byte>
    var infoFieldLen: nat
    const channels: array<Channel>
    var count: nat
    const modemPresent: bool
    var log: seq<Output>

    ghost predicate Valid()
      reads this, channels
    {
      && infoField.Length == MAX_BUFFER
      && channels.Length == CHANNELS
    }

    ghost function Seen(): View
      reads this, channels
    {
      View(channels[..], count, log)
    }

    /** All channels have been opened: a SABM is out on each. */
    constructor (modem: bool)
      ensures Valid() && fresh(infoField) && fresh(channels)
      ensures modemPresent == modem && Seen() == Opened()
    {
      infoField := new byte[MAX_BUFFER];
      infoFieldLen := 0;
      channels := new Channel[CHANNELS](i => Channel(SabmSendWaitingForUa, SABM, true, true, true));
      count := 0;
      modemPresent := modem;
      log := [];
    }

    method Flush()
      requires Valid()
      modifies infoField, this`infoFieldLen
      ensures infoFieldLen == 0 && forall i :: 0 <= i < MAX_BUFFER ==> infoField[i] == 0
    {
      infoFieldLen := 0;
      forall i | 0 <= i < infoField.Length {
        infoField[i] := 0;
      }
    }

    method Put(at: nat, octets: seq<byte>) returns (next: nat)
      requires Valid() && at + |octets| <= MAX_BUFFER
      modifies infoField
      ensures next == at + |octets|
      ensures infoField[..next] == old(infoField[..at]) + octets
    {
      forall i | 0 <= i < |octets| {
        infoField[at + i] := octets[i];
      }
      next := at + |octets|;
    }

    /**
      Lays a frame out in the information field buffer. The program refuses more than 4096 octets
      but writes up to seven more than it is given, so 4090 to 4096 do not fit.
     */
    method EncodeFrame(data: seq<byte>, channelId: int, frameType: byte, ea: bool, cr: bool, pf: bool)
      returns (outLen: nat)
      requires Valid()
      requires |data| + MAX_OVERHEAD <= MAX_BUFFER || |data| > MAX_BUFFER
      modifies infoField, this`infoFieldLen
      ensures outLen == 0 <==> |data| > MAX_BUFFER || !(0 <= channelId < MAX_CHANNELS as int)
      ensures outLen != 0 ==> outLen <= MAX_BUFFER
      ensures outLen != 0 ==> infoField[..outLen] == FrameOctets(Frame(channelId as byte, ea, cr, frameType, pf, data))
    {
      Flush();
      if |data| > MAX_BUFFER {
        return 0;
      }
      if !(0 <= channelId < MAX_CHANNELS as int) {
        return 0;
      }
      hide Fcs, Header;
      var f := Frame(channelId as byte, ea, cr, frameType, pf, data);
      var headerLen := PutHeader(f);
      assert infoField[1..headerLen] == infoField[..headerLen][1..];
      outLen := PutBody(data, headerLen);
    }

    method PutHeader(f: Frame) returns (n: nat)
      requires Valid() && |f.info| + MAX_OVERHEAD <= MAX_BUFFER
      modifies infoField
      ensures n == 1 + |Header(f)| && n + |f.info| + 2 <= MAX_BUFFER
      ensures infoField[..n] == [FLAG] + Header(f)
    {
      hide Address, Control, LengthOctets;
      var l := LengthOctets(|f.info|);
      LengthShape(|f.info|);
      assert infoField[..0] == [];
      n := Put(0, [FLAG]);
      n := Put(n, [Address(f.channel, f.ea, f.cr)]);
      n := Put(n, [Control(f.frameType, f.pf)]);
      n := Put(n, l);
    }

    /** The FCS covers what follows the opening flag up to here. */
    method PutBody(data: seq<byte>, headerLen: nat) returns (n: nat)
      requires Valid() && 1 <= headerLen && headerLen + |data| + 2 <= MAX_BUFFER
      modifies infoField
      ensures n == headerLen + |data| + 2
      ensures infoField[..n] == old(infoField[..headerLen]) + data + [Fcs(old(infoField[1..headerLen])), FLAG]
    {
      hide Fcs;
      var crc := CalcCrc(infoField[1..headerLen]);
      n := Put(headerLen, data);
      n := Put(n, [crc]);
      n := Put(n, [FLAG]);
      assert [crc] + [FLAG] == [crc, FLAG];
    }

    method SendReply(c: byte, frameType: byte)
      requires Valid() && c < MAX_CHANNELS
      modifies infoField, this`infoFieldLen, this`log
      ensures Seen() == Emit(old(Seen()), ToLine(FrameOctets(Reply(c, frameType))))
    {
      var len := EncodeFrame([], c as int, frameType, true, true, true);
      log := log + [ToLine(infoField[..len])];
    }

    method ProcessUa(c: nat)
      requires Valid() && c < CHANNELS
      modifies channels, this`count, this`log
      ensures Seen() == OnUa(old(Seen()), c, modemPresent)
    {
      if channels[c].state == SabmSendWaitingForUa {
        channels[c] := channels[c].(state := Established);
        count := count + 1;
        if count == CHANNELS {
          if !modemPresent {
            return;
          }
          log := log + [CmuxUp];
          count := 0;
        }
      } else if channels[c].state == DiscSendWaitingForUa {
        channels[c] := channels[c].(state := Closed);
        if c == 0 {
          log := log + [CloseDown];
        }
      }
    }

    method ProcessChannelData(f: Frame)
      requires Valid() && f.channel < MAX_CHANNELS
      requires infoFieldLen <= MAX_BUFFER && infoField[..infoFieldLen] == f.info
      modifies channels, infoField, this`infoFieldLen, this`count, this`log
      ensures Seen() == Handle(old(Seen()), f, modemPresent)
    {
      hide FrameOctets;
      var c := f.channel as nat;
      if f.frameType == UI || f.frameType == UIH {
        if c != 0 {
          log := log + [ToHal(c, infoField[..infoFieldLen])];
        } else if infoFieldLen > 0 && infoField[0] == CLD {
          log := log + [CloseDown];
        }
      } else if f.frameType == UA {
        ProcessUa(c);
      } else if f.frameType == DM {
        if channels[c].state == Established || channels[c].state == SabmSendWaitingForUa {
          channels[c] := channels[c].(state := Closed);
        }
        Flush();
      } else if f.frameType == DISC {
        if !f.pf {
          Flush();
        } else {
          SendReply(f.channel, if channels[c].state == Closed then DM else UA);
          Flush();
          if c == 0 {
            log := log + [CloseDown];
          }
        }
      } else if f.frameType == SABM {
        if !f.pf {
          Flush();
        } else {
          SendReply(f.channel, UA);
          if channels[c].state != Established {
            channels[c] := channels[c].(state := Established);
          }
        }
      }
    }

    /** Called by the decoder with a complete buffer; not after the multiplexer went down. */
    method ProcessRcvFrame(data: seq<byte>)
      requires Valid() && !Down(Seen())
      requires Complete(data) && |data| <= MAX_BUFFER
      modifies channels, infoField, this`infoFieldLen, this`count, this`log
      ensures Seen() == Process(old(Seen()), data, modemPresent)
    {
      hide Fcs, Handle, InfoLength;
      Flush();
      var channelId := (data[1] >> 2) & 0x3F;
      if channelId >= MAX_CHANNELS {
        return;
      }
      var f := FrameIn(data);
      var c := channelId as nat;
      channels[c] := Channel(channels[c].state, data[2], f.ea, f.cr, f.pf);
      var h := HeaderLength(data);
      infoFieldLen := InfoLength(data);
      assert infoField[..0] == [];
      var n := Put(0, data[1 + h..1 + h + infoFieldLen]);
      var ok := RcvCrcCheck(data[1..1 + h], data[1 + h + infoFieldLen]);
      if ok {
        ProcessChannelData(f);
      }
    }
  }

  function Opened(): View {
    View(seq(CHANNELS, i => Channel(SabmSendWaitingForUa, SABM, true, true, true)), 0, [])
  }

  // ---------------------------------------------------------------------------------------
  // The establishment of the channels, over whole runs.
  // ---------------------------------------------------------------------------------------

  function ProcessAll(v: View, bufs: seq<seq<byte>>, modem: bool): (w: View)
    requires ValidView(v) && forall b :: b in bufs ==> Complete(b)
    ensures ValidView(w)
    decreases |bufs|
  {
    if bufs == [] then v else ProcessAll(Process(v, bufs[0], modem), bufs[1..], modem)
  }

  lemma ProcessAllCons(v: View, buf: seq<byte>, bufs: seq<seq<byte>>, modem: bool)
    requires ValidView(v) && Complete(buf) && forall b :: b in bufs ==> Complete(b)
    ensures forall b :: b in [buf] + bufs ==> Complete(b)
    ensures ProcessAll(v, [buf] + bufs, modem) == ProcessAll(Process(v, buf, modem), bufs, modem)
  {
    hide Process, Complete, ValidView;
    assert ([buf] + bufs)[1..] == bufs;
  }

  /** The frame is the UA that this channel's SABM is waiting for. */
  predicate Confirms(v: View, buf: seq<byte>, c: nat)
    requires ValidView(v) && Complete(buf)
  {
    && Receive(buf).Accepted?
    && Receive(buf).frame.channel as nat == c
    && Receive(buf).frame.frameType == UA
    && v.channels[c].state == SabmSendWaitingForUa
  }

  function ConfirmedNow(v: View, buf: seq<byte>): set<nat>
    requires ValidView(v) && Complete(buf)
  {
    set c: nat | c < CHANNELS && Confirms(v, buf, c)
  }

  /** The channels whose SABM was answered by a UA during the run. */
  function Confirmed(v: View, bufs: seq<seq<byte>>, modem: bool): set<nat>
    requires ValidView(v) && forall b :: b in bufs ==> Complete(b)
    decreases |bufs|
  {
    if bufs == [] then {}
    else
      ConfirmedNow(v, bufs[0]) + Confirmed(Process(v, bufs[0], modem), bufs[1..], modem)
  }

  function Ups(log: seq<Output>): nat {
    if log == [] then 0 else (if log[|log| - 1] == CmuxUp then 1 else 0) + Ups(log[..|log| - 1])
  }

  /** So many of the channels have been confirmed, and the rest can still be only if they wait. */
  predicate Counted(v: View, confirmed: set<nat>) {
    && ValidView(v)
    && (forall c :: c in confirmed ==> c < CHANNELS && v.channels[c].state != SabmSendWaitingForUa)
    && |confirmed| <= CHANNELS
    && v.count == (if |confirmed| == CHANNELS then 0 else |confirmed|)
    && Ups(v.log) == (if |confirmed| == CHANNELS then 1 else 0)
  }

  lemma {:induction false} SubsetCardinality(a: set<nat>, b: set<nat>)
    requires a <= b
    ensures |a| <= |b|
    decreases b
  {
    if x :| x in a {
      SubsetCardinality(a - {x}, b - {x});
    }
  }

  lemma AtMostEight(s: set<nat>)
    requires forall c :: c in s ==> c < CHANNELS
    ensures |s| <= CHANNELS
  {
    SubsetCardinality(s, {0, 1, 2, 3, 4, 5, 6, 7});
  }

  lemma UpsEmit(log: seq<Output>, o: Output)
    ensures Ups(log + [o]) == Ups(log) + if o == CmuxUp then 1 else 0
  {
    assert (log + [o])[..|log|] == log;
  }

  lemma UaCounted(v: View, c: nat, confirmed: set<nat>)
    requires Counted(v, confirmed) && c < CHANNELS
    ensures v.channels[c].state == SabmSendWaitingForUa ==> Counted(OnUa(v, c, true), confirmed + {c})
    ensures v.channels[c].state != SabmSendWaitingForUa ==> Counted(OnUa(v, c, true), confirmed)
  {
    AtMostEight(confirmed + {c});
    UpsEmit(v.log, CmuxUp);
    UpsEmit(v.log, CloseDown);
  }

  lemma EmitCounted(v: View, o: Output, confirmed: set<nat>)
    requires Counted(v, confirmed) && o != CmuxUp
    ensures Counted(Emit(v, o), confirmed)
  {
    UpsEmit(v.log, o);
  }

  lemma SetStateCounted(v: View, c: nat, s: ChannelState, confirmed: set<nat>)
    requires Counted(v, confirmed) && c < CHANNELS && s != SabmSendWaitingForUa
    ensures Counted(SetState(v, c, s), confirmed)
  {
  }

  lemma OthersCounted(v: View, f: Frame, confirmed: set<nat>)
    requires ValidView(v) && Counted(v, confirmed) && f.channel < MAX_CHANNELS && f.frameType != UA
    ensures Counted(Handle(v, f, true), confirmed)
  {
    hide FrameOctets, Counted, Ups, Emit, SetState;
    var c := f.channel as nat;
    var down := v.channels[c].state == Closed;
    var answer := ToLine(FrameOctets(Reply(f.channel, if down then DM else UA)));
    var ua := ToLine(FrameOctets(Reply(f.channel, UA)));
    EmitCounted(v, ToHal(c, f.info), confirmed);
    EmitCounted(v, CloseDown, confirmed);
    EmitCounted(v, answer, confirmed);
    EmitCounted(Emit(v, answer), CloseDown, confirmed);
    EmitCounted(v, ua, confirmed);
    SetStateCounted(v, c, Closed, confirmed);
    SetStateCounted(Emit(v, ua), c, Established, confirmed);
  }

  lemma ConfirmingChannel(v: View, buf: seq<byte>)
    requires ValidView(v) && Complete(buf)
    ensures match Receive(buf)
      case Accepted(f) =>
        if f.frameType == UA && v.channels[f.channel as nat].state == SabmSendWaitingForUa
        then ConfirmedNow(v, buf) == {f.channel as nat} else ConfirmedNow(v, buf) == {}
      case _ => ConfirmedNow(v, buf) == {}
  {
    hide Fcs;
  }

  lemma NoteCounted(v: View, buf: seq<byte>, confirmed: set<nat>)
    requires Counted(v, confirmed) && Complete(buf) && FrameIn(buf).channel < MAX_CHANNELS
    ensures Counted(Note(v, buf), confirmed)
    ensures forall c :: 0 <= c < CHANNELS ==> Note(v, buf).channels[c].state == v.channels[c].state
  {
    hide FrameIn;
  }

  lemma StepCounted(v: View, buf: seq<byte>, confirmed: set<nat>)
    requires Counted(v, confirmed) && Complete(buf)
    ensures Counted(Process(v, buf, true), confirmed + ConfirmedNow(v, buf))
  {
    ConfirmingChannel(v, buf);
    assert confirmed + {} == confirmed;
    match Receive(buf)
    case BadChannel =>
    case BadFcs => NoteCounted(v, buf, confirmed);
    case Accepted(f) =>
      NoteCounted(v, buf, confirmed);
      var w := Note(v, buf);
      hide Counted, FrameIn, Note, ConfirmedNow, OnUa, Handle;
      if f.frameType == UA {
        UaCounted(w, f.channel as nat, confirmed);
        UaHandled(w, f);
      } else {
        OthersCounted(w, f, confirmed);
      }
  }

  lemma UaHandled(v: View, f: Frame)
    requires ValidView(v) && f.channel < MAX_CHANNELS && f.frameType == UA
    ensures Handle(v, f, true) == OnUa(v, f.channel as nat, true)
  {
  }

  lemma {:induction false} RunCounted(v: View, bufs: seq<seq<byte>>, before: set<nat>)
    requires Counted(v, before) && forall b :: b in bufs ==> Complete(b)
    ensures Counted(ProcessAll(v, bufs, true), before + Confirmed(v, bufs, true))
    decreases |bufs|
  {
    if bufs == [] {
      assert before + {} == before;
    } else {
      var now := ConfirmedNow(v, bufs[0]);
      StepCounted(v, bufs[0], before);
      hide Counted, Process, ConfirmedNow, Complete;
      RunCounted(Process(v, bufs[0], true), bufs[1..], before + now);
      assert before + now + Confirmed(Process(v, bufs[0], true), bufs[1..], true) == before + Confirmed(v, bufs, true);
    }
  }

  lemma CountedUp(v: View, confirmed: set<nat>)
    requires Counted(v, confirmed)
    ensures Ups(v.log) <= 1
    ensures Ups(v.log) == 1 <==> confirmed == {0, 1, 2, 3, 4, 5, 6, 7}
  {
    var all := {0, 1, 2, 3, 4, 5, 6, 7};
    assert |all| == CHANNELS;
    if |confirmed| == CHANNELS && confirmed != all {
      var c :| c in all && c !in confirmed;
      AtMostEight(confirmed + {c});
    }
  }

  /**
    Whatever arrives while the multiplexer is up, "CMUX-UP" is announced at most once, and it has been
    announced exactly when the SABM of every one of the eight channels has been answered by a UA. (The
    list of buffers may go on behind a close down; the program processes none from there on.)
   */
  lemma CmuxUpExactlyWhenAllConfirmed(bufs: seq<seq<byte>>)
    requires forall b :: b in bufs ==> Complete(b)
    ensures Ups(ProcessAll(Opened(), bufs, true).log) <= 1
    ensures Ups(ProcessAll(Opened(), bufs, true).log) == 1
      <==> Confirmed(Opened(), bufs, true) == {0, 1, 2, 3, 4, 5, 6, 7}
  {
    assert Counted(Opened(), {});
    hide Counted, ProcessAll, Confirmed, Opened, Ups;
    RunCounted(Opened(), bufs, {});
    var confirmed := Confirmed(Opened(), bufs, true);
    assert {} + confirmed == confirmed;
    CountedUp(ProcessAll(Opened(), bufs, true), confirmed);
  }
}
