/**
  What each kind of frame does to the multiplexer, octet values and all, and that a frame damaged on
  the line does nothing.
 */
module MuxEffects {
  import opened MuxFcs
  import opened MuxFrame
  import opened MuxDecoder
  import opened Mux
  import opened MuxHandshake
  import Demux

  /** Neither the channels' states, nor the counter, nor anything sent has changed. */
  predicate Untouched(v: View, w: View) {
    && ValidView(v) && ValidView(w)
    && w.log == v.log && w.count == v.count
    && forall d :: 0 <= d < CHANNELS ==> w.channels[d].state == v.channels[d].state
  }

  /** The one channel has come to a new state, and no other to any. */
  predicate OnlyState(v: View, w: View, c: nat, s: ChannelState) {
    && ValidView(v) && ValidView(w)
    && forall d :: 0 <= d < CHANNELS ==> w.channels[d].state == if d == c then s else v.channels[d].state
  }

  // ---------------------------------------------------------------------------------------
  // Frames that are dropped.
  // ---------------------------------------------------------------------------------------

  lemma NoteUntouched(v: View, buf: seq<byte>)
    requires ValidView(v) && Complete(buf) && FrameIn(buf).channel < MAX_CHANNELS
    ensures Untouched(v, Note(v, buf))
  {
    hide FrameIn;
  }

  lemma WrongChannelBits(a: byte)
    ensures (a >> 2) & 0x3F >= 8 <==> a >= 0x20
  {
  }

  /** A frame for a channel above seven, or whose FCS is not that of its header, is dropped. */
  lemma Dropped(v: View, buf: seq<byte>, modem: bool)
    requires ValidView(v) && Complete(buf)
    requires buf[1] >= 0x20 || buf[|buf| - 2] != Fcs(buf[1..|buf| - 2 - InfoLength(buf)])
    ensures Untouched(v, Process(v, buf, modem))
  {
    WrongChannelBits(buf[1]);
    hide Fcs, InfoLength, Handle, Note;
    if buf[1] < 0x20 {
      NoteUntouched(v, buf);
    }
  }

  lemma SameHeader(o: seq<byte>, i: nat, x: byte)
    requires Complete(o) && i < |o| && (i < 3 || i >= 1 + HeaderLength(o))
    ensures Complete(o[i := x]) && InfoLength(o[i := x]) == InfoLength(o) && HeaderLength(o[i := x]) == HeaderLength(o)
  {
  }

  lemma FrameLength(f: Frame)
    requires Encodable(f)
    ensures
      var o, h := FrameOctets(f), Header(f);
      && |o| == |h| + |f.info| + 3
      && InfoLength(o) == |f.info| && HeaderLength(o) == |h|
  {
    var o, l := FrameOctets(f), LengthOctets(|f.info|);
    hide Fcs, Address, Control, LengthOctets, InfoLength, HeaderLength;
    assert o[3..3 + |l|] == l;
    LengthRoundTrip(o, |f.info|);
  }

  lemma PartsAt(f: Frame)
    requires Encodable(f)
    ensures
      var o, h := FrameOctets(f), Header(f);
      && Complete(o) && 3 <= |h| <= 4 && |o| == |h| + |f.info| + 3
      && InfoLength(o) == |f.info| && HeaderLength(o) == |h|
      && o[1..1 + |h|] == h && o[|o| - 2] == Fcs(h) && o[1] < 0x20
      && o[1] != FLAG && o[0] == FLAG && o[|o| - 1] == FLAG
  {
    var o, h := FrameOctets(f), Header(f);
    FrameRoundTrip(f);
    FrameLength(f);
    FrameParts(f, o, h);
    hide Fcs, Address, Control, LengthOctets, InfoLength, HeaderLength, Receive, Header;
    AddressBits(f.channel, f.ea, f.cr);
    WrongChannelBits(o[1]);
  }

  /** The place of an octet that the FCS protects, or of the FCS itself; the length indicator aside. */
  predicate Guarded(o: seq<byte>, i: nat) {
    |o| >= 2 && (i == 1 || i == 2 || i == |o| - 2)
  }

  /**
    A frame of any type whose address, control or FCS octet was changed on the line, to whatever octet,
    is dropped: nothing is sent, no logical adapter is called, nothing is counted, and no channel changes.
   */
  lemma DamagedDropped(v: View, f: Frame, i: nat, x: byte, modem: bool)
    requires ValidView(v) && Encodable(f)
    requires Guarded(FrameOctets(f), i) && i < |FrameOctets(f)| && x != FrameOctets(f)[i]
    ensures Complete(FrameOctets(f)[i := x])
    ensures Untouched(v, Process(v, FrameOctets(f)[i := x], modem))
  {
    assert i == 1 || i == 2 || i == |FrameOctets(f)| - 2;
    hide *;
    PartsAt(f);
    var o, h := FrameOctets(f), Header(f);
    var buf := o[i := x];
    SameHeader(o, i, x);
    var got := buf[1..|buf| - 2 - InfoLength(buf)];
    if i == |o| - 2 {
      assert got == h;
    } else {
      assert got == h[i - 1 := x];
      FcsDetectsByteChange(h, i - 1, x);
    }
    Dropped(v, buf, modem);
  }

  // ---------------------------------------------------------------------------------------
  // Frames that are handled.
  // ---------------------------------------------------------------------------------------

  /** A DM refuses or closes its channel; it emits nothing. */
  lemma DmCloses(v: View, f: Frame, modem: bool)
    requires ValidView(v) && Encodable(f) && f.frameType == 0x0F
    ensures Complete(FrameOctets(f)) && f.channel as nat < CHANNELS
    ensures
      var w, c := Process(v, FrameOctets(f), modem), f.channel as nat;
      var s := v.channels[c].state;
      && w.log == v.log && w.count == v.count
      && OnlyState(v, w, c, if s == SabmSendWaitingForUa || s == Established then Closed else s)
  {
    ChannelNumber(f.channel);
    Processed(v, f, modem);
    hide FrameOctets, Complete, Receive, FrameIn, Note, Encodable, Process;
  }

  lemma UaHandles(v: View, c: nat, modem: bool)
    requires ValidView(v) && c < CHANNELS && v.channels[c].state == SabmSendWaitingForUa
    ensures
      var w := OnUa(v, c, modem);
      && OnlyState(v, w, c, Established)
      && w.log == v.log + (if v.count == 7 && modem then [CmuxUp] else [])
      && w.count == if v.count == 7 && modem then 0 else v.count + 1
  {
  }

  lemma UaIsHandled(v: View, f: Frame, modem: bool)
    requires ValidView(v) && f.channel < MAX_CHANNELS && f.frameType == 0x63
    ensures Handle(v, f, modem) == OnUa(v, f.channel as nat, modem)
  {
  }

  /** A UA confirms the SABM that its channel waits for; the eighth one is announced. */
  lemma UaEstablishes(v: View, f: Frame, modem: bool)
    requires ValidView(v) && Encodable(f) && f.frameType == 0x63
    requires v.channels[f.channel as nat].state == SabmSendWaitingForUa
    ensures Complete(FrameOctets(f)) && f.channel as nat < CHANNELS
    ensures
      var w, c := Process(v, FrameOctets(f), modem), f.channel as nat;
      && OnlyState(v, w, c, Established)
      && w.log == v.log + (if v.count == 7 && modem then [CmuxUp] else [])
      && w.count == if v.count == 7 && modem then 0 else v.count + 1
  {
    ChannelNumber(f.channel);
    Processed(v, f, modem);
    hide FrameOctets, Complete, Receive, FrameIn, Note, Encodable, Process, Handle, OnUa;
    UaIsHandled(Note(v, FrameOctets(f)), f, modem);
    UaHandles(Note(v, FrameOctets(f)), f.channel as nat, modem);
  }

  /** A UA that answers a DISC closes its channel, and on channel 0 the multiplexer goes down. */
  lemma UaCloses(v: View, f: Frame, modem: bool)
    requires ValidView(v) && Encodable(f) && f.frameType == 0x63
    requires v.channels[f.channel as nat].state == DiscSendWaitingForUa
    ensures Complete(FrameOctets(f)) && f.channel as nat < CHANNELS
    ensures
      var w, c := Process(v, FrameOctets(f), modem), f.channel as nat;
      && OnlyState(v, w, c, Closed) && w.count == v.count
      && w.log == v.log + if f.channel == 0 then [CloseDown] else []
  {
    ChannelNumber(f.channel);
    Processed(v, f, modem);
    hide FrameOctets, Complete, Receive, FrameIn, Note, Encodable, Process;
  }

  /** A UA that nobody waits for does nothing. */
  lemma UaIgnored(v: View, f: Frame, modem: bool)
    requires ValidView(v) && Encodable(f) && f.frameType == 0x63
    requires v.channels[f.channel as nat].state in {Closed, Established}
    ensures Complete(FrameOctets(f)) && Untouched(v, Process(v, FrameOctets(f), modem))
  {
    ChannelNumber(f.channel);
    Processed(v, f, modem);
    hide FrameOctets, Complete, Receive, FrameIn, Note, Encodable, Process;
  }

  /**
    An information frame goes to the logical adapter of its channel; on channel 0 it takes the
    multiplexer down exactly when it starts with the command to close down.
   */
  lemma InformationDelivered(v: View, f: Frame, modem: bool)
    requires ValidView(v) && Encodable(f) && f.frameType in {0xEF, 0x03}
    ensures Complete(FrameOctets(f))
    ensures
      var w := Process(v, FrameOctets(f), modem);
      && w.log == v.log
           + (if f.channel != 0 then [ToHal(f.channel as nat, f.info)]
              else if f.info != [] && f.info[0] == 0xC3 then [CloseDown]
              else [])
      && Untouched(v, w.(log := v.log))
  {
    ChannelNumber(f.channel);
    Processed(v, f, modem);
    hide FrameOctets, Complete, Receive, FrameIn, Note, Encodable, Process;
  }

  /** The octets of an answer: its channel, both bits of the address set, and no information. */
  function AnswerOctets(c: byte, control: byte): seq<byte> {
    [0xF9, 4 * c + 3, control, 1, Fcs([4 * c + 3, control, 1]), 0xF9]
  }

  lemma ReplyFields(c: byte, frameType: byte)
    ensures Reply(c, frameType) == Frame(c, true, true, frameType, true, [])
    ensures 4 * c + 2 + 1 == 4 * c + 3
    ensures LengthValues(0) == [1]
  {
  }

  lemma Assembled(address: byte, control: byte, fcs: byte)
    ensures [address, control] + [1] == [address, control, 1]
    ensures [0xF9] + [address, control, 1] + [] + [fcs, 0xF9] == [0xF9, address, control, 1, fcs, 0xF9]
  {
  }

  lemma ReplyOctets(c: byte, frameType: byte)
    requires c < MAX_CHANNELS && frameType in {0x63, 0x0F}
    ensures Encodable(Reply(c, frameType))
    ensures FrameOctets(Reply(c, frameType)) == AnswerOctets(c, frameType + 0x10)
  {
    hide Fcs, FrameOctets, Encodable, LengthValues, Reply;
    ReplyFields(c, frameType);
    ReplyEncodable(c, frameType);
    Layout(Reply(c, frameType));
    var address, control := 4 * c + 3, frameType + 0x10;
    Assembled(address, control, Fcs([address, control, 1]));
  }

  lemma CommandsCountNothing(v: View, f: Frame, modem: bool)
    requires ValidView(v) && Encodable(f) && f.frameType in {0x2F, 0x43}
    ensures Complete(FrameOctets(f)) && Process(v, FrameOctets(f), modem).count == v.count
  {
    ChannelNumber(f.channel);
    Processed(v, f, modem);
    hide FrameOctets, Complete, Receive, FrameIn, Note, Encodable, Process;
  }

  lemma EncodableChannel(f: Frame)
    requires Encodable(f)
    ensures f.channel < MAX_CHANNELS
  {
  }

  /** The answer to a polled SABM by its octets: a UA with the final bit. */
  lemma SabmOctets(v: View, f: Frame, modem: bool)
    requires ValidView(v) && Encodable(f) && f.frameType == 0x2F && f.pf
    ensures Complete(FrameOctets(f)) && f.channel as nat < CHANNELS
    ensures
      var w := Process(v, FrameOctets(f), modem);
      && w.log == v.log + [ToLine(AnswerOctets(f.channel, 0x73))] && w.count == v.count
      && OnlyState(v, w, f.channel as nat, Established)
  {
    assert SABM == 0x2F && UA == 0x63;
    CommandsCountNothing(v, f, modem);
    SabmAnswered(v, f, modem);
    hide FrameOctets, Complete, Receive, Encodable, Process, Reply, AnswerOctets;
    ReplyOctets(f.channel, 0x63);
  }

  lemma LineAnswer(c: byte, closed: bool)
    requires c < MAX_CHANNELS
    ensures FrameOctets(Reply(c, if closed then DM else UA)) == AnswerOctets(c, if closed then 0x1F else 0x73)
  {
    ReplyOctets(c, if closed then 0x0F else 0x63);
    hide FrameOctets, Reply, AnswerOctets;
  }

  /**
    The answer to a polled DISC by its octets: a UA, or a DM if the channel was closed, with the final
    bit; behind it the multiplexer goes down if the channel was 0.
   */
  lemma DiscOctets(v: View, f: Frame, modem: bool)
    requires ValidView(v) && Encodable(f) && f.frameType == 0x43 && f.pf
    ensures Complete(FrameOctets(f)) && f.channel as nat < CHANNELS
    ensures
      var w, closed := Process(v, FrameOctets(f), modem), v.channels[f.channel as nat].state == Closed;
      && w.log == v.log + [ToLine(AnswerOctets(f.channel, if closed then 0x1F else 0x73))]
           + (if f.channel == 0 then [CloseDown] else [])
      && Untouched(v, w.(log := v.log))
  {
    assert f.frameType == DISC;
    hide *;
    EncodableChannel(f);
    ChannelNumber(f.channel);
    CommandsCountNothing(v, f, modem);
    DiscAnswered(v, f, modem);
    ValidHas(v, f.channel as nat);
    LineAnswer(f.channel, v.channels[f.channel as nat].state == Closed);
    UntouchedBut(v, Process(v, FrameOctets(f), modem));
  }

  lemma ValidHas(v: View, c: nat)
    requires ValidView(v) && c < CHANNELS
    ensures c < |v.channels|
  {
  }

  lemma UntouchedBut(v: View, w: View)
    requires ValidView(v) && ValidView(w) && w.count == v.count
    requires forall d :: 0 <= d < CHANNELS ==> w.channels[d].state == v.channels[d].state
    ensures Untouched(v, w.(log := v.log))
  {
  }

  /** A frame of any other type does nothing. */
  lemma OthersIgnored(v: View, f: Frame, modem: bool)
    requires ValidView(v) && Encodable(f) && f.frameType !in {0x03, 0x0F, 0x2F, 0x43, 0x63, 0xEF}
    ensures Complete(FrameOctets(f)) && Untouched(v, Process(v, FrameOctets(f), modem))
  {
    ChannelNumber(f.channel);
    Processed(v, f, modem);
    hide FrameOctets, Complete, Receive, FrameIn, Note, Encodable, Process;
  }

  lemma TopFields(f: Frame, o: seq<byte>)
    requires Encodable(f) && o == FrameOctets(f)
    ensures Complete(o) && o[1] < 0x20 && o[2] == f.frameType + if f.pf then 0x10 else 0
    ensures f.channel as nat < CHANNELS && (o[1] >> 2) & 0x3F == f.channel
    ensures (o[1] & 1 == 1 <==> f.ea) && ((o[1] >> 1) & 1 == 1 <==> f.cr) && (o[2] & POLL_FINAL != 0 <==> f.pf)
  {
    ChannelNumber(f.channel);
    ControlSum(f.frameType, f.pf);
    AddressBits(f.channel, f.ea, f.cr);
    ControlBits(f.frameType, f.pf);
    hide FrameOctets, Complete, Control, Address, Fcs, Header;
    PartsAt(f);
    FrameParts(f, o, Header(f));
  }

  lemma NotedAs(v: View, buf: seq<byte>, f: Frame)
    requires ValidView(v) && Complete(buf) && f.channel < MAX_CHANNELS && f.channel as nat < CHANNELS
    requires (buf[1] >> 2) & 0x3F == f.channel
    requires (buf[1] & 1 == 1 <==> f.ea) && ((buf[1] >> 1) & 1 == 1 <==> f.cr) && (buf[2] & POLL_FINAL != 0 <==> f.pf)
    ensures FrameIn(buf).channel < MAX_CHANNELS
    ensures
      var c := f.channel as nat;
      Note(v, buf).channels == v.channels[c := Channel(v.channels[c].state, buf[2], f.ea, f.cr, f.pf)]
  {
    hide InfoLength, HeaderLength;
  }

  lemma WrongFcs(f: Frame, o: seq<byte>, x: byte, buf: seq<byte>)
    requires Encodable(f) && o == FrameOctets(f) && x != Fcs(Header(f)) && |o| >= 2 && buf == o[|o| - 2 := x]
    ensures Complete(buf) && buf[1] == o[1] && buf[2] == o[2]
    ensures buf[|buf| - 2] != Fcs(buf[1..|buf| - 2 - InfoLength(buf)])
  {
    hide *;
    PartsAt(f);
    SameHeader(o, |o| - 2, x);
    assert buf[1..|buf| - 2 - InfoLength(buf)] == Header(f);
  }

  lemma DroppedIsNoted(v: View, buf: seq<byte>, modem: bool)
    requires ValidView(v) && Complete(buf) && buf[1] < 0x20
    requires buf[|buf| - 2] != Fcs(buf[1..|buf| - 2 - InfoLength(buf)])
    ensures FrameIn(buf).channel < MAX_CHANNELS && Process(v, buf, modem) == Note(v, buf)
  {
    WrongChannelBits(buf[1]);
    hide Fcs, InfoLength, Handle, Note;
  }

  /** The header of a frame whose FCS is wrong is noted all the same. */
  lemma HeaderNoted(v: View, f: Frame, x: byte, modem: bool)
    requires ValidView(v) && Encodable(f) && x != Fcs(Header(f))
    ensures
      var o, c := FrameOctets(f), f.channel as nat;
      && Complete(o[|o| - 2 := x]) && c < CHANNELS
      && Process(v, o[|o| - 2 := x], modem).channels
         == v.channels[c := Channel(v.channels[c].state, f.frameType + if f.pf then 0x10 else 0, f.ea, f.cr, f.pf)]
  {
    ChannelNumber(f.channel);
    hide *;
    var o := FrameOctets(f);
    TopFields(f, o);
    WrongFcs(f, o, x, o[|o| - 2 := x]);
    DroppedIsNoted(v, o[|o| - 2 := x], modem);
    NotedAs(v, o[|o| - 2 := x], f);
  }

  // ---------------------------------------------------------------------------------------
  // A channel that was refused.
  // ---------------------------------------------------------------------------------------

  /** No UA is awaited on the channel. */
  predicate NotWaiting(v: View, c: nat) {
    ValidView(v) && c < CHANNELS && v.channels[c].state in {Closed, Established}
  }

  lemma HandleNotWaiting(v: View, f: Frame, modem: bool, c: nat)
    requires NotWaiting(v, c) && f.channel as nat < CHANNELS
    ensures NotWaiting(Handle(v, f, modem), c)
  {
    hide FrameOctets;
  }

  lemma StepNotWaiting(v: View, buf: seq<byte>, modem: bool, c: nat)
    requires NotWaiting(v, c) && Complete(buf)
    ensures NotWaiting(Process(v, buf, modem), c) && c !in ConfirmedNow(v, buf)
  {
    hide Fcs, Handle, InfoLength;
    match Receive(buf)
    case BadChannel =>
    case BadFcs =>
    case Accepted(f) => HandleNotWaiting(Note(v, buf), f, modem, c);
  }

  lemma {:induction false} RunNotWaiting(v: View, bufs: seq<seq<byte>>, c: nat)
    requires NotWaiting(v, c) && forall b :: b in bufs ==> Complete(b)
    ensures NotWaiting(ProcessAll(v, bufs, true), c) && c !in Confirmed(v, bufs, true)
    decreases |bufs|
  {
    if bufs == [] {
    } else {
      StepNotWaiting(v, bufs[0], true, c);
      hide NotWaiting, Process, ConfirmedNow;
      RunNotWaiting(Process(v, bufs[0], true), bufs[1..], c);
    }
  }

  lemma {:induction false} RunSplits(v: View, a: seq<seq<byte>>, b: seq<seq<byte>>)
    requires ValidView(v) && (forall x :: x in a ==> Complete(x)) && forall x :: x in b ==> Complete(x)
    ensures forall x :: x in a + b ==> Complete(x)
    ensures ProcessAll(v, a + b, true) == ProcessAll(ProcessAll(v, a, true), b, true)
    ensures Confirmed(v, a + b, true) == Confirmed(v, a, true) + Confirmed(ProcessAll(v, a, true), b, true)
    decreases |a|
  {
    hide Process, Complete, ConfirmedNow, ValidView;
    if a == [] {
      assert a + b == b;
    } else {
      assert (a + b)[0] == a[0] && (a + b)[1..] == a[1..] + b;
      RunSplits(Process(v, a[0], true), a[1..], b);
    }
  }

  lemma OpenedCounted()
    ensures Counted(Opened(), {})
  {
  }

  lemma WaitingIsUnconfirmed(v: View, confirmed: set<nat>, c: nat)
    requires Counted(v, confirmed) && c < CHANNELS && v.channels[c].state == SabmSendWaitingForUa
    ensures c !in confirmed
  {
  }

  lemma RefusedNow(v: View, f: Frame)
    requires ValidView(v) && Encodable(f) && f.frameType == 0x0F
    requires v.channels[f.channel as nat].state == SabmSendWaitingForUa
    ensures Complete(FrameOctets(f)) && ConfirmedNow(v, FrameOctets(f)) == {}
    ensures NotWaiting(Process(v, FrameOctets(f), true), f.channel as nat)
  {
    DmCloses(v, f, true);
    Processed(v, f, true);
    ConfirmingChannel(v, FrameOctets(f));
    hide FrameOctets, Complete, Receive, FrameIn, Note, Encodable, Process, ConfirmedNow;
  }

  /**
    From the opening of all channels on: once a DM has refused a channel that waits for its UA, that
    channel is never confirmed, whatever arrives, no UA changes its state, and "CMUX-UP" is not announced.
   */
  lemma RefusedForGood(first: seq<seq<byte>>, f: Frame, rest: seq<seq<byte>>, ua: Frame)
    requires (forall b :: b in first ==> Complete(b)) && forall b :: b in rest ==> Complete(b)
    requires Encodable(f) && f.frameType == 0x0F
    requires ProcessAll(Opened(), first, true).channels[f.channel as nat].state == SabmSendWaitingForUa
    requires Encodable(ua) && ua.frameType == 0x63 && ua.channel == f.channel
    ensures Complete(FrameOctets(f)) && Complete(FrameOctets(ua))
    ensures
      var all, c := first + ([FrameOctets(f)] + rest), f.channel as nat;
      && (forall b :: b in all ==> Complete(b))
      && c < CHANNELS && c !in Confirmed(Opened(), all, true)
      && Ups(ProcessAll(Opened(), all, true).log) == 0
      && var w := ProcessAll(Opened(), all, true);
         Untouched(w, Process(w, FrameOctets(ua), true))
  {
    var v, c, o := ProcessAll(Opened(), first, true), f.channel as nat, FrameOctets(f);
    ChannelNumber(f.channel);
    RefusedNow(v, f);
    hide *;
    OpenedCounted();
    RunCounted(Opened(), first, {});
    WaitingIsUnconfirmed(v, {} + Confirmed(Opened(), first, true), c);
    RunNotWaiting(Process(v, o, true), rest, c);
    ProcessAllCons(v, o, rest, true);
    ConfirmedCons(v, o, rest);
    var all := first + ([o] + rest);
    RunSplits(Opened(), first, [o] + rest);
    CmuxUpExactlyWhenAllConfirmed(all);
    NotAll(Confirmed(Opened(), all, true), c);
    NotWaitingIs(ProcessAll(Opened(), all, true), c);
    UaIgnored(ProcessAll(Opened(), all, true), ua, true);
  }

  lemma NotAll(confirmed: set<nat>, c: nat)
    requires c < CHANNELS && c !in confirmed
    ensures confirmed != {0, 1, 2, 3, 4, 5, 6, 7}
  {
    assert c in {0, 1, 2, 3, 4, 5, 6, 7};
  }

  lemma NotWaitingIs(v: View, c: nat)
    requires NotWaiting(v, c)
    ensures c < |v.channels| && v.channels[c].state in {Closed, Established}
  {
  }

  // ---------------------------------------------------------------------------------------
  // Damage on the line.
  // ---------------------------------------------------------------------------------------

  lemma RunLengths(o: seq<byte>)
    requires Complete(o)
    ensures
      var front := o[..1 + HeaderLength(o)];
      && |front| >= 4
      && Run(Length1Hunt(o[..3]), front[3..]) == Progress(AwaitInfo(front, InfoLength(o)), [])
  {
    hide Run, AwaitInfo, InfoLength, Fits;
    var top := o[..3];
    LengthBit(o[3]);
    if o[3] & 1 == 1 {
      assert o[..4][3..] == [o[3]] && top + [o[3]] == o[..4];
      RunOneLength(top, o[3]);
      SameLength(o, o[..4]);
    } else {
      assert o[..5][3..] == [o[3], o[4]] && top + [o[3], o[4]] == o[..5];
      RunTwoLengths(top, o[3], o[4]);
      SameLength(o, o[..5]);
    }
  }

  lemma LengthBit(b: byte)
    ensures b & 1 == 1 || b & 1 == 0
  {
  }

  lemma SameLength(o: seq<byte>, front: seq<byte>)
    requires Complete(o) && |front| == 1 + HeaderLength(o) && front == o[..|front|]
    ensures InfoLength(front) == InfoLength(o)
  {
  }

  /** Whole buffers between flags, as the line may deliver them: right or damaged, but not at their flags. */
  predicate Flagged(o: seq<byte>) {
    Complete(o) && o[0] == 0xF9 && o[1] != 0xF9 && o[|o| - 1] == 0xF9
  }

  lemma RunBody(front: seq<byte>, info: seq<byte>, x: byte)
    ensures Run(AwaitInfo(front, |info|), info + [x, FLAG]) == Progress(AddrHunt, [front + info + [x, FLAG]])
  {
    hide Run, AwaitInfo;
    RunInfo(front, |info|, info);
    RunSplit(AwaitInfo(front, |info|), info, [x, FLAG]);
    NothingLeft(front + info, x);
    RunTwo(FcsHunt(front + info), x, FLAG);
  }

  lemma RunFront(s: State, o: seq<byte>, front: seq<byte>)
    requires (s == FlagHunt || s == AddrHunt) && Flagged(o) && front == o[..1 + HeaderLength(o)]
    ensures Run(s, front) == Progress(AwaitInfo(front, InfoLength(o)), [])
  {
    hide Run, AwaitInfo, InfoLength, Fits;
    assert o[..3] == [FLAG, o[1], o[2]];
    RunThree(s, FLAG, o[1], o[2]);
    RunLengths(o);
    RunSplit(s, o[..3], front[3..]);
    assert o[..3] + front[3..] == front;
  }

  lemma BufferParts(o: seq<byte>)
    requires Flagged(o)
    ensures
      var h, n := 1 + HeaderLength(o), InfoLength(o);
      h + n + 2 == |o| && o == o[..h] + (o[h..h + n] + [o[|o| - 2], FLAG])
  {
    hide InfoLength, HeaderLength;
  }

  lemma RunParts(s: State, o: seq<byte>, front: seq<byte>, info: seq<byte>, x: byte)
    requires Run(s, front) == Progress(AwaitInfo(front, |info|), [])
    requires o == front + (info + [x, FLAG])
    ensures Run(s, o) == Progress(AddrHunt, [o])
  {
    hide *;
    RunBody(front, info, x);
    RunSplit(s, front, info + [x, FLAG]);
    assert front + info + [x, FLAG] == o;
  }

  /** The decoder hands such a buffer over, right or damaged. */
  lemma RunBuffer(s: State, o: seq<byte>)
    requires (s == FlagHunt || s == AddrHunt) && Flagged(o)
    ensures Run(s, o) == Progress(AddrHunt, [o])
  {
    FlaggedIsComplete(o);
    hide *;
    BufferParts(o);
    var h, n := 1 + HeaderLength(o), InfoLength(o);
    RunFront(s, o, o[..h]);
    RunParts(s, o, o[..h], o[h..h + n], o[|o| - 2]);
  }

  lemma NothingLeft(buf: seq<byte>, x: byte)
    ensures AwaitInfo(buf, 0) == FcsHunt(buf)
    ensures Step(FcsHunt(buf), x) == Progress(FlagHunt, [buf + [x, FLAG]])
    ensures Step(FlagHunt, FLAG) == Progress(AddrHunt, [])
  {
  }

  lemma DamagedFlagged(f: Frame, i: nat, x: byte)
    requires Encodable(f) && Guarded(FrameOctets(f), i) && i < |FrameOctets(f)| && (i == 1 ==> x != 0xF9)
    ensures Flagged(FrameOctets(f)[i := x])
  {
    hide FrameOctets, Header, Fcs, Complete, InfoLength, HeaderLength, Encodable;
    PartsAt(f);
    SameHeader(FrameOctets(f), i, x);
  }

  lemma DispatchedSame(v: View, w: View, c: nat)
    requires Untouched(v, w)
    ensures Demux.Dispatched(w.log, c) == Demux.Dispatched(v.log, c) && ValidView(w)
  {
  }

  /** What the decoder hands over around a damaged frame. */
  lemma RunAround(noise: seq<byte>, before: seq<Frame>, o: seq<byte>, after: seq<Frame>)
    requires FLAG !in noise && Flagged(o)
    requires (forall f <- before :: Encodable(f)) && forall f <- after :: Encodable(f)
    ensures Run(FlagHunt, noise + Wire(before) + o + Wire(after)).frames == Octets(before) + ([o] + Octets(after))
  {
    hide *;
    RunNoise(noise);
    RunSplit(FlagHunt, noise, Wire(before));
    RunWire(FlagHunt, before);
    var s := Run(FlagHunt, noise + Wire(before)).state;
    RunSplit(FlagHunt, noise + Wire(before), o);
    RunBuffer(s, o);
    RunSplit(FlagHunt, noise + Wire(before) + o, Wire(after));
    RunWire(AddrHunt, after);
    assert [] + Octets(before) + [o] + Octets(after) == Octets(before) + ([o] + Octets(after));
  }

  /**
    Data frames of any channels, interleaved in any way, and among them a frame of any type that was
    damaged on the line in its address, control or FCS octet (though not so that its address looks like a
    flag): behind any noise and under any cutting into chunks, every logical adapter is called with
    exactly its own payloads from the other frames, in order.
   */
  lemma DamagedFrameIsLostAlone(noise: seq<byte>, before: seq<Frame>, f: Frame, i: nat, x: byte, after: seq<Frame>,
                                chunks: seq<seq<byte>>, modem: bool, c: nat)
    requires FLAG !in noise
    requires forall g <- before :: Encodable(g) && Demux.CarriesData(g)
    requires forall g <- after :: Encodable(g) && Demux.CarriesData(g)
    requires Encodable(f) && Guarded(FrameOctets(f), i) && i < |FrameOctets(f)|
    requires x != FrameOctets(f)[i] && (i == 1 ==> x != 0xF9)
    requires Flatten(chunks) == noise + Wire(before) + FrameOctets(f)[i := x] + Wire(after)
    ensures
      var got := RunChunks(FlagHunt, chunks).frames;
      && (forall b :: b in got ==> Complete(b))
      && Demux.Dispatched(ProcessAll(Opened(), got, modem).log, c) == Demux.SentOn(before, c) + Demux.SentOn(after, c)
  {
    assert |f.info| < 0x8000;
    hide *;
    var o := FrameOctets(f)[i := x];
    DamagedFlagged(f, i, x);
    FlaggedIsComplete(o);
    ChunkIndependence(FlagHunt, chunks);
    RunAround(noise, before, o, after);
    FramesComplete(FlagHunt, Flatten(chunks));
    StartsWell();
    var a, b := Octets(before), Octets(after);
    assert forall y :: y in a || y in b || y == o ==> y in a + ([o] + b);
    Demux.NothingDispatched(c);
    Demux.DataFramesProcessed(Opened(), before, modem, c);
    var v := ProcessAll(Opened(), a, modem);
    DamagedDropped(v, f, i, x, modem);
    DispatchedSame(v, Process(v, o, modem), c);
    Demux.DataFramesProcessed(Process(v, o, modem), after, modem, c);
    ProcessAllCons(v, o, b, modem);
    ProcessAllSplits(Opened(), a, [o] + b, modem);
    assert [] + Demux.SentOn(before, c) == Demux.SentOn(before, c);
  }

  lemma StartsWell()
    ensures WellFormed(FlagHunt)
  {
  }

  lemma FlaggedIsComplete(o: seq<byte>)
    requires Flagged(o)
    ensures Complete(o) && |o| >= 4 && (o[3] & 1 == 1 || |o| >= 5)
  {
  }

  lemma {:induction false} ProcessAllSplits(v: View, a: seq<seq<byte>>, b: seq<seq<byte>>, modem: bool)
    requires ValidView(v) && (forall x :: x in a ==> Complete(x)) && forall x :: x in b ==> Complete(x)
    ensures forall x :: x in a + b ==> Complete(x)
    ensures ProcessAll(v, a + b, modem) == ProcessAll(ProcessAll(v, a, modem), b, modem)
    decreases |a|
  {
    hide Process, Complete, ValidView;
    if a == [] {
      assert a + b == b;
    } else {
      assert (a + b)[0] == a[0] && (a + b)[1..] == a[1..] + b;
      ProcessAllSplits(Process(v, a[0], modem), a[1..], b, modem);
    }
  }
}
