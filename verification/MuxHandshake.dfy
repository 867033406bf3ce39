/**
  The establishment of channels between two multiplexers (3GPP TS 27.010 section 5.4.1): the
  commands of one, the answers of the other, and the announcement they lead to.
 */
module MuxHandshake {
  import opened MuxFcs
  import opened MuxFrame
  import opened MuxDecoder
  import opened Mux

  type Chan = c: byte | c < MAX_CHANNELS

  lemma ReplyEncodable(c: byte, frameType: byte)
    requires c < MAX_CHANNELS && frameType in {SABM, UA, DM, DISC}
    ensures Encodable(Reply(c, frameType))
  {
  }

  /** Process on an encoded frame is Handle on the frame. */
  lemma Processed(v: View, f: Frame, modem: bool)
    requires ValidView(v) && Encodable(f)
    ensures Complete(FrameOctets(f)) && Receive(FrameOctets(f)) == Accepted(f)
    ensures FrameIn(FrameOctets(f)) == f
    ensures Process(v, FrameOctets(f), modem) == Handle(Note(v, FrameOctets(f)), f, modem)
    ensures Note(v, FrameOctets(f)).log == v.log && Note(v, FrameOctets(f)).count == v.count
    ensures forall d :: 0 <= d < CHANNELS ==> Note(v, FrameOctets(f)).channels[d].state == v.channels[d].state
  {
    FrameRoundTrip(f);
    hide FrameOctets, Complete, Handle, Fcs, Encodable, FrameIn;
  }

  /** What a SABM or DISC does, channel by number. */
  lemma SabmHandled(v: View, f: Frame, modem: bool)
    requires ValidView(v) && f.channel as nat < CHANNELS && f.frameType == SABM && f.pf
    ensures Handle(v, f, modem) ==
      SetState(v, f.channel as nat, Established).(log := v.log + [ToLine(FrameOctets(Reply(f.channel, UA)))])
  {
    hide FrameOctets, Reply;
  }

  lemma DiscHandled(v: View, f: Frame, modem: bool)
    requires ValidView(v) && f.channel as nat < CHANNELS && f.frameType == DISC && f.pf
    ensures
      var answer := if v.channels[f.channel as nat].state == Closed then DM else UA;
      Handle(v, f, modem) == v.(log := v.log + [ToLine(FrameOctets(Reply(f.channel, answer)))]
        + if f.channel == 0 then [CloseDown] else [])
  {
    hide FrameOctets, Reply;
    assert forall o: seq<Output> :: o + [] == o;
  }

  lemma UnpolledHandled(v: View, f: Frame, modem: bool)
    requires ValidView(v) && f.channel as nat < CHANNELS && f.frameType in {SABM, DISC} && !f.pf
    ensures Handle(v, f, modem) == v
  {
    hide FrameOctets, Reply;
  }

  lemma ChannelNumber(c: byte)
    requires c < MAX_CHANNELS
    ensures c as nat < CHANNELS
  {
  }

  lemma AnswerReads(v: View, c: byte, frameType: byte)
    requires ValidView(v) && c < MAX_CHANNELS && frameType in {UA, DM}
    ensures
      var o := FrameOctets(Reply(c, frameType));
      Complete(o) && Receive(o) == Accepted(FrameIn(o)) && FrameIn(o) == Reply(c, frameType)
  {
    ReplyEncodable(c, frameType);
    hide FrameOctets;
    Processed(v, Reply(c, frameType), true);
  }

  /** A SABM or DISC without the poll bit is discarded. */
  lemma UnpolledDiscarded(v: View, f: Frame, modem: bool)
    requires ValidView(v) && Encodable(f) && f.frameType in {SABM, DISC} && !f.pf
    ensures Complete(FrameOctets(f))
    ensures Process(v, FrameOctets(f), modem).log == v.log
    ensures forall d :: 0 <= d < CHANNELS ==>
      Process(v, FrameOctets(f), modem).channels[d].state == v.channels[d].state
  {
    ChannelNumber(f.channel);
    Processed(v, f, modem);
    hide *;
    UnpolledHandled(Note(v, FrameOctets(f)), f, modem);
  }

  /**
    A polled SABM gets one answer, which the other side reads as a UA with the final bit on the same
    channel; that channel is established, and no other changes.
   */
  lemma SabmAnswered(v: View, f: Frame, modem: bool)
    requires ValidView(v) && Encodable(f) && f.frameType == SABM && f.pf
    ensures Complete(FrameOctets(f)) && f.channel as nat < CHANNELS
    ensures
      var w, c, o := Process(v, FrameOctets(f), modem), f.channel as nat, FrameOctets(Reply(f.channel, UA));
      && w.log == v.log + [ToLine(o)]
      && Complete(o) && Receive(o) == Accepted(Reply(f.channel, UA))
      && w.channels[c].state == Established
      && (forall d :: 0 <= d < CHANNELS && d != c ==> w.channels[d].state == v.channels[d].state)
  {
    ChannelNumber(f.channel);
    AnswerReads(v, f.channel, UA);
    Processed(v, f, modem);
    hide FrameOctets, Complete, Receive, FrameIn, Note, Encodable, Handle, Process, Reply;
    SabmHandled(Note(v, FrameOctets(f)), f, modem);
  }

  /**
    A polled DISC gets one answer, which the other side reads as a DM if the channel was closed and
    as a UA if not; the channel stays as it is, and on channel 0 the multiplexer goes down.
   */
  lemma DiscAnswered(v: View, f: Frame, modem: bool)
    requires ValidView(v) && Encodable(f) && f.frameType == DISC && f.pf
    ensures Complete(FrameOctets(f)) && f.channel as nat < CHANNELS
    ensures
      var w, c := Process(v, FrameOctets(f), modem), f.channel as nat;
      var answer := if v.channels[c].state == Closed then DM else UA;
      var o := FrameOctets(Reply(f.channel, answer));
      && w.log == v.log + [ToLine(o)] + (if f.channel == 0 then [CloseDown] else [])
      && Complete(o) && Receive(o) == Accepted(Reply(f.channel, answer))
      && (forall d :: 0 <= d < CHANNELS ==> w.channels[d].state == v.channels[d].state)
  {
    ChannelNumber(f.channel);
    AnswerReads(v, f.channel, UA);
    AnswerReads(v, f.channel, DM);
    Processed(v, f, modem);
    hide FrameOctets, Complete, Receive, FrameIn, Note, Encodable, Handle, Process, Reply;
    DiscHandled(Note(v, FrameOctets(f)), f, modem);
  }

  // ---------------------------------------------------------------------------------------
  // All channels.
  // ---------------------------------------------------------------------------------------

  function Commands(order: seq<Chan>, frameType: byte): (fs: seq<Frame>)
    requires frameType in {SABM, UA}
    ensures |fs| == |order| && forall f <- fs :: Encodable(f)
  {
    seq(|order|, i requires 0 <= i < |order| => ReplyEncodable(order[i], frameType); Reply(order[i], frameType))
  }

  function OnLine(bufs: seq<seq<byte>>): seq<Output> {
    seq(|bufs|, i requires 0 <= i < |bufs| => ToLine(bufs[i]))
  }

  lemma CommandsStep(order: seq<Chan>, frameType: byte)
    requires order != [] && frameType in {SABM, UA}
    ensures Encodable(Reply(order[0], frameType)) && |Reply(order[0], frameType).info| < 0x8000
    ensures Octets(Commands(order, frameType)) ==
      [FrameOctets(Reply(order[0], frameType))] + Octets(Commands(order[1..], frameType))
    ensures forall b <- Octets(Commands(order, frameType)) :: Complete(b)
  {
    assert Commands(order, frameType) == [Reply(order[0], frameType)] + Commands(order[1..], frameType);
    OctetsStep(Commands(order, frameType));
    CommandsComplete(order, frameType);
  }

  lemma CommandsComplete(order: seq<Chan>, frameType: byte)
    requires frameType in {SABM, UA}
    ensures forall b <- Octets(Commands(order, frameType)) :: Complete(b)
  {
    hide Complete, FrameOctets, Encodable;
    forall b | b in Octets(Commands(order, frameType))
      ensures Complete(b)
    {
      var i :| 0 <= i < |order| && Octets(Commands(order, frameType))[i] == b;
      ReplyEncodable(order[i], frameType);
      FrameRoundTrip(Reply(order[i], frameType));
    }
  }

  function Channels(order: seq<Chan>): set<nat> {
    set c <- order :: c as nat
  }

  lemma ChannelsStep(order: seq<Chan>)
    requires order != []
    ensures Channels(order) == {order[0] as nat} + Channels(order[1..])
  {
    var rest := order[1..];
    assert order == [order[0]] + rest;
    forall x | x in Channels(order)
      ensures x in {order[0] as nat} + Channels(rest)
    {
      var c :| c in order && c as nat == x;
    }
    forall x | x in {order[0] as nat} + Channels(rest)
      ensures x in Channels(order)
    {
      if x in Channels(rest) {
        var c :| c in rest && c as nat == x;
        assert c in order;
      } else {
        assert order[0] in order;
      }
    }
  }

  lemma NoCommands(order: seq<Chan>, v: View, frameType: byte, modem: bool)
    requires order == [] && ValidView(v) && frameType in {SABM, UA}
    ensures Octets(Commands(order, frameType)) == [] && OnLine([]) == [] && Channels(order) == {}
    ensures ProcessAll(v, [], modem) == v && Confirmed(v, [], modem) == {}
  {
  }

  /** From v to w the channels in cs were established and no other changed. */
  predicate Establishes(v: View, w: View, cs: set<nat>) {
    && ValidView(v) && ValidView(w)
    && forall d :: 0 <= d < CHANNELS ==>
         w.channels[d].state == if d in cs then Established else v.channels[d].state
  }

  lemma EstablishesBoth(u: View, v: View, w: View, a: set<nat>, b: set<nat>)
    requires Establishes(u, v, a) && Establishes(v, w, b)
    ensures Establishes(u, w, a + b)
  {
  }

  lemma NothingEstablished(v: View)
    requires ValidView(v)
    ensures Establishes(v, v, {})
  {
  }

  /** Each SABM received is answered by the UA of its channel, in order. */
  lemma {:induction false} SabmsAnswered(v: View, order: seq<Chan>, modem: bool)
    requires ValidView(v)
    requires forall b <- Octets(Commands(order, SABM)) :: Complete(b)
    ensures ProcessAll(v, Octets(Commands(order, SABM)), modem).log == v.log + OnLine(Octets(Commands(order, UA)))
    ensures Establishes(v, ProcessAll(v, Octets(Commands(order, SABM)), modem), Channels(order))
    decreases |order|
  {
    hide *;
    if order == [] {
      NothingEstablished(v);
      NoCommands(order, v, SABM, modem);
      NoCommands(order, v, UA, modem);
    } else {
      var c, rest := order[0], order[1..];
      CommandsStep(order, SABM);
      CommandsStep(order, UA);
      CommandsComplete(rest, SABM);
      OneSabmAnswered(v, c, modem);
      var first, answer := FrameOctets(Reply(c, SABM)), FrameOctets(Reply(c, UA));
      ProcessAllCons(v, first, Octets(Commands(rest, SABM)), modem);
      SabmsAnswered(Process(v, first, modem), rest, modem);
      OnLineStep(answer, Octets(Commands(rest, UA)));
      ChannelsStep(order);
      var w := Process(v, first, modem);
      EstablishesBoth(v, w, ProcessAll(w, Octets(Commands(rest, SABM)), modem), {c as nat}, Channels(rest));
      assert v.log + [ToLine(answer)] + OnLine(Octets(Commands(rest, UA)))
        == v.log + ([ToLine(answer)] + OnLine(Octets(Commands(rest, UA))));
    }
  }

  lemma OnLineStep(buf: seq<byte>, bufs: seq<seq<byte>>)
    ensures OnLine([buf] + bufs) == [ToLine(buf)] + OnLine(bufs)
  {
  }

  lemma OneSabmAnswered(v: View, c: Chan, modem: bool)
    requires ValidView(v)
    ensures Complete(FrameOctets(Reply(c, SABM)))
    ensures Process(v, FrameOctets(Reply(c, SABM)), modem).log == v.log + [ToLine(FrameOctets(Reply(c, UA)))]
    ensures Establishes(v, Process(v, FrameOctets(Reply(c, SABM)), modem), {c as nat})
  {
    ReplyEncodable(c, SABM);
    hide Process, Complete, FrameOctets, Receive, Encodable;
    SabmAnswered(v, Reply(c, SABM), modem);
  }

  /** The channels that have been confirmed are established, the others wait. */
  predicate Waiting(v: View, done: set<nat>) {
    && ValidView(v)
    && forall d :: 0 <= d < CHANNELS ==>
         v.channels[d].state == if d in done then Established else SabmSendWaitingForUa
  }

  lemma UaWaits(v: View, c: nat, done: set<nat>)
    requires Waiting(v, done) && c < CHANNELS
    ensures Waiting(OnUa(v, c, true), done + {c})
  {
  }

  lemma UaConfirms(v: View, c: Chan, done: set<nat>)
    requires Waiting(v, done)
    ensures Complete(FrameOctets(Reply(c, UA))) && c as nat < CHANNELS
    ensures ConfirmedNow(v, FrameOctets(Reply(c, UA))) == {c as nat} - done
    ensures Waiting(Process(v, FrameOctets(Reply(c, UA)), true), done + {c as nat})
  {
    ChannelNumber(c);
    ReplyEncodable(c, UA);
    hide FrameOctets, Complete, Receive, FrameIn, Note, Encodable, ConfirmedNow, Handle, Process, OnUa;
    Processed(v, Reply(c, UA), true);
    ConfirmingChannel(v, FrameOctets(Reply(c, UA)));
    var n := Note(v, FrameOctets(Reply(c, UA)));
    UaHandled(n, Reply(c, UA));
    UaWaits(n, c as nat, done);
  }

  lemma {:induction false} UasConfirm(v: View, order: seq<Chan>, done: set<nat>)
    requires Waiting(v, done) && ValidView(v)
    requires forall b <- Octets(Commands(order, UA)) :: Complete(b)
    ensures Confirmed(v, Octets(Commands(order, UA)), true) == Channels(order) - done
    decreases |order|
  {
    hide *;
    if order == [] {
      NoCommands(order, v, UA, true);
    } else {
      var c, rest := order[0], order[1..];
      CommandsStep(order, UA);
      CommandsComplete(rest, UA);
      UaConfirms(v, c, done);
      ChannelsStep(order);
      var first := FrameOctets(Reply(c, UA));
      ConfirmedCons(v, first, Octets(Commands(rest, UA)));
      UasConfirm(Process(v, first, true), rest, done + {c as nat});
      SetSteps({c as nat}, Channels(rest), done);
    }
  }

  lemma SetSteps(a: set<nat>, b: set<nat>, done: set<nat>)
    ensures (a - done) + (b - (done + a)) == (a + b) - done
  {
  }

  lemma ConfirmedCons(v: View, buf: seq<byte>, bufs: seq<seq<byte>>)
    requires ValidView(v) && Complete(buf) && forall b :: b in bufs ==> Complete(b)
    ensures forall b :: b in [buf] + bufs ==> Complete(b)
    ensures Confirmed(v, [buf] + bufs, true) == ConfirmedNow(v, buf) + Confirmed(Process(v, buf, true), bufs, true)
  {
    hide Process, Complete, ConfirmedNow;
    assert ([buf] + bufs)[1..] == bufs;
  }

  lemma OpenedWaits()
    ensures Waiting(Opened(), {})
  {
  }

  /**
    One side has sent SABMs for channels in any order, any of them repeatedly; the other side, in
    any state, answers; the answers come back. Then every channel named is established on the other
    side, and "CMUX-UP" is announced, once, exactly when all eight channels were named.
   */
  lemma HandshakeCompletes(peer: View, order: seq<Chan>, modem: bool)
    requires ValidView(peer)
    ensures forall b <- Octets(Commands(order, SABM)) :: Complete(b)
    ensures forall b <- Octets(Commands(order, UA)) :: Complete(b)
    ensures
      var answered := ProcessAll(peer, Octets(Commands(order, SABM)), modem);
      && answered.log == peer.log + OnLine(Octets(Commands(order, UA)))
      && Establishes(peer, answered, Channels(order))
    ensures
      var waiting := ProcessAll(Opened(), Octets(Commands(order, UA)), true);
      && Ups(waiting.log) <= 1
      && (Ups(waiting.log) == 1 <==> Channels(order) == {0, 1, 2, 3, 4, 5, 6, 7})
  {
    CommandsComplete(order, SABM);
    CommandsComplete(order, UA);
    SabmsAnswered(peer, order, modem);
    OpenedWaits();
    hide *;
    UasConfirm(Opened(), order, {});
    assert Channels(order) - {} == Channels(order);
    CmuxUpExactlyWhenAllConfirmed(Octets(Commands(order, UA)));
  }
}
