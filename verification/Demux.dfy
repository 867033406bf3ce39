/**
  From the physical line to the lines of each channel: decoder, multiplexer and AT engines put
  together.
 */
module Demux {
  import opened MuxFcs
  import opened MuxFrame
  import opened MuxDecoder
  import Mux
  import AtLines
  import AtStream
  import AtFramed

  /** The octets of an information field as the AT engine reads them. */
  function Text(octets: seq<byte>): string {
    seq(|octets|, i requires 0 <= i < |octets| => (octets[i] as int) as char)
  }

  function DispatchedBy(o: Mux.Output, c: nat): seq<string> {
    match o
    case ToHal(d, payload) => if d == c then [Text(payload)] else []
    case _ => []
  }

  /** The data handed to the logical HAL of channel c, call by call. */
  function Dispatched(log: seq<Mux.Output>, c: nat): seq<string> {
    if log == [] then []
    else DispatchedBy(log[0], c) + Dispatched(log[1..], c)
  }

  /** What was sent on channel c, frame by frame. */
  function SentOn(frames: seq<Frame>, c: nat): seq<string> {
    if frames == [] then []
    else (if frames[0].channel as nat == c then [Text(frames[0].info)] else []) + SentOn(frames[1..], c)
  }

  predicate CarriesData(f: Frame) {
    && f.channel != 0
    && (f.frameType == UIH || f.frameType == UI)
  }

  lemma {:induction false} DispatchedSplit(a: seq<Mux.Output>, b: seq<Mux.Output>, c: nat)
    ensures Dispatched(a + b, c) == Dispatched(a, c) + Dispatched(b, c)
  {
    if a == [] {
      assert a + b == b;
    } else {
      assert (a + b)[1..] == a[1..] + b;
      DispatchedSplit(a[1..], b, c);
    }
  }

  lemma DispatchedOne(o: Mux.Output, c: nat)
    ensures Dispatched([o], c) == DispatchedBy(o, c)
  {
    assert [o][1..] == [];
  }

  /** A data frame reaches the logical HAL of its channel and nothing else. */
  lemma DataFrameProcessed(v: Mux.View, f: Frame, modem: bool)
    requires Mux.ValidView(v) && Encodable(f) && CarriesData(f)
    requires Complete(FrameOctets(f)) && Receive(FrameOctets(f)) == Accepted(f)
    ensures Mux.Process(v, FrameOctets(f), modem).log == v.log + [Mux.ToHal(f.channel as nat, f.info)]
  {
    hide Complete, FrameOctets, FrameIn;
  }

  lemma DataFrameDispatched(v: Mux.View, f: Frame, modem: bool, c: nat)
    requires Mux.ValidView(v) && Encodable(f) && CarriesData(f)
    ensures Complete(FrameOctets(f))
    ensures Dispatched(Mux.Process(v, FrameOctets(f), modem).log, c) == Dispatched(v.log, c) + SentOn([f], c)
  {
    hide FrameOctets, Complete, Mux.Process;
    var o := Mux.ToHal(f.channel as nat, f.info);
    FrameRoundTrip(f);
    DataFrameProcessed(v, f, modem);
    DispatchedSplit(v.log, [o], c);
    DispatchedOne(o, c);
    assert [f][1..] == [];
  }

  lemma {:induction false} DataFramesProcessed(v: Mux.View, frames: seq<Frame>, modem: bool, c: nat)
    requires Mux.ValidView(v)
    requires forall f :: f in frames ==> Encodable(f) && CarriesData(f)
    requires forall b :: b in Octets(frames) ==> Complete(b)
    ensures Dispatched(Mux.ProcessAll(v, Octets(frames), modem).log, c) == Dispatched(v.log, c) + SentOn(frames, c)
    decreases |frames|
  {
    hide *;
    if frames == [] {
      NothingProcessed(v, frames, modem, c);
    } else {
      var f, rest := frames[0], frames[1..];
      assert f in frames && forall g :: g in rest ==> g in frames;
      OctetsStep(frames);
      var first := FrameOctets(f);
      assert forall b :: b in Octets(rest) ==> b in [first] + Octets(rest);
      DataFrameDispatched(v, f, modem, c);
      Mux.ProcessAllCons(v, FrameOctets(f), Octets(rest), modem);
      SentOnStep(frames, c);
      DataFramesProcessed(Mux.Process(v, FrameOctets(f), modem), rest, modem, c);
    }
  }

  lemma NothingProcessed(v: Mux.View, frames: seq<Frame>, modem: bool, c: nat)
    requires Mux.ValidView(v) && frames == []
    ensures Octets(frames) == [] && Mux.ProcessAll(v, [], modem) == v && SentOn(frames, c) == []
  {
  }

  lemma SentOnStep(frames: seq<Frame>, c: nat)
    requires frames != []
    ensures SentOn(frames, c) == SentOn([frames[0]], c) + SentOn(frames[1..], c)
  {
    assert [frames[0]][1..] == [];
  }

  /**
    Data frames of any channels, interleaved in any way, encoded and cut into chunks in any way: the
    AT engine of channel c is called once with each payload sent on c, in order. With no request
    outstanding it emits the lines of the concatenation of c's own payloads, in order, whenever no
    call meets a prompt; without NUL octets that is whenever no payload leaves a bare prompt unread,
    and the read position overruns exactly when one does.
   */
  lemma EndToEnd(noise: seq<byte>, frames: seq<Frame>, chunks: seq<seq<byte>>, modem: bool, c: nat, at: AtLines.State)
    requires FLAG !in noise
    requires forall f :: f in frames ==> Encodable(f) && CarriesData(f)
    requires Flatten(chunks) == noise + Wire(frames)
    requires at.req.None? && at.unread == "" && !at.overrun
    ensures var got := RunChunks(FlagHunt, chunks).frames;
      && (forall b :: b in got ==> Complete(b))
      && var calls := Dispatched(Mux.ProcessAll(Mux.Opened(), got, modem).log, c);
         var all := AtStream.Concat(SentOn(frames, c));
         && calls == SentOn(frames, c)
         && (AtStream.QuietCalls("", calls) ==>
              AtStream.FeedAll(at, calls)
              == at.(unread := AtStream.Rest(all), log := at.log + AtStream.AsUnsolicited(AtStream.Lines(all))))
         && (AtLines.NUL !in all ==>
              && (AtStream.QuietCalls("", calls) <==> AtStream.NoCallEndsInPrompt("", calls))
              && (AtStream.FeedAll(at, calls).overrun <==> !AtStream.NoCallEndsInPrompt("", calls)))
  {
    ChunkIndependence(FlagHunt, chunks);
    RunNoise(noise);
    hide *;
    RunSplit(FlagHunt, noise, Wire(frames));
    RunWire(FlagHunt, frames);
    FramesComplete(FlagHunt, Flatten(chunks));
    var got := RunChunks(FlagHunt, chunks).frames;
    NoFramesFirst(Octets(frames));
    assert got == Octets(frames);
    DataFramesProcessed(Mux.Opened(), frames, modem, c);
    NothingDispatched(c);
    var calls := SentOn(frames, c);
    var all := AtStream.Concat(calls);
    assert "" + all == all;
    AtStream.RestOfNothing();
    if AtStream.QuietCalls("", calls) {
      AtStream.FeedIdle(at, calls);
    }
    if AtLines.NUL !in all {
      AtStream.IdleExactly(at, calls);
    }
  }

  /**
    If what was sent on channel c is text, each line between carriage return and line feed, its logical
    adapter reports exactly these lines in order, and a line feed is left.
   */
  lemma EndToEndText(noise: seq<byte>, frames: seq<Frame>, chunks: seq<seq<byte>>, modem: bool, c: nat,
                     at: AtLines.State, ls: seq<string>)
    requires FLAG !in noise
    requires forall f :: f in frames ==> Encodable(f) && CarriesData(f)
    requires Flatten(chunks) == noise + Wire(frames)
    requires at.req.None? && at.unread == "" && !at.overrun
    requires AtStream.Concat(SentOn(frames, c)) == AtFramed.Framed(ls)
    requires forall l <- ls :: AtFramed.Ordinary(l)
    ensures
      var got := RunChunks(FlagHunt, chunks).frames;
      && (forall b :: b in got ==> Complete(b))
      && AtStream.FeedAll(at, Dispatched(Mux.ProcessAll(Mux.Opened(), got, modem).log, c))
         == at.(unread := if ls == [] then "" else "\n",
                log := at.log + seq(|ls|, i requires 0 <= i < |ls| => AtLines.Unsolicited(ls[i])))
  {
    hide *;
    EndToEnd(noise, frames, chunks, modem, c, at);
    AtFramed.IdleText(at, ls, SentOn(frames, c));
  }

  lemma NoFramesFirst(bufs: seq<seq<byte>>)
    ensures [] + bufs == bufs
  {
  }

  lemma NothingDispatched(c: nat)
    ensures Mux.ValidView(Mux.Opened()) && Dispatched(Mux.Opened().log, c) == []
    ensures forall s: seq<string> :: [] + s == s
  {
  }
}
