/**
  The AT engine's receive buffer, shifted and doubled in place, and the loop that takes lines out
  of it.
 */
module AtEngine {
  import opened Wrappers
  import opened AtLines

  const MAX_AT_RESPONSE: nat := 255
  // Offsets are unsigned int in the program; half the range leaves room for doubling.
  const MAX_OFFSET: nat := 0x8000_0000

  class Engine {
    var bufSize: nat
    var buf: array<char>
    var bufReadPos: nat
    var bufWritePos: nat
    var req: Option<Request>
    var resp: Option<seq<string>>  // the lines of the response being collected
    var log: seq<Output>

    /** Everything from the write position to the end of the buffer is zero, so every scan stops. */
    ghost predicate Valid()
      reads this, buf
    {
      && bufReadPos <= bufWritePos < bufSize <= buf.Length
      && bufSize < 2 * MAX_OFFSET
      && forall i :: bufWritePos <= i < buf.Length ==> buf[i] == NUL
    }

    ghost function Seen(): State
      reads this, buf
      requires Valid()
    {
      State(buf[bufReadPos..bufWritePos], false, req, resp, log)
    }

    constructor ()
      ensures Valid() && fresh(buf)
      ensures Seen() == State("", false, None, None, [])
    {
      bufSize := MAX_AT_RESPONSE;
      buf := new char[MAX_AT_RESPONSE + 1](i => NUL);
      bufReadPos, bufWritePos := 0, 0;
      req, resp, log := None, None, [];
    }

    /** Consumed octets are dropped from the front. */
    method ShiftLeft()
      requires Valid()
      modifies this`bufReadPos, this`bufWritePos, buf
      ensures Valid() && bufReadPos == 0 && bufWritePos == old(bufWritePos - bufReadPos)
      ensures Seen() == old(Seen())
    {
      var n := bufSize - bufReadPos;
      forall i | 0 <= i < n {
        buf[i] := buf[bufReadPos + i];
      }
      bufWritePos := bufWritePos - bufReadPos;
      bufReadPos := 0;
      forall i | bufWritePos <= i < bufSize {
        buf[i] := NUL;
      }
    }

    /** The size doubles until the data fits with a zero behind it. */
    method Grow(dataLen: nat)
      requires Valid() && bufReadPos == 0 && bufWritePos + dataLen >= bufSize
      requires bufWritePos + dataLen < MAX_OFFSET
      modifies this`bufSize, this`buf
      ensures Valid() && fresh(buf) && bufWritePos + dataLen < bufSize
      ensures Seen() == old(Seen())
    {
      var size := bufSize;
      while size <= bufWritePos + dataLen
        invariant 0 < size <= 2 * (bufWritePos + dataLen)
        decreases bufWritePos + dataLen - size
      {
        size := 2 * size;
      }
      var old_ := buf;
      var wp := bufWritePos;
      buf := new char[size](i requires 0 <= i < size reads this, old_ =>
        if i < wp && i < old_.Length then old_[i] else NUL);
      bufSize := size;
      assert buf[..wp] == old_[..wp];
    }

    method Append(data: string)
      requires Valid() && bufWritePos + |data| < bufSize
      modifies this`bufWritePos, buf
      ensures Valid()
      ensures Seen() == old(Seen()).(unread := old(Seen()).unread + data)
    {
      forall i | 0 <= i < |data| {
        buf[bufWritePos + i] := data[i];
      }
      bufWritePos := bufWritePos + |data|;
      assert buf[bufReadPos..bufWritePos] == old(buf[bufReadPos..bufWritePos]) + data;
    }

    method BufWrite(data: string)
      requires Valid()
      requires bufWritePos + |data| < MAX_OFFSET
      modifies this`bufSize, this`buf, this`bufReadPos, this`bufWritePos, buf
      ensures Valid() && (buf == old(buf) || fresh(buf))
      ensures Seen() == old(Seen()).(unread := old(Seen()).unread + data)
    {
      if bufWritePos + |data| >= bufSize {
        ShiftLeft();
      }
      if bufWritePos + |data| >= bufSize {
        Grow(|data|);
      }
      Append(data);
    }

    method SeesPrompt(cur: nat) returns (yes: bool)
      requires Valid() && bufReadPos <= cur <= bufWritePos
      ensures yes <==> AtPrompt(buf[cur..bufWritePos])
    {
      ghost var rest := buf[cur..bufWritePos];
      assert |rest| > 0 ==> rest[0] == buf[cur];
      assert |rest| > 1 ==> rest[1] == buf[cur + 1];
      yes := buf[cur] == '>' && buf[cur + 1] == ' ' && buf[cur + 2] == NUL;
      if yes {
        assert rest[..2] == PROMPT;
      }
    }

    method SeekCr(cur: nat) returns (eol: Option<nat>)
      requires Valid() && bufReadPos <= cur <= bufWritePos
      ensures eol == After(cur, FirstCr(buf[cur..bufWritePos]))
    {
      var i := cur;
      hide FirstCr;
      ghost var s := buf[..bufWritePos];
      assert s[cur..] == buf[cur..bufWritePos];
      while buf[i] != NUL && buf[i] != CR
        invariant cur <= i <= bufWritePos
        invariant After(cur, FirstCr(s[cur..])) == After(i, FirstCr(s[i..]))
        decreases bufWritePos - i
      {
        FirstCrStep(s, i);
        i := i + 1;
      }
      FirstCrStep(s, i);
      eol := if buf[i] == NUL then None else Some(i);
    }

    /** The end of the line that starts at cur, if it has arrived. */
    method FindNextEol(cur: nat) returns (eol: Option<nat>)
      requires Valid() && bufReadPos <= cur <= bufWritePos
      ensures eol == After(cur, FindEol(buf[cur..bufWritePos]))
    {
      var prompt := SeesPrompt(cur);
      if prompt {
        return Some(cur + 2);
      }
      eol := SeekCr(cur);
    }

    method SkipBlank() returns (pos: nat)
      requires Valid()
      ensures pos == bufReadPos + Blank(buf[bufReadPos..bufWritePos]) <= bufWritePos
    {
      pos := bufReadPos;
      while buf[pos] == CR || buf[pos] == LF
        invariant bufReadPos <= pos <= bufWritePos
        invariant bufReadPos + Blank(buf[bufReadPos..bufWritePos]) == pos + Blank(buf[pos..bufWritePos])
        decreases bufWritePos - pos
      {
        assert buf[pos..bufWritePos][1..] == buf[pos + 1..bufWritePos];
        pos := pos + 1;
      }
    }

    /** Everything up to and including position end is behind the read position. */
    method ConsumeTo(end: nat)
      requires Valid() && bufReadPos <= end < bufWritePos
      modifies this`bufReadPos
      ensures Valid() && bufReadPos == end + 1
      ensures Seen() == Consume(old(Seen()), end - old(bufReadPos))
    {
      bufReadPos := end + 1;
    }

    /** The line becomes a string of its own: a NUL replaces the octet that ends it. */
    method TakeLine(pos: nat, end: nat) returns (line: string)
      requires Valid() && bufReadPos <= pos < end <= bufWritePos
      modifies buf
      ensures Valid() && line == old(buf[pos..end])
      ensures Seen() == EndMarked(old(Seen()), end - bufReadPos)
    {
      line := buf[pos..end];
      buf[end] := NUL;
    }

    method AnswerWithNext(end: nat)
      requires Valid() && req.Some? && req.value.nextSend.Some? && bufReadPos <= end <= bufWritePos
      modifies this`bufReadPos, this`log
      ensures Valid()
      ensures Seen() == old(Seen()).(log := old(Seen()).log + [SendNext(req.value.nextSend.value)],
                                     unread := old(Seen()).unread[end - old(bufReadPos)..])
    {
      log := log + [SendNext(req.value.nextSend.value)];
      bufReadPos := end;
    }

    method EmitPendingResponse(line: string)
      requires Valid() && req.Some?
      modifies this`req, this`resp, this`log
      ensures Valid() && Seen() == Complete(old(Seen()), line)
    {
      var lines := if resp.Some? then resp.value else [];
      log := log + [Completed(Response(lines, line, CheckFinal(line) == 1))];
      req, resp := None, None;
    }

    /** The response to the request in progress is created at its first line. */
    method RouteLine(line: string)
      requires Valid() && req.Some?
      modifies this`resp, this`log
      ensures Valid() && Seen() == Route(old(Seen()), line)
    {
      var r := req.value;
      if resp.None? {
        resp := Some([]);
      }
      var lines := resp.value;
      var joins := match r.commandType
        case NoResult => false
        case Numeric => lines == [] && line != "" && '0' <= line[0] <= '9'
        case SingleLine => lines == [] && (r.prefix.None? || HasPrefix(line, r.prefix.value))
        case MultiLine => r.prefix.None? || HasPrefix(line, r.prefix.value)
        case Pdu => r.prefix.None? || HasPrefix(line, r.prefix.value) || lines != [];
      if joins {
        resp := Some(lines + [line]);
      } else {
        log := log + [Unsolicited(line)];
      }
    }

    /** Where the next line stands in the unread octets. */
    method FindLine() returns (span: Option<Span>)
      requires Valid()
      ensures span == NextLine(Seen().unread)
    {
      hide Blank, FindEol;
      var pos := SkipBlank();
      var next := FindNextEol(pos);
      assert Seen().unread[pos - bufReadPos..] == buf[pos..bufWritePos];
      span := if next.None? then None else Some(Span(pos - bufReadPos, next.value - bufReadPos));
    }

    method DispatchLine(line: string) returns (final: bool)
      requires Valid()
      modifies this`req, this`resp, this`log
      ensures Valid() && Seen() == Dispatch(old(Seen()), line)
      ensures final <==> IsFinal(old(Seen()), line)
    {
      final := false;
      if req.None? {
        log := log + [Unsolicited(line)];
      } else if CheckFinal(line) != 0 {
        final := true;
        EmitPendingResponse(line);
      } else {
        RouteLine(line);
      }
    }

    /** One turn of the loop: takes the next line, if there is one. */
    method Take() returns (more: bool, done: bool)
      requires Valid()
      requires !TakeTurn(Seen()).state.overrun
      modifies this`bufReadPos, this`req, this`resp, this`log, buf
      ensures Valid()
      ensures TakeTurn(old(Seen())) == if more then More(Seen()) else Stop(Seen(), done)
    {
      hide CheckFinal, NextLine, Dispatch, IsFinal, EndMarked, AnswerPrompt;
      ghost var st := Seen();
      var span := FindLine();
      if span.None? {
        return false, false;
      }
      var end := span.value.end;
      var pos, next := bufReadPos + span.value.start, bufReadPos + end;
      assert buf[pos..next] == st.unread[span.value.start..end];
      var line := TakeLine(pos, next);
      if req.Some? && line == PROMPT && req.value.nextSend.Some? {
        AnswerMarked(st, end);
        AnswerWithNext(next);
        return false, false;
      }
      DispatchMarked(st, line, end);
      done := DispatchLine(line);
      ConsumeTo(next);
      more := !done;
    }

    /**
      Data has arrived: true when it completed the request in progress. A prompt that nothing
      answers would put the read position past the write position.
     */
    method Process(data: string) returns (done: bool)
      requires Valid()
      requires bufWritePos + |data| < MAX_OFFSET
      requires !Receive(Seen(), data).state.overrun
      modifies this, buf
      ensures Valid() && (buf == old(buf) || fresh(buf))
      ensures Receive(old(Seen()), data) == Stop(Seen(), done)
    {
      hide TakeTurn;
      BufWrite(data);
      ghost var goal := Scan(Seen());
      var more := true;
      done := false;
      while more
        invariant Valid() && (buf == old(buf) || fresh(buf))
        invariant if more then Scan(Seen()) == goal else goal == Stop(Seen(), done)
        decreases more, |Seen().unread|
      {
        OverrunKept(Seen());
        more, done := Take();
      }
    }
  }

  /** The octet that ends a line, if it is in the buffer, is a NUL from then on. */
  function EndMarked(st: State, end: nat): State {
    if end < |st.unread| then st.(unread := st.unread[end := NUL]) else st
  }

  lemma FirstCrStep(s: string, i: nat)
    requires i <= |s|
    ensures i == |s| || s[i] == NUL ==> FirstCr(s[i..]) == None
    ensures i < |s| && s[i] == CR ==> FirstCr(s[i..]) == Some(0)
    ensures i < |s| && s[i] != NUL && s[i] != CR ==> After(i, FirstCr(s[i..])) == After(i + 1, FirstCr(s[i + 1..]))
  {
    if i < |s| {
      assert s[i..][1..] == s[i + 1..];
    }
  }

  function After(base: nat, e: Option<nat>): Option<nat> {
    match e
    case None => None
    case Some(k) => Some(base + k)
  }

  /** The NUL that ends the line is consumed with it. */
  lemma DispatchMarked(st: State, line: string, end: nat)
    requires end <= |st.unread|
    ensures |Dispatch(st, line).unread| == |st.unread|
    ensures Dispatch(EndMarked(st, end), line) == EndMarked(Dispatch(st, line), end)
    ensures IsFinal(EndMarked(st, end), line) == IsFinal(st, line)
    ensures end < |st.unread| ==> Consume(EndMarked(Dispatch(st, line), end), end) == Consume(Dispatch(st, line), end)
  {
    hide CheckFinal, Joins;
  }

  /** What is left unread when a prompt is answered starts with its NUL. */
  lemma AnswerMarked(st: State, end: nat)
    requires end <= |st.unread| && st.req.Some? && st.req.value.nextSend.Some?
    ensures EndMarked(st, end).(log := st.log + [SendNext(st.req.value.nextSend.value)],
                                unread := EndMarked(st, end).unread[end..]) == AnswerPrompt(st, end)
  {
  }

  /** Once the read position has overrun it stays so. */
  lemma OverrunKept(st: State)
    requires !Scan(st).state.overrun
    ensures !TakeTurn(st).state.overrun
  {
    hide TakeTurn;
    match TakeTurn(st)
    case Stop(_, _) =>
    case More(s) => if s.overrun { OverrunForever(s); }
  }
}
