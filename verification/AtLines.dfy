/**
  The AT line engine as a function of the octets received: how lines are cut from the stream and
  where each one goes. Final result codes are those of 3GPP TS 27.007 Annex B.
 */
module AtLines {
  import opened Wrappers

  const CR: char := '\r'
  const LF: char := '\n'
  const NUL: char := '\0'
  const PROMPT: string := "> "

  datatype CommandType = NoResult | Numeric | SingleLine | MultiLine | Pdu

  datatype Request = Request(prefix: Option<string>, commandType: CommandType, nextSend: Option<string>)

  datatype Response = Response(lines: seq<string>, final: string, success: bool)

  datatype Output =
    | Unsolicited(line: string)
    | SendNext(data: string)
    | Completed(response: Response)

  /**
    unread is what was received and not consumed; overrun says that the read position was moved
    one past the write position, so that the next octet received is lost.
   */
  datatype State = State(unread: string, overrun: bool, req: Option<Request>, lines: Option<seq<string>>,
                         log: seq<Output>)

  // ---------------------------------------------------------------------------------------
  // Lines.
  // ---------------------------------------------------------------------------------------

  function HasPrefix(line: string, prefix: string): bool {
    prefix <= line
  }

  predicate IsEol(c: char) {
    c == CR || c == LF
  }

  /** How many leading octets end lines rather than start one. */
  function Blank(s: string): (n: nat)
    ensures n <= |s|
    ensures forall i :: 0 <= i < n ==> IsEol(s[i])
    ensures n < |s| ==> !IsEol(s[n])
  {
    if s != [] && IsEol(s[0]) then 1 + Blank(s[1..]) else 0
  }

  /** The prompt is a line although nothing ends it; what follows it is the zeroed buffer. */
  predicate AtPrompt(s: string) {
    PROMPT <= s && (|s| == 2 || s[2] == NUL)
  }

  /** The position of the first CR, unless a NUL comes first. */
  function FirstCr(s: string): (e: Option<nat>)
    ensures e.Some? ==> e.value < |s| && s[e.value] == CR && CR !in s[..e.value] && NUL !in s[..e.value]
  {
    if s == [] || s[0] == NUL then None
    else if s[0] == CR then Some(0)
    else
      match FirstCr(s[1..])
      case None => None
      case Some(e) => Some(e + 1)
  }

  function FindEol(s: string): Option<nat> {
    if AtPrompt(s) then Some(2) else FirstCr(s)
  }

  /** start and end of the next line in s. */
  datatype Span = Span(start: nat, end: nat)

  function NextLine(s: string): (l: Option<Span>)
    ensures l.Some? ==> l.value.start < l.value.end <= |s|
  {
    var k := Blank(s);
    match FindEol(s[k..])
    case None => None
    case Some(e) => Some(Span(k, k + e))
  }

  // ---------------------------------------------------------------------------------------
  // Where a line goes.
  // ---------------------------------------------------------------------------------------

  /** 1 for success, 2 for an error, 0 when the line is not a final result code. */
  function CheckFinal(line: string): nat {
    if HasPrefix(line, "OK") then 1
    else if HasPrefix(line, "ERROR") || HasPrefix(line, "+CMS ERROR:") || HasPrefix(line, "+CME ERROR:")
      || HasPrefix(line, "NO ANSWER") || HasPrefix(line, "NO DIALTONE") then 2
    else 0
  }

  predicate Matches(r: Request, line: string) {
    r.prefix.None? || HasPrefix(line, r.prefix.value)
  }

  /** A line that is not final joins the response, or else is treated as unsolicited. */
  predicate Joins(r: Request, lines: seq<string>, line: string) {
    match r.commandType
    case NoResult => false
    case Numeric => lines == [] && line != "" && '0' <= line[0] <= '9'
    case SingleLine => lines == [] && Matches(r, line)
    case MultiLine => Matches(r, line)
    case Pdu => Matches(r, line) || lines != []
  }

  function LinesOf(st: State): seq<string> {
    if st.lines.Some? then st.lines.value else []
  }

  function Route(st: State, line: string): State
    requires st.req.Some?
  {
    var lines := LinesOf(st);
    if Joins(st.req.value, lines, line) then st.(lines := Some(lines + [line]))
    else st.(lines := Some(lines), log := st.log + [Unsolicited(line)])
  }

  function Complete(st: State, line: string): State {
    st.(req := None, lines := None,
        log := st.log + [Completed(Response(LinesOf(st), line, CheckFinal(line) == 1))])
  }

  /** The line ending at end is consumed with the octet that ends it. */
  function Consume(st: State, end: nat): State
    requires end <= |st.unread|
  {
    if end == |st.unread| then st.(unread := "", overrun := true) else st.(unread := st.unread[end + 1..])
  }

  /** The second part goes out; the octet that ended the prompt line has become a NUL. */
  function AnswerPrompt(st: State, end: nat): State
    requires st.req.Some? && st.req.value.nextSend.Some? && end <= |st.unread|
  {
    st.(log := st.log + [SendNext(st.req.value.nextSend.value)],
        unread := if end == |st.unread| then "" else [NUL] + st.unread[end + 1..])
  }

  predicate IsFinal(st: State, line: string) {
    st.req.Some? && CheckFinal(line) != 0
  }

  predicate IsAnswerable(st: State, line: string) {
    st.req.Some? && st.req.value.nextSend.Some? && line == PROMPT
  }

  function Dispatch(st: State, line: string): State {
    if st.req.None? then st.(log := st.log + [Unsolicited(line)])
    else if IsFinal(st, line) then Complete(st, line)
    else Route(st, line)
  }

  /** What taking the next line out of the buffer leads to. */
  datatype Turn = More(state: State) | Stop(state: State, done: bool)

  function TakeTurn(st: State): (t: Turn)
    ensures t.More? ==> |t.state.unread| < |st.unread|
  {
    match NextLine(st.unread)
    case None => Stop(st, false)
    case Some(span) =>
      var line := st.unread[span.start..span.end];
      if IsAnswerable(st, line) then Stop(AnswerPrompt(st, span.end), false)
      else
        var next := Consume(Dispatch(st, line), span.end);
        if IsFinal(st, line) then Stop(next, true) else More(next)
  }

  /** Lines are taken until none is complete, a prompt is answered, or the request is answered. */
  function Scan(st: State): Turn
    decreases |st.unread|
  {
    match TakeTurn(st)
    case Stop(s, done) => Stop(s, done)
    case More(s) => Scan(s)
  }

  /** One call with newly arrived data. */
  function Receive(st: State, data: string): Turn {
    Scan(st.(unread := st.unread + data))
  }

  /** An overrun read position never comes back. */
  lemma {:induction false} OverrunForever(st: State)
    requires st.overrun
    ensures Scan(st).state.overrun
    decreases |st.unread|
  {
    hide CheckFinal, Joins, NextLine;
    match TakeTurn(st)
    case Stop(_, _) =>
    case More(s) => OverrunForever(s);
  }
}
