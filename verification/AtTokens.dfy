/**
  The tokenizer of AT lines: raw, quoted and parenthesised tokens separated by commas, behind a
  "prefix:" or inside an outer pair of parentheses.
 */
module AtTokens {

  const NUL: char := '\0'

  predicate IsSpace(c: char) {
    c in {' ', '\t', '\n', '\r', '\U{000B}', '\U{000C}'}
  }

  // ---------------------------------------------------------------------------------------
  // The reference: a machine that carries the token read so far.
  // ---------------------------------------------------------------------------------------

  datatype Mode = Between | Raw(cur: string) | Str(cur: string) | Paren(cur: string) | Finished

  datatype Reading = Reading(mode: Mode, tokens: seq<string>)

  function Read(m: Mode, c: char): Reading {
    match m
    case Between =>
      if c == '"' then Reading(Str([c]), [])
      else if c == ',' then Reading(Between, [""])
      else if c == ' ' then Reading(Between, [])
      else if c == '(' then Reading(Paren([c]), [])
      else Reading(Raw([c]), [])
    case Str(cur) => if c == '"' then Reading(Finished, [cur + [c]]) else Reading(Str(cur + [c]), [])
    case Paren(cur) => if c == ')' then Reading(Finished, [cur + [c]]) else Reading(Paren(cur + [c]), [])
    case Raw(cur) => if c == ',' || c == NUL then Reading(Between, [cur]) else Reading(Raw(cur + [c]), [])
    case Finished => Reading(if c == ',' then Between else Finished, [])
  }

  function ReadAll(m: Mode, s: string): Reading
    decreases |s|
  {
    if s == "" then Reading(m, [])
    else
      var first := Read(m, s[0]);
      var rest := ReadAll(first.mode, s[1..]);
      Reading(rest.mode, first.tokens + rest.tokens)
  }

  /** The tokens of a body that the mark z ends: a raw token reaches up to the mark. */
  function TokensOf(body: string, z: char): seq<string> {
    var r := ReadAll(Between, body + [z]);
    r.tokens + match r.mode case Raw(cur) => (if cur == "" then [] else [cur[..|cur| - 1]]) case _ => []
  }

  function SkipSpace(s: string): (t: string)
    ensures |t| <= |s|
  {
    if s != "" && IsSpace(s[0]) then SkipSpace(s[1..]) else s
  }

  function ColonAt(s: string): (n: nat)
    ensures n <= |s| && (n < |s| ==> s[n] == ':') && ':' !in s[..n]
  {
    if s == "" || s[0] == ':' then 0 else 1 + ColonAt(s[1..])
  }

  function Tokenize(line: string): seq<string> {
    if line == "" then []
    else if line[0] == '(' then
      var body := SkipSpace(line[1..]);
      // A closing parenthesis, when it is the last character, is the mark.
      if line[|line| - 1] == ')' && body != "" then TokensOf(body[..|body| - 1], ')') else TokensOf(body, NUL)
    else
      var n := ColonAt(line);
      if n == |line| then [line] else TokensOf(SkipSpace(line[n + 1..]), NUL)
  }

  // ---------------------------------------------------------------------------------------
  // Tokens put together and taken apart.
  // ---------------------------------------------------------------------------------------

  predicate RawToken(t: string) {
    && ',' !in t && NUL !in t
    && (t != "" ==> t[0] !in {'"', '('} && !IsSpace(t[0]))
  }

  predicate Enclosed(t: string, open: char, close: char) {
    && |t| >= 2 && t[0] == open && t[|t| - 1] == close
    && close !in t[1..|t| - 1]
  }

  predicate WellFormed(t: string) {
    RawToken(t) || Enclosed(t, '"', '"') || Enclosed(t, '(', ')')
  }

  /**
    A token as it stands in a list: behind blanks, and before characters that are ignored, of which
    there are some only behind a closing quotation mark or parenthesis.
   */
  datatype Piece = Piece(blanks: nat, token: string, ignored: string)

  predicate WellPlaced(p: Piece) {
    && WellFormed(p.token) && ',' !in p.ignored
    && (p.ignored != "" ==> Enclosed(p.token, '"', '"') || Enclosed(p.token, '(', ')'))
  }

  function Blanks(n: nat): string {
    seq(n, _ => ' ')
  }

  function Placed(p: Piece): string {
    Blanks(p.blanks) + p.token + p.ignored
  }

  /** The pieces with commas between them. */
  function Join(ps: seq<Piece>): string
    requires ps != []
  {
    if |ps| == 1 then Placed(ps[0]) else Placed(ps[0]) + "," + Join(ps[1..])
  }

  function TokensIn(ps: seq<Piece>): (tokens: seq<string>)
    ensures |tokens| == |ps|
  {
    seq(|ps|, i requires 0 <= i < |ps| => ps[i].token)
  }

  lemma {:induction false} ReadSplit(m: Mode, a: string, b: string)
    ensures var first := ReadAll(m, a);
      var second := ReadAll(first.mode, b);
      ReadAll(m, a + b) == Reading(second.mode, first.tokens + second.tokens)
    decreases |a|
  {
    if a == "" {
      assert a + b == b;
    } else {
      assert (a + b)[1..] == a[1..] + b;
      ReadSplit(Read(m, a[0]).mode, a[1..], b);
    }
  }

  lemma ReadOne(m: Mode, c: char)
    ensures ReadAll(m, [c]) == Read(m, c)
  {
    assert [c][1..] == "";
    assert Read(m, c).tokens + [] == Read(m, c).tokens;
  }

  lemma {:induction false} ReadRaw(cur: string, s: string)
    requires ',' !in s && NUL !in s
    ensures ReadAll(Raw(cur), s) == Reading(Raw(cur + s), [])
    decreases |s|
  {
    if s == "" {
      assert cur + s == cur;
    } else {
      ReadRaw(cur + [s[0]], s[1..]);
      assert cur + [s[0]] + s[1..] == cur + s;
    }
  }

  lemma {:induction false} ReadStr(cur: string, s: string)
    requires '"' !in s
    ensures ReadAll(Str(cur), s) == Reading(Str(cur + s), [])
    decreases |s|
  {
    if s == "" {
      assert cur + s == cur;
    } else {
      ReadStr(cur + [s[0]], s[1..]);
      assert cur + [s[0]] + s[1..] == cur + s;
    }
  }

  lemma {:induction false} ReadParen(cur: string, s: string)
    requires ')' !in s
    ensures ReadAll(Paren(cur), s) == Reading(Paren(cur + s), [])
    decreases |s|
  {
    if s == "" {
      assert cur + s == cur;
    } else {
      ReadParen(cur + [s[0]], s[1..]);
      assert cur + [s[0]] + s[1..] == cur + s;
    }
  }

  lemma ReadRawToken(t: string)
    requires RawToken(t)
    ensures ReadAll(Between, t) == Reading(if t == "" then Between else Raw(t), [])
  {
    if t != "" {
      ReadRaw([t[0]], t[1..]);
      assert [t[0]] + t[1..] == t;
      assert Read(Between, t[0]) == Reading(Raw([t[0]]), []);
      hide Read, RawToken;
    }
  }

  lemma ReadEnclosed(t: string)
    requires Enclosed(t, '"', '"') || Enclosed(t, '(', ')')
    ensures ReadAll(Between, t) == Reading(Finished, [t])
  {
    var n := |t| - 1;
    var inner, close := t[1..n], [t[n]];
    assert t == [t[0]] + (inner + close);
    assert [t[0]] + inner + close == t;
    ReadOne(Between, t[0]);
    ReadSplit(Between, [t[0]], inner + close);
    if t[0] == '"' {
      ReadStr([t[0]], inner);
      ReadSplit(Str([t[0]]), inner, close);
      ReadOne(Str([t[0]] + inner), t[n]);
    } else {
      ReadParen([t[0]], inner);
      ReadSplit(Paren([t[0]]), inner, close);
      ReadOne(Paren([t[0]] + inner), t[n]);
    }
    hide ReadAll, Enclosed;
  }

  /** One well-formed token, and what has been said of it before its separator arrives. */
  lemma ReadToken(t: string)
    requires WellFormed(t)
    ensures var r := ReadAll(Between, t);
      || (RawToken(t) && r == Reading(if t == "" then Between else Raw(t), []))
      || r == Reading(Finished, [t])
  {
    if RawToken(t) {
      ReadRawToken(t);
    } else {
      ReadEnclosed(t);
    }
    hide ReadAll, RawToken, Enclosed;
  }

  lemma {:induction false} ReadBlanks(n: nat, s: string)
    ensures ReadAll(Between, Blanks(n) + s) == ReadAll(Between, s)
    decreases n
  {
    if n == 0 {
      assert Blanks(n) + s == s;
    } else {
      assert (Blanks(n) + s)[0] == ' ' && (Blanks(n) + s)[1..] == Blanks(n - 1) + s;
      ReadBlanks(n - 1, s);
      var r := ReadAll(Between, s);
      assert [] + r.tokens == r.tokens;
    }
  }

  lemma {:induction false} ReadIgnored(s: string)
    requires ',' !in s
    ensures ReadAll(Finished, s) == Reading(Finished, [])
    decreases |s|
  {
    if s == "" {
    } else {
      ReadIgnored(s[1..]);
    }
  }

  /** What has been said of a token, and what ignores the characters behind it, before the separator arrives. */
  lemma ReadPlaced(p: Piece)
    requires WellPlaced(p)
    ensures var r := ReadAll(Between, Placed(p));
      || (RawToken(p.token) && r == Reading(if p.token == "" then Between else Raw(p.token), []))
      || r == Reading(Finished, [p.token])
  {
    hide WellFormed, Read, RawToken;
    ReadToken(p.token);
    assert Placed(p) == Blanks(p.blanks) + (p.token + p.ignored);
    ReadBlanks(p.blanks, p.token + p.ignored);
    if p.ignored == "" {
      assert p.token + p.ignored == p.token;
    } else {
      ReadEnclosed(p.token);
      ReadSplit(Between, p.token, p.ignored);
      ReadIgnored(p.ignored);
    }
  }

  lemma ReadSeparated(p: Piece)
    requires WellPlaced(p)
    ensures ReadAll(Between, Placed(p) + ",") == Reading(Between, [p.token])
  {
    hide WellPlaced;
    ReadPlaced(p);
    ReadSplit(Between, Placed(p), ",");
    ReadOne(ReadAll(Between, Placed(p)).mode, ',');
    hide Placed;
  }

  /** What the mark that ends the body adds. */
  function Ending(m: Mode, z: char): seq<string> {
    Read(m, z).tokens
    + match Read(m, z).mode case Raw(cur) => (if cur == "" then [] else [cur[..|cur| - 1]]) case _ => []
  }

  lemma TokensEnd(body: string, z: char)
    ensures TokensOf(body, z) == ReadAll(Between, body).tokens + Ending(ReadAll(Between, body).mode, z)
  {
    ReadSplit(Between, body, [z]);
    ReadOne(ReadAll(Between, body).mode, z);
    hide ReadAll, Read;
  }

  lemma EndingOf(cur: string, z: char)
    requires z == NUL || z == ')'
    ensures Ending(Between, z) == [""] && Ending(Raw(cur), z) == [cur] && Ending(Finished, z) == []
  {
    assert (cur + [z])[..|cur|] == cur;
  }

  lemma LastToken(p: Piece, z: char)
    requires WellPlaced(p) && (z == NUL || z == ')')
    ensures TokensOf(Placed(p), z) == [p.token]
  {
    hide *;
    ReadPlaced(p);
    TokensEnd(Placed(p), z);
    EndingOf(p.token, z);
  }

  lemma FirstToken(p: Piece, rest: string, z: char)
    requires WellPlaced(p)
    ensures TokensOf(Placed(p) + "," + rest, z) == [p.token] + TokensOf(rest, z)
  {
    hide WellPlaced, Read, Placed;
    ReadSeparated(p);
    assert Placed(p) + "," + rest + [z] == (Placed(p) + ",") + (rest + [z]);
    ReadSplit(Between, Placed(p) + ",", rest + [z]);
  }

  /** A comma-joined list of well-formed tokens, ended by either mark, is read back exactly. */
  lemma {:induction false} JoinedTokens(ps: seq<Piece>, z: char)
    requires ps != [] && forall p <- ps :: WellPlaced(p)
    requires z == NUL || z == ')'
    ensures TokensOf(Join(ps), z) == TokensIn(ps)
    decreases |ps|
  {
    hide WellPlaced, TokensOf, Placed;
    if |ps| == 1 {
      LastToken(ps[0], z);
    } else {
      JoinedTokens(ps[1..], z);
      FirstToken(ps[0], Join(ps[1..]), z);
      assert TokensIn(ps) == [ps[0].token] + TokensIn(ps[1..]);
    }
  }

  /** An opening quotation mark or parenthesis, and no closing one. */
  predicate Unclosed(t: string) {
    t != "" && ((t[0] == '"' && '"' !in t[1..]) || (t[0] == '(' && ')' !in t[1..]))
  }

  /** What a token that nothing closes comes to: nothing, unless the mark itself is its closing parenthesis. */
  function Salvaged(t: string, z: char): seq<string> {
    if t != "" && t[0] == '(' && z == ')' then [t + ")"] else []
  }

  lemma UnclosedAlone(t: string, z: char)
    requires Unclosed(t) && (z == NUL || z == ')')
    ensures TokensOf(t, z) == Salvaged(t, z)
  {
    TokensEnd(t, z);
    assert t == [t[0]] + t[1..];
    ReadSplit(Between, [t[0]], t[1..]);
    ReadOne(Between, t[0]);
    if t[0] == '"' {
      ReadStr([t[0]], t[1..]);
    } else {
      ReadParen([t[0]], t[1..]);
    }
    hide ReadAll, TokensOf;
  }

  lemma JoinStep(ps: seq<Piece>)
    requires ps != []
    ensures Join(ps) == if |ps| == 1 then Placed(ps[0]) else Placed(ps[0]) + "," + Join(ps[1..])
  {
    hide Placed;
  }

  lemma TokensStep(ps: seq<Piece>)
    requires ps != []
    ensures TokensIn(ps) == [ps[0].token] + TokensIn(ps[1..])
    ensures TokensIn([]) == []
  {
  }

  lemma Regrouped(a: string, b: string, c: string)
    ensures a + "," + b + c == a + "," + (b + c) && a + ("," + c) == a + "," + c
  {
  }

  /** The tokens before one that nothing closes are read all the same. */
  lemma {:induction false} UnclosedLast(ps: seq<Piece>, t: string, z: char)
    requires ps != [] && (forall p <- ps :: WellPlaced(p)) && Unclosed(t) && (z == NUL || z == ')')
    ensures TokensOf(Join(ps) + ("," + t), z) == TokensIn(ps) + Salvaged(t, z)
    decreases |ps|
  {
    hide *;
    UnclosedAlone(t, z);
    JoinStep(ps);
    TokensStep(ps);
    if |ps| == 1 {
      FirstToken(ps[0], t, z);
      Regrouped(Placed(ps[0]), "", t);
    } else {
      UnclosedLast(ps[1..], t, z);
      FirstToken(ps[0], Join(ps[1..]) + ("," + t), z);
      Regrouped(Placed(ps[0]), Join(ps[1..]), "," + t);
    }
  }

  /** The same pieces, the first of them without blanks before it. */
  function Unblanked(ps: seq<Piece>): (qs: seq<Piece>)
    requires ps != []
    ensures |qs| == |ps|
  {
    ps[0 := ps[0].(blanks := 0)]
  }

  lemma JoinBlanks(ps: seq<Piece>)
    requires ps != []
    ensures Join(ps) == Blanks(ps[0].blanks) + Join(Unblanked(ps))
    ensures TokensIn(Unblanked(ps)) == TokensIn(ps)
    ensures (forall p <- ps :: WellPlaced(p)) ==> forall p <- Unblanked(ps) :: WellPlaced(p)
  {
    var p, q := ps[0], Unblanked(ps)[0];
    assert Placed(p) == Blanks(p.blanks) + Placed(q);
    assert Unblanked(ps)[1..] == ps[1..];
    if |ps| > 1 {
      assert Placed(p) + "," + Join(ps[1..]) == Blanks(p.blanks) + (Placed(q) + "," + Join(ps[1..]));
    }
    assert p in ps;
    forall x <- Unblanked(ps)
      ensures x == q || x in ps
    {
    }
    hide WellFormed, Join, Blanks;
  }

  /** The text of a joined list starts with no white space when no blank stands before its first token. */
  lemma JoinStart(ps: seq<Piece>, tail: string)
    requires ps != [] && WellPlaced(ps[0]) && ps[0].blanks == 0
    requires tail != "" ==> !IsSpace(tail[0])
    ensures SkipSpace(Join(ps) + tail) == Join(ps) + tail
  {
    var s := Join(ps) + tail;
    var t := ps[0].token;
    assert Blanks(0) == "";
    if t != "" {
      assert Placed(ps[0])[0] == t[0];
      assert s[0] == t[0];
    } else if |ps| > 1 {
      assert s[0] == ',';
    } else {
      assert s == tail;
    }
  }

  /** White space as isspace has it. */
  predicate White(s: string) {
    forall c <- s :: c as int == 32 || 9 <= c as int <= 13
  }

  lemma WhiteSpace(s: string)
    requires White(s)
    ensures forall c <- s :: IsSpace(c)
  {
  }

  lemma SkipToFirst(space: string, ps: seq<Piece>, tail: string)
    requires White(space) && ps != [] && forall p <- ps :: WellPlaced(p)
    requires tail != "" ==> !IsSpace(tail[0])
    ensures SkipSpace(space + Join(ps) + tail) == Join(Unblanked(ps)) + tail
  {
    hide WellPlaced, Join, SkipSpace;
    JoinBlanks(ps);
    var front := space + Blanks(ps[0].blanks);
    WhiteSpace(front);
    assert space + Join(ps) + tail == front + (Join(Unblanked(ps)) + tail);
    SkipSpaces(front, Join(Unblanked(ps)) + tail);
    assert Unblanked(ps)[0] in Unblanked(ps);
    JoinStart(Unblanked(ps), tail);
  }

  lemma {:induction false} SkipSpaces(space: string, s: string)
    requires forall c :: c in space ==> IsSpace(c)
    ensures SkipSpace(space + s) == SkipSpace(s)
  {
    if space == "" {
      assert space + s == s;
    } else {
      assert (space + s)[1..] == space[1..] + s;
      SkipSpaces(space[1..], s);
    }
  }

  lemma {:induction false} ColonAfter(prefix: string, s: string)
    requires ':' !in prefix
    ensures ColonAt(prefix + ":" + s) == |prefix|
  {
    var all := prefix + ":" + s;
    if prefix == "" {
    } else {
      assert all[1..] == prefix[1..] + ":" + s;
      ColonAfter(prefix[1..], s);
    }
  }

  /**
    Behind a prefix and any white space, a list of well-formed tokens, any number of blanks before each
    of them, is read back exactly, empty tokens included.
   */
  lemma PrefixedRoundTrip(prefix: string, space: string, ps: seq<Piece>)
    requires ':' !in prefix && (prefix != "" ==> prefix[0] != '(')
    requires White(space) && ps != [] && forall p <- ps :: WellPlaced(p)
    ensures Tokenize(prefix + ":" + space + Join(ps)) == TokensIn(ps)
  {
    hide WellPlaced, TokensOf, SkipSpace, ColonAt, Join, White;
    var body := space + Join(ps);
    var line := prefix + ":" + body;
    assert prefix + ":" + space + Join(ps) == line;
    assert line[0] == if prefix == "" then ':' else prefix[0];
    ColonAfter(prefix, body);
    assert line[|prefix| + 1..] == body;
    SkipToFirst(space, ps, "");
    assert space + Join(ps) + "" == body && Join(Unblanked(ps)) + "" == Join(Unblanked(ps));
    JoinBlanks(ps);
    JoinedTokens(Unblanked(ps), NUL);
  }

  /** The same list inside an outer pair of parentheses: also how a list token is taken apart. */
  lemma ParenthesisedRoundTrip(ps: seq<Piece>)
    requires ps != [] && forall p <- ps :: WellPlaced(p)
    ensures Tokenize("(" + Join(ps) + ")") == TokensIn(ps)
  {
    hide WellPlaced, TokensOf, SkipSpace, Join;
    var body := Join(ps) + ")";
    var line := "(" + Join(ps) + ")";
    assert line == "(" + body;
    assert line[0] == '(' && line[1..] == body && line[|line| - 1] == ')';
    SkipToFirst("", ps, ")");
    assert "" + Join(ps) + ")" == body;
    var found := Join(Unblanked(ps)) + ")";
    assert found[..|found| - 1] == Join(Unblanked(ps));
    JoinBlanks(ps);
    JoinedTokens(Unblanked(ps), ')');
  }

  /** Without a parenthesis at its end, an opened list reaches to the end of the line. */
  lemma OpenedRoundTrip(ps: seq<Piece>)
    requires ps != [] && forall p <- ps :: WellPlaced(p)
    requires Join(ps) != "" && Join(ps)[|Join(ps)| - 1] != ')'
    ensures Tokenize("(" + Join(ps)) == TokensIn(ps) && Tokenize("") == []
  {
    hide WellPlaced, TokensOf, SkipSpace, Join;
    var line := "(" + Join(ps);
    assert line[0] == '(' && line[1..] == Join(ps) && line[|line| - 1] == Join(ps)[|Join(ps)| - 1];
    SkipToFirst("", ps, "");
    assert "" + Join(ps) + "" == Join(ps) && Join(Unblanked(ps)) + "" == Join(Unblanked(ps));
    JoinBlanks(ps);
    JoinedTokens(Unblanked(ps), NUL);
  }

  /** A line without a colon that does not start with a parenthesis is one token. */
  lemma BareLine(line: string)
    requires line != "" && ':' !in line && line[0] != '('
    ensures Tokenize(line) == [line]
  {
    NoColon(line);
  }

  lemma {:induction false} NoColon(s: string)
    requires ':' !in s
    ensures ColonAt(s) == |s|
  {
    if s == "" {
    } else {
      NoColon(s[1..]);
    }
  }

  /** A list that travels as one parenthesised token of another list survives both tokenizers. */
  lemma NestedRoundTrip(prefix: string, before: seq<Piece>, inner: seq<Piece>, blanks: nat, after: seq<Piece>)
    requires ':' !in prefix && (prefix != "" ==> prefix[0] != '(')
    requires inner != [] && forall p <- inner :: WellPlaced(p) && ')' !in p.token && ')' !in p.ignored
    requires (forall p <- before :: WellPlaced(p)) && forall p <- after :: WellPlaced(p)
    ensures var list := "(" + Join(inner) + ")";
      var tokens := Tokenize(prefix + ": " + Join(before + [Piece(blanks, list, "")] + after));
      && tokens == TokensIn(before) + [list] + TokensIn(after)
      && Tokenize(tokens[|before|]) == TokensIn(inner)
  {
    hide *;
    var list := "(" + Join(inner) + ")";
    var middle := Piece(blanks, list, "");
    ListPlaced(inner, middle);
    PrefixedRoundTrip(prefix, " ", before + [middle] + after);
    assert prefix + ":" + " " == prefix + ": ";
    TokensAround(before, middle, after);
    ParenthesisedRoundTrip(inner);
  }

  lemma ListPlaced(inner: seq<Piece>, middle: Piece)
    requires inner != [] && forall p <- inner :: ')' !in p.token && ')' !in p.ignored
    requires middle == Piece(middle.blanks, "(" + Join(inner) + ")", "")
    ensures WellPlaced(middle) && White(" ")
  {
    hide Join;
    JoinAvoids(inner);
    var t := middle.token;
    assert t[1..|t| - 1] == Join(inner);
    assert Enclosed(t, '(', ')');
  }

  lemma TokensAround(before: seq<Piece>, middle: Piece, after: seq<Piece>)
    ensures TokensIn(before + [middle] + after) == TokensIn(before) + [middle.token] + TokensIn(after)
  {
  }

  lemma {:induction false} JoinAvoids(ps: seq<Piece>)
    requires ps != [] && forall p <- ps :: ')' !in p.token && ')' !in p.ignored
    ensures ')' !in Join(ps)
    decreases |ps|
  {
    if |ps| == 1 {
    } else {
      JoinAvoids(ps[1..]);
    }
  }

  // ---------------------------------------------------------------------------------------
  // The program: one loop over the line with a type and the place where the token began.
  // ---------------------------------------------------------------------------------------

  datatype TokenType = NONE | RAW | STR | STR_FIN | PAREN | PAREN_FIN

  /** The mode that a type and the octets since begin amount to. */
  function ModeOf(t: TokenType, cur: string): Mode {
    match t
    case NONE => Between
    case RAW => Raw(cur)
    case STR => Str(cur)
    case PAREN => Paren(cur)
    case STR_FIN => Finished
    case PAREN_FIN => Finished
  }

  lemma ReadNext(m: Mode, s: string)
    requires s != ""
    ensures var first := Read(m, s[0]);
      var rest := ReadAll(first.mode, s[1..]);
      ReadAll(m, s) == Reading(rest.mode, first.tokens + rest.tokens)
  {
  }

  lemma ReadNone(m: Mode)
    ensures ReadAll(m, "") == Reading(m, [])
  {
  }

  /** What the character at pos does to the type and the beginning, and the token it completes. */
  method TokenStep(kind: TokenType, text: string, begin: nat, pos: nat)
    returns (kind': TokenType, begin': nat, completed: seq<string>)
    requires begin <= pos < |text|
    ensures begin' == begin || begin' == pos
    ensures Read(ModeOf(kind, text[begin..pos]), text[pos]) == Reading(ModeOf(kind', text[begin'..pos + 1]), completed)
  {
    var c := text[pos];
    kind', begin', completed := kind, begin, [];
    assert text[begin..pos] + [c] == text[begin..pos + 1] && text[pos..pos + 1] == [c];
    match kind {
      case NONE =>
        if c == '"' {
          kind' := STR;
        } else if c == ',' {
          completed := [""];
        } else if c == ' ' {
        } else if c == '(' {
          kind' := PAREN;
        } else {
          kind' := RAW;
        }
        begin' := pos;
      case STR =>
        if c == '"' {
          kind' := STR_FIN;
          completed := [text[begin..pos + 1]];
        }
      case PAREN =>
        if c == ')' {
          kind' := PAREN_FIN;
          completed := [text[begin..pos + 1]];
        }
      case RAW =>
        if c == ',' || c == NUL {
          kind' := NONE;
          completed := [text[begin..pos]];
        }
      case _ =>
        if c == ',' {
          kind' := NONE;
        }
    }
  }

  /** Reads the characters from start up to and including stop, where the line's NUL is at |line|. */
  method TokenLoop(line: string, start: nat, stop: nat) returns (tokens: seq<string>)
    requires start <= stop <= |line|
    ensures tokens == TokensOf(line[start..stop], if stop == |line| then NUL else line[stop])
  {
    hide ReadAll, Read;
    var pos, begin, kind := start, start, NONE;
    tokens := [];
    var z := if stop == |line| then NUL else line[stop];
    var text := line[..stop] + [z];
    ghost var goal := ReadAll(Between, text[start..]);
    assert text[start..] == line[start..stop] + [z];
    while pos <= stop
      invariant start <= begin <= pos <= stop + 1 && begin <= stop
      invariant var rest := ReadAll(ModeOf(kind, text[begin..pos]), text[pos..]);
        goal == Reading(rest.mode, tokens + rest.tokens)
    {
      ReadNext(ModeOf(kind, text[begin..pos]), text[pos..]);
      assert text[pos..][1..] == text[pos + 1..];
      var completed;
      kind, begin, completed := TokenStep(kind, text, begin, pos);
      tokens := tokens + completed;
      pos := pos + 1;
    }
    assert text[pos..] == "";
    ReadNone(ModeOf(kind, text[begin..pos]));
    assert text[begin..pos][..pos - begin - 1] == text[begin..stop];
    if kind == RAW {
      tokens := tokens + [text[begin..stop]];
    }
  }

  method FindColon(line: string) returns (pos: nat)
    ensures pos == ColonAt(line)
  {
    pos := 0;
    assert line[0..] == line;
    while pos < |line| && line[pos] != ':'
      invariant 0 <= pos <= |line|
      invariant ColonAt(line) == pos + ColonAt(line[pos..])
    {
      assert line[pos..][1..] == line[pos + 1..];
      pos := pos + 1;
    }
  }

  method SkipWhite(line: string, start: nat) returns (pos: nat)
    requires start <= |line|
    ensures start <= pos <= |line| && SkipSpace(line[start..]) == line[pos..]
    ensures forall i :: start <= i < pos ==> IsSpace(line[i])
  {
    pos := start;
    while pos < |line| && IsSpace(line[pos])
      invariant start <= pos <= |line|
      invariant SkipSpace(line[start..]) == SkipSpace(line[pos..])
      invariant forall i :: start <= i < pos ==> IsSpace(line[i])
    {
      assert line[pos..][1..] == line[pos + 1..];
      pos := pos + 1;
    }
  }

  method TokNew(line: string) returns (tokens: seq<string>)
    requires NUL !in line
    ensures tokens == Tokenize(line)
  {
    hide TokensOf, SkipSpace, ColonAt;
    if |line| == 0 {
      return [];
    }
    var pos, stop := 0, |line|;
    if line[0] == '(' {
      // List token container.
      if line[|line| - 1] == ')' {
        stop := |line| - 1;
      }
    } else {
      pos := FindColon(line);
      if pos == |line| {
        return [line];
      }
    }
    pos := SkipWhite(line, pos + 1);
    assert pos <= stop;
    assert stop < |line| ==> line[pos..][..|line[pos..]| - 1] == line[pos..stop];
    assert stop == |line| ==> line[pos..stop] == line[pos..];
    tokens := TokenLoop(line, pos, stop);
  }
}
