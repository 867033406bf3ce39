/**
  Marshalling of nested tables into one line of text: "key:type:base64 " for each entry, a table
  inside a table being marshalled first and then encoded like any other text.
 */
module Marshal {

  import opened Wrappers
  import opened Base64

  const G_TYPE_BOOLEAN := 20
  const G_TYPE_INT := 24
  const G_TYPE_STRING := 64

  const INT_LIMIT := 0x8000_0000
  const WORD := 0x1_0000_0000

  /** The number the type system hands out for tables at start-up, above all fundamental types. */
  type TableType = t: int | 1020 < t < WORD witness 2000

  datatype Value =
    | Int(i: int)
    | Bool(b: bool)
    | Str(s: string)
    | Table(t: map<string, Value>)
    | Unread(gtype: int)

  /** A table in the order in which the hash table happens to enumerate it. */
  datatype Node = IntNode(i: int) | BoolNode(b: bool) | StrNode(s: string) | TableNode(entries: seq<Entry>)
  datatype Entry = Entry(key: string, node: Node)

  predicate CString(s: string) {
    Octets(s) && 0 as char !in s
  }

  predicate CleanKey(s: string) {
    ' ' !in s && ':' !in s
  }

  /** Keys and strings are C strings, numbers have 32 bits. */
  ghost predicate WellFormed(es: seq<Entry>) {
    forall e <- es :: CString(e.key) && NodeWellFormed(e.node)
  }

  ghost predicate NodeWellFormed(n: Node) {
    match n
    case IntNode(i) => -INT_LIMIT <= i < INT_LIMIT
    case BoolNode(_) => true
    case StrNode(s) => CString(s)
    case TableNode(es) => WellFormed(es)
  }

  /** No key, at any depth, has a character that separates entries or their parts. */
  ghost predicate Clean(es: seq<Entry>) {
    forall e <- es :: CleanKey(e.key) && CleanNode(e.node)
  }

  ghost predicate CleanNode(n: Node) {
    n.TableNode? ==> Clean(n.entries)
  }

  /** The table as such: what is left when the order is forgotten. */
  function Forget(es: seq<Entry>): map<string, Value> {
    if es == [] then map[] else Forget(es[..|es| - 1])[es[|es| - 1].key := ForgetNode(es[|es| - 1].node)]
  }

  function ForgetNode(n: Node): Value {
    match n
    case IntNode(i) => Int(i)
    case BoolNode(b) => Bool(b)
    case StrNode(s) => Str(s)
    case TableNode(es) => Table(Forget(es))
  }

  // ---------------------------------------------------------------------------------------
  // Numbers as text.
  // ---------------------------------------------------------------------------------------

  predicate Digit(c: char) {
    '0' <= c <= '9'
  }

  function Decimal(n: nat): (s: string)
    ensures s != "" && (forall c <- s :: Digit(c))
    ensures n >= 10 ==> |s| >= 2
  {
    if n < 10 then ['0' + n as char] else Decimal(n / 10) + ['0' + (n % 10) as char]
  }

  function Signed(i: int): string {
    if i < 0 then "-" + Decimal(-i) else Decimal(i)
  }

  function ReadDigits(s: string, acc: nat): nat
    decreases |s|
  {
    if s == "" || !Digit(s[0]) then acc else ReadDigits(s[1..], 10 * acc + (s[0] - '0') as int)
  }

  predicate Blank(c: char) {
    c == ' ' || 9 <= c as int <= 13
  }

  /** strtoll in base 10, before any clamping: blanks, a sign, digits, and whatever follows. */
  function ReadNumber(s: string): int
    decreases |s|
  {
    if s == "" then 0
    else if Blank(s[0]) then ReadNumber(s[1..])
    else if s[0] == '-' then 0 - ReadDigits(s[1..], 0)
    else if s[0] == '+' then ReadDigits(s[1..], 0)
    else ReadDigits(s, 0)
  }

  function Clamp(i: int): int {
    if i < -0x8000_0000_0000_0000 then -0x8000_0000_0000_0000
    else if i > 0x7FFF_FFFF_FFFF_FFFF then 0x7FFF_FFFF_FFFF_FFFF
    else i
  }

  /** The low 32 bits as a signed number. */
  function Narrow(i: int): int {
    var w := i % WORD;
    if w < INT_LIMIT then w else w - WORD
  }

  lemma {:induction false} ReadDigitsAppend(s: string, c: char, acc: nat)
    requires Digit(c) && (forall d <- s :: Digit(d))
    ensures ReadDigits(s + [c], acc) == 10 * ReadDigits(s, acc) + (c - '0') as int
    decreases |s|
  {
    if s == "" {
      assert [c][1..] == "";
    } else {
      assert (s + [c])[1..] == s[1..] + [c];
      assert s[0] in s;
      ReadDigitsAppend(s[1..], c, 10 * acc + (s[0] - '0') as int);
    }
  }

  lemma {:induction false} DecimalRead(n: nat)
    ensures ReadDigits(Decimal(n), 0) == n
  {
    if n < 10 {
      assert Decimal(n)[1..] == "";
    } else {
      DecimalRead(n / 10);
      ReadDigitsAppend(Decimal(n / 10), '0' + (n % 10) as char, 0);
    }
  }

  lemma SignedRead(i: int)
    ensures ReadNumber(Signed(i)) == i
    ensures CString(Signed(i)) && ' ' !in Signed(i) && ':' !in Signed(i)
  {
    assert forall k :: 0 <= k < |Signed(i)| ==> Signed(i)[k] in Signed(i);
    if i < 0 {
      DecimalRead(-i);
      assert Signed(i)[1..] == Decimal(-i);
      assert forall c <- Signed(i) :: Digit(c) || c == '-';
    } else {
      DecimalRead(i);
      assert Digit(Decimal(i)[0]);
    }
  }

  // ---------------------------------------------------------------------------------------
  // Splitting.
  // ---------------------------------------------------------------------------------------

  function Split(s: string, sep: char): (pieces: seq<string>)
    ensures |pieces| > 0
    ensures forall p <- pieces :: |p| <= |s|
    decreases |s|
  {
    if s == "" then [""]
    else
      var rest := Split(s[1..], sep);
      if s[0] == sep then [""] + rest else [[s[0]] + rest[0]] + rest[1..]
  }

  lemma SplitStep(c: char, s: string, sep: char)
    ensures Split([c] + s, sep) ==
      if c == sep then [""] + Split(s, sep) else [[c] + Split(s, sep)[0]] + Split(s, sep)[1..]
  {
    assert ([c] + s)[1..] == s;
  }

  lemma {:induction false} SplitPiece(p: string, sep: char)
    requires sep !in p
    ensures Split(p, sep) == [p]
    decreases |p|
  {
    if p == "" {
    } else {
      SplitPiece(p[1..], sep);
      SplitStep(p[0], p[1..], sep);
      assert p == [p[0]] + p[1..];
    }
  }

  lemma {:induction false} SplitFirst(p: string, sep: char, rest: string)
    requires sep !in p
    ensures Split(p + [sep] + rest, sep) == [p] + Split(rest, sep)
    decreases |p|
  {
    hide Split;
    if p == "" {
      SplitStep(sep, rest, sep);
      assert p + [sep] == [sep];
    } else {
      SplitFirst(p[1..], sep, rest);
      SplitStep(p[0], p[1..] + [sep] + rest, sep);
      assert p == [p[0]] + p[1..];
      assert p + [sep] + rest == [p[0]] + (p[1..] + [sep] + rest);
    }
  }

  // ---------------------------------------------------------------------------------------
  // Serializing.
  // ---------------------------------------------------------------------------------------

  function TypeOf(n: Node, h: TableType): int {
    match n
    case IntNode(_) => G_TYPE_INT
    case BoolNode(_) => G_TYPE_BOOLEAN
    case StrNode(_) => G_TYPE_STRING
    case TableNode(_) => h
  }

  /** What a value becomes when it is transformed to text. */
  ghost function TextOf(n: Node, h: TableType): (s: string)
    requires NodeWellFormed(n)
    ensures CString(s)
    decreases n
  {
    match n
    case IntNode(i) => SignedRead(i); Signed(i)
    case BoolNode(b) => if b then "TRUE" else "FALSE"
    case StrNode(s) => s
    case TableNode(es) => Serialized(es, h)
  }

  /** "key:type:content", the type printed as a signed 32-bit number. */
  ghost function PieceOf(e: Entry, h: TableType): (p: string)
    requires CString(e.key) && NodeWellFormed(e.node)
    ensures CString(p) && (CleanKey(e.key) ==> ' ' !in p)
    decreases e
  {
    SignedRead(Narrow(TypeOf(e.node, h)));
    var content := Encode(TextOf(e.node, h));
    EncodeCString(TextOf(e.node, h));
    e.key + ":" + Signed(Narrow(TypeOf(e.node, h))) + ":" + content
  }

  ghost function Serialized(es: seq<Entry>, h: TableType): (s: string)
    requires WellFormed(es)
    ensures CString(s)
    decreases es
  {
    if es == [] then "" else PieceOf(es[0], h) + " " + Serialized(es[1..], h)
  }

  lemma {:induction false} EncodeCString(s: string)
    requires Octets(s)
    ensures CString(Encode(s))
  {
    hide Symbol;
    if |s| > 2 {
      EncodeCString(s[3..]);
    }
  }

  // ---------------------------------------------------------------------------------------
  // Deserializing. None stands for a text on which the program reads past the end of a split.
  // ---------------------------------------------------------------------------------------

  /** A C string ends at its first NUL. */
  function UpToNul(s: string): (r: string)
    ensures |r| <= |s|
    ensures 0 as char !in s ==> r == s
  {
    if s == "" || s[0] == 0 as char then "" else [s[0]] + UpToNul(s[1..])
  }

  function Lower(c: char): char {
    if 'A' <= c <= 'Z' then c + ('a' - 'A') else c
  }

  /** At least four characters, and the first four spell "true" in any case. */
  predicate SpellsTrue(s: string) {
    |s| >= 4 && Lower(s[0]) == 't' && Lower(s[1]) == 'r' && Lower(s[2]) == 'u' && Lower(s[3]) == 'e'
  }

  function Convert(content: string, gtype: int, h: TableType): (v: Option<Value>)
    decreases |content|, 4
  {
    if gtype == h then
      var t := Deserialized(content, h);
      if t.None? then None else Some(Table(t.value))
    else if gtype == G_TYPE_INT then Some(Int(Narrow(Clamp(ReadNumber(content)))))
    else if gtype == G_TYPE_BOOLEAN then Some(Bool(SpellsTrue(content)))
    else if gtype == G_TYPE_STRING then Some(Str(content))
    else Some(Unread(gtype))
  }

  function ReadPiece(p: string, h: TableType): (r: Option<(string, Value)>)
    requires p != ""
    decreases |p|, 1
  {
    var inner := Split(p, ':');
    if |inner| < 3 then None
    else
      var content := Decode(inner[2]);
      if content.None? then None
      else
        assert |inner[2]| <= |p|;
        var v := Convert(UpToNul(content.value), ReadNumber(inner[1]) % WORD, h);
        if v.None? then None else Some((inner[0], v.value))
  }

  function Longest(pieces: seq<string>): (n: nat)
    ensures forall p <- pieces :: |p| <= n
    ensures n == 0 || exists p <- pieces :: |p| == n
  {
    if pieces == [] then 0
    else
      var m := Longest(pieces[1..]);
      if |pieces[0]| > m then |pieces[0]| else m
  }

  function ReadPieces(pieces: seq<string>, ht: map<string, Value>, h: TableType): Option<map<string, Value>>
    decreases Longest(pieces), 2, |pieces|
  {
    if pieces == [] then None
    else if |pieces[0]| <= 3 then Some(ht)
    else
      var e := ReadPiece(pieces[0], h);
      if e.None? then None else ReadPieces(pieces[1..], ht[e.value.0 := e.value.1], h)
  }

  function Deserialized(s: string, h: TableType): Option<map<string, Value>>
    decreases |s|, 3
  {
    if s == "" then Some(map[]) else ReadPieces(Split(s, ' '), map[], h)
  }

  method Serialize(es: seq<Entry>, h: TableType) returns (s: string)
    requires WellFormed(es)
    ensures s == Serialized(es, h)
    decreases es, 1
  {
    hide PieceOf;
    s := "";
    var i := 0;
    while i < |es|
      invariant 0 <= i <= |es|
      invariant Serialized(es, h) == s + Serialized(es[i..], h)
    {
      var piece := PrintPiece(es[i], h);
      assert es[i..][1..] == es[i + 1..];
      s := s + (piece + " ");
      i := i + 1;
    }
  }

  method PrintPiece(e: Entry, h: TableType) returns (piece: string)
    requires CString(e.key) && NodeWellFormed(e.node)
    ensures piece == PieceOf(e, h)
    decreases e, 0
  {
    hide TextOf, Signed, Narrow, Encode;
    var tmp := Transform(e.node, h);
    piece := e.key + ":" + Signed(Narrow(TypeOf(e.node, h))) + ":" + Encode(tmp);
  }

  method Transform(n: Node, h: TableType) returns (s: string)
    requires NodeWellFormed(n)
    ensures s == TextOf(n, h)
    decreases n, 0
  {
    match n
    case IntNode(i) => s := Signed(i);
    case BoolNode(b) => s := if b then "TRUE" else "FALSE";
    case StrNode(t) => s := t;
    case TableNode(es) => s := Serialize(es, h);
  }

  method Deserialize(s: string, h: TableType) returns (ht: Option<map<string, Value>>)
    ensures ht == Deserialized(s, h)
    decreases |s|, 1
  {
    hide Split, Decode, Convert, UpToNul, ReadNumber, ReadPieces;
    var t: map<string, Value> := map[];
    if s == "" {
      return Some(t);
    }
    var tuple := Split(s, ' ');
    var index := 0;
    while index < |tuple| && |tuple[index]| > 3
      invariant 0 <= index <= |tuple|
      invariant Deserialized(s, h) == ReadPieces(tuple[index..], t, h)
    {
      assert tuple[index..][1..] == tuple[index + 1..];
      NextPiece(tuple[index..], t, h);
      var inner := Split(tuple[index], ':');
      if |inner| < 3 {
        return None;
      }
      var content := Decode(inner[2]);
      if content.None? {
        return None;
      }
      var dest := ConvertStrToType(UpToNul(content.value), ReadNumber(inner[1]) % WORD, h);
      if dest.None? {
        return None;
      }
      t := t[inner[0] := dest.value];
      index := index + 1;
    }
    NextPiece(tuple[index..], t, h);
    ht := if index < |tuple| then Some(t) else None;
  }

  lemma NextPiece(pieces: seq<string>, ht: map<string, Value>, h: TableType)
    ensures pieces == [] ==> ReadPieces(pieces, ht, h).None?
    ensures pieces != [] && |pieces[0]| <= 3 ==> ReadPieces(pieces, ht, h) == Some(ht)
    ensures pieces != [] && |pieces[0]| > 3 ==>
      var e := ReadPiece(pieces[0], h);
      ReadPieces(pieces, ht, h)
      == if e.None? then None else ReadPieces(pieces[1..], ht[e.value.0 := e.value.1], h)
  {
    hide ReadPiece;
  }

  method ConvertStrToType(content: string, gtype: int, h: TableType) returns (v: Option<Value>)
    ensures v == Convert(content, gtype, h)
    decreases |content|, 2
  {
    if gtype == h {
      var t := Deserialize(content, h);
      return if t.None? then None else Some(Table(t.value));
    }
    if gtype == G_TYPE_INT {
      return Some(Int(Narrow(Clamp(ReadNumber(content)))));
    } else if gtype == G_TYPE_BOOLEAN {
      return Some(Bool(SpellsTrue(content)));
    } else if gtype == G_TYPE_STRING {
      return Some(Str(content));
    }
    return Some(Unread(gtype));
  }

  // ---------------------------------------------------------------------------------------
  // The round trip.
  // ---------------------------------------------------------------------------------------

  ghost function Pieces(es: seq<Entry>, h: TableType): (ps: seq<string>)
    requires WellFormed(es)
    ensures |ps| == |es|
  {
    if es == [] then [] else [PieceOf(es[0], h)] + Pieces(es[1..], h)
  }

  lemma {:induction false} SplitSerialized(es: seq<Entry>, h: TableType)
    requires WellFormed(es) && forall e <- es :: CleanKey(e.key)
    ensures Split(Serialized(es, h), ' ') == Pieces(es, h) + [""]
    decreases |es|
  {
    hide PieceOf, Split;
    if es == [] {
      SplitPiece("", ' ');
    } else {
      SplitSerialized(es[1..], h);
      SplitFirst(PieceOf(es[0], h), ' ', Serialized(es[1..], h));
    }
  }

  /** The three parts of a piece come apart at its two colons. */
  lemma SplitOfPiece(e: Entry, h: TableType)
    requires CString(e.key) && CleanKey(e.key) && NodeWellFormed(e.node)
    ensures |PieceOf(e, h)| > 3
    ensures Split(PieceOf(e, h), ':') ==
      [e.key, Signed(Narrow(TypeOf(e.node, h))), Encode(TextOf(e.node, h))]
  {
    hide Narrow, ReadNumber, Split, Encode, Signed, TypeOf;
    TypeHasTwoDigits(e.node, h);
    SignedRead(Narrow(TypeOf(e.node, h)));
    SplitThree(e.key, Signed(Narrow(TypeOf(e.node, h))), Encode(TextOf(e.node, h)), ':');
  }

  lemma SplitThree(a: string, b: string, c: string, sep: char)
    requires sep !in a && sep !in b && sep !in c
    ensures Split(a + [sep] + b + [sep] + c, sep) == [a, b, c]
  {
    hide Split;
    SplitPiece(c, sep);
    SplitFirst(b, sep, c);
    SplitFirst(a, sep, b + [sep] + c);
    assert a + [sep] + b + [sep] + c == a + [sep] + (b + [sep] + c);
  }

  lemma TypeHasTwoDigits(n: Node, h: TableType)
    ensures |Signed(Narrow(TypeOf(n, h)))| >= 2
    ensures Narrow(TypeOf(n, h)) % WORD == TypeOf(n, h)
  {
    hide Decimal;
  }

  lemma ReadSmall(i: int)
    requires -INT_LIMIT <= i < INT_LIMIT
    ensures Narrow(Clamp(i)) == i
  {
  }

  lemma PieceRead(e: Entry, h: TableType)
    requires CString(e.key) && CleanKey(e.key) && NodeWellFormed(e.node)
    requires Convert(TextOf(e.node, h), TypeOf(e.node, h), h) == Some(ForgetNode(e.node))
    ensures |PieceOf(e, h)| > 3
    ensures ReadPiece(PieceOf(e, h), h) == Some((e.key, ForgetNode(e.node)))
  {
    hide PieceOf, TextOf, Convert, Signed, Narrow, TypeOf, Split, Encode, Decode, UpToNul;
    SplitOfPiece(e, h);
    TypeHasTwoDigits(e.node, h);
    SignedRead(Narrow(TypeOf(e.node, h)));
    RoundTrip(TextOf(e.node, h));
  }

  lemma {:induction false} NodeRead(n: Node, h: TableType)
    requires NodeWellFormed(n) && CleanNode(n)
    ensures Convert(TextOf(n, h), TypeOf(n, h), h) == Some(ForgetNode(n))
    decreases n, 0
  {
    match n
    case IntNode(i) =>
      SignedRead(i);
      ReadSmall(i);
    case BoolNode(_) =>
    case StrNode(_) =>
    case TableNode(es) => MarshalRoundTrip(es, h);
  }

  /** Inserting the entries one after the other, as the reader does. */
  function InsertAll(ht: map<string, Value>, es: seq<Entry>): map<string, Value>
    decreases |es|
  {
    if es == [] then ht else InsertAll(ht[es[0].key := ForgetNode(es[0].node)], es[1..])
  }

  lemma {:induction false} InsertAllForget(done: seq<Entry>, es: seq<Entry>)
    ensures InsertAll(Forget(done), es) == Forget(done + es)
    decreases |es|
  {
    if es == [] {
      assert done + es == done;
    } else {
      var next := done + [es[0]];
      assert next[..|next| - 1] == done;
      InsertAllForget(next, es[1..]);
      assert next + es[1..] == done + es;
    }
  }

  lemma {:induction false} PiecesRead(es: seq<Entry>, ht: map<string, Value>, h: TableType)
    requires WellFormed(es) && Clean(es)
    ensures ReadPieces(Pieces(es, h) + [""], ht, h) == Some(InsertAll(ht, es))
    decreases es, 0
  {
    hide PieceOf, ReadPiece, ForgetNode, TextOf, Convert, TypeOf;
    if es == [] {
    } else {
      NodeRead(es[0].node, h);
      PieceRead(es[0], h);
      PiecesRead(es[1..], ht[es[0].key := ForgetNode(es[0].node)], h);
      assert (Pieces(es, h) + [""])[1..] == Pieces(es[1..], h) + [""];
    }
  }

  /**
    Reading back what was written gives the table itself, whatever the order in which each of its
    tables was enumerated, and however deeply they are nested.
   */
  lemma {:induction false} MarshalRoundTrip(es: seq<Entry>, h: TableType)
    requires WellFormed(es) && Clean(es)
    ensures Deserialized(Serialized(es, h), h) == Some(Forget(es))
    decreases es, 1
  {
    hide PieceOf, ReadPieces;
    if es == [] {
    } else {
      SplitSerialized(es, h);
      PiecesRead(es, map[], h);
      InsertAllForget([], es);
      assert [] + es == es;
    }
  }

  // ---------------------------------------------------------------------------------------
  // Forgetting the order.
  // ---------------------------------------------------------------------------------------

  /** A hash table holds each key once. */
  predicate KeysOnce(es: seq<Entry>) {
    forall i, j :: 0 <= i < j < |es| ==> es[i].key != es[j].key
  }

  lemma {:induction false} ForgetFinds(es: seq<Entry>, k: string)
    requires KeysOnce(es)
    ensures k in Forget(es) <==> exists i :: 0 <= i < |es| && es[i].key == k
    ensures forall i :: 0 <= i < |es| && es[i].key == k ==> Forget(es)[k] == ForgetNode(es[i].node)
    decreases |es|
  {
    if es == [] {
    } else {
      var last := |es| - 1;
      ForgetFinds(es[..last], k);
      assert forall i :: 0 <= i < last ==> es[..last][i] == es[i];
      if es[last].key == k {
      } else if k in Forget(es[..last]) {
        var i :| 0 <= i < last && es[..last][i].key == k;
        assert es[i].key == k;
      }
    }
  }

  /** Two enumerations of the same entries are written differently but read back as one table. */
  lemma OrderIsForgotten(es: seq<Entry>, fs: seq<Entry>, h: TableType)
    requires WellFormed(es) && WellFormed(fs) && Clean(es) && Clean(fs)
    requires KeysOnce(es) && KeysOnce(fs) && (forall e :: e in es <==> e in fs)
    ensures Deserialized(Serialized(es, h), h) == Deserialized(Serialized(fs, h), h)
  {
    hide Deserialized, Serialized, ForgetNode;
    MarshalRoundTrip(es, h);
    MarshalRoundTrip(fs, h);
    forall k
      ensures k in Forget(es) <==> k in Forget(fs)
      ensures k in Forget(es) ==> Forget(es)[k] == Forget(fs)[k]
    {
      ForgetFinds(es, k);
      ForgetFinds(fs, k);
      if i :| 0 <= i < |es| && es[i].key == k {
        assert es[i] in fs;
      }
      if j :| 0 <= j < |fs| && fs[j].key == k {
        assert fs[j] in es;
      }
    }
    assert Forget(es) == Forget(fs);
  }

  // ---------------------------------------------------------------------------------------
  // The keys have to be clean.
  // ---------------------------------------------------------------------------------------

  /** A hash table holds each key once, and so do the tables in it. */
  ghost predicate KeysOnceDeep(es: seq<Entry>) {
    KeysOnce(es) && forall e <- es :: e.node.TableNode? ==> KeysOnceDeep(e.node.entries)
  }

  ghost predicate CleanValue(v: Value) {
    v.Table? ==> forall k <- v.t :: CleanKey(k) && CleanValue(v.t[k])
  }

  lemma {:induction false} SplitParts(s: string, sep: char)
    ensures forall p <- Split(s, sep) :: sep !in p && forall c <- p :: c in s
    decreases |s|
  {
    if s == "" {
    } else {
      SplitParts(s[1..], sep);
      var rest := Split(s[1..], sep);
      forall p | p in Split(s, sep)
        ensures sep !in p && forall c <- p :: c in s
      {
        if p !in rest && p != "" {
          assert p == [s[0]] + rest[0] && rest[0] in rest;
        }
      }
    }
  }

  lemma ConvertClean(content: string, gtype: int, h: TableType)
    ensures Convert(content, gtype, h).Some? ==> CleanValue(Convert(content, gtype, h).value)
    decreases |content|, 4
  {
    hide Deserialized;
    if gtype == h {
      DeserializedClean(content, h);
    }
  }

  lemma ReadPieceClean(p: string, h: TableType)
    requires p != "" && ' ' !in p
    ensures
      var r := ReadPiece(p, h);
      r.Some? ==> CleanKey(r.value.0) && CleanValue(r.value.1)
    decreases |p|, 1
  {
    hide Convert, CleanValue, Split, Decode, ReadNumber, UpToNul;
    SplitParts(p, ':');
    var inner := Split(p, ':');
    if |inner| >= 3 {
      assert inner[0] in inner && inner[2] in inner;
      var content := Decode(inner[2]);
      if content.Some? {
        ConvertClean(UpToNul(content.value), ReadNumber(inner[1]) % WORD, h);
      }
    }
  }

  lemma {:induction false} ReadPiecesClean(pieces: seq<string>, ht: map<string, Value>, h: TableType)
    requires (forall p <- pieces :: ' ' !in p) && CleanValue(Table(ht))
    ensures
      var r := ReadPieces(pieces, ht, h);
      r.Some? ==> CleanValue(Table(r.value))
    decreases Longest(pieces), 2, |pieces|
  {
    hide ReadPiece;
    if pieces != [] && |pieces[0]| > 3 {
      ReadPieceClean(pieces[0], h);
      var e := ReadPiece(pieces[0], h);
      if e.Some? {
        ReadPiecesClean(pieces[1..], ht[e.value.0 := e.value.1], h);
      }
    }
  }

  /** Whatever text is read, the table that comes out has clean keys only. */
  lemma DeserializedClean(s: string, h: TableType)
    ensures Deserialized(s, h).Some? ==> CleanValue(Table(Deserialized(s, h).value))
    decreases |s|, 3
  {
    if s != "" {
      SplitParts(s, ' ');
      hide Split;
      ReadPiecesClean(Split(s, ' '), map[], h);
    }
  }

  lemma {:induction false} CleanFromValue(es: seq<Entry>)
    requires KeysOnceDeep(es) && CleanValue(Table(Forget(es)))
    ensures Clean(es)
    decreases es
  {
    forall e | e in es
      ensures CleanKey(e.key) && CleanNode(e.node)
    {
      ForgetFinds(es, e.key);
      var m := Forget(es);
      assert e.key in m && m[e.key] == ForgetNode(e.node);
      if e.node.TableNode? {
        CleanFromValue(e.node.entries);
      }
    }
  }

  /** A table comes back as it was exactly when its keys are clean, at every depth. */
  lemma MarshalExactly(es: seq<Entry>, h: TableType)
    requires WellFormed(es) && KeysOnceDeep(es)
    ensures Deserialized(Serialized(es, h), h) == Some(Forget(es)) <==> Clean(es)
  {
    hide Deserialized, Serialized, CleanValue, Forget, Clean;
    if Clean(es) {
      MarshalRoundTrip(es, h);
    } else if Deserialized(Serialized(es, h), h) == Some(Forget(es)) {
      DeserializedClean(Serialized(es, h), h);
      CleanFromValue(es);
    }
  }

  // ---------------------------------------------------------------------------------------
  // The text by its characters.
  // ---------------------------------------------------------------------------------------

  /** A number is written by its decimal digits, the last one last. */
  lemma DecimalDigits(n: nat)
    ensures Decimal(n) == (if n < 10 then [] else Decimal(n / 10)) + [(48 + n % 10) as char]
    ensures Signed(n) == Decimal(n) && (n > 0 ==> Signed(0 - (n as int)) == "-" + Decimal(n))
  {
  }

  /** The text of an entry of one piece, and of those behind it. */
  function Line(key: string, gtype: string, content: string, rest: string): string {
    key + ":" + gtype + ":" + content + " " + rest
  }

  lemma FirstEntry(e: Entry, rest: seq<Entry>)
    requires WellFormed([e] + rest)
    ensures WellFormed(rest) && CString(e.key) && NodeWellFormed(e.node)
  {
    assert e in [e] + rest && forall x <- rest :: x in [e] + rest;
  }

  lemma LineOfEntry(e: Entry, rest: seq<Entry>, h: TableType)
    requires WellFormed([e] + rest)
    ensures WellFormed(rest) && NodeWellFormed(e.node)
    ensures Serialized([e] + rest, h)
      == Line(e.key, Signed(Narrow(TypeOf(e.node, h))), Encode(TextOf(e.node, h)), Serialized(rest, h))
  {
    FirstEntry(e, rest);
    assert ([e] + rest)[0] == e && ([e] + rest)[1..] == rest;
    hide Encode, Signed, Narrow, TypeOf, TextOf;
    LineIs(e, Serialized(rest, h), h);
  }

  lemma LineIs(e: Entry, rest: string, h: TableType)
    requires CString(e.key) && NodeWellFormed(e.node)
    ensures PieceOf(e, h) + " " + rest
      == Line(e.key, Signed(Narrow(TypeOf(e.node, h))), Encode(TextOf(e.node, h)), rest)
  {
    hide Encode, Signed, Narrow, TypeOf, TextOf;
  }

  /** A number is written under type 24, by its digits in base 64. */
  lemma IntEntry(key: string, i: int, rest: seq<Entry>, h: TableType)
    requires WellFormed([Entry(key, IntNode(i))] + rest)
    ensures WellFormed(rest) && Octets(Signed(i))
    ensures Serialized([Entry(key, IntNode(i))] + rest, h) == Line(key, "24", Encode(Signed(i)), Serialized(rest, h))
  {
    LineOfEntry(Entry(key, IntNode(i)), rest, h);
    TypeTexts();
    hide Encode, Signed, Narrow, Line, Serialized;
    SignedRead(i);
  }

  /** A truth value is written under type 20, as TRUE or FALSE in base 64. */
  lemma BoolEntry(key: string, b: bool, rest: seq<Entry>, h: TableType)
    requires WellFormed([Entry(key, BoolNode(b))] + rest)
    ensures WellFormed(rest)
    ensures Serialized([Entry(key, BoolNode(b))] + rest, h)
      == Line(key, "20", if b then "VFJVRQ==" else "RkFMU0U=", Serialized(rest, h))
  {
    LineOfEntry(Entry(key, BoolNode(b)), rest, h);
    TypeTexts();
    TrueText();
    FalseText();
    hide Encode, Signed, Narrow, Line, Serialized;
  }

  /** A string is written under type 64, its own characters in base 64. */
  lemma StringEntry(key: string, t: string, rest: seq<Entry>, h: TableType)
    requires WellFormed([Entry(key, StrNode(t))] + rest)
    ensures WellFormed(rest) && Octets(t)
    ensures Serialized([Entry(key, StrNode(t))] + rest, h) == Line(key, "64", Encode(t), Serialized(rest, h))
  {
    LineOfEntry(Entry(key, StrNode(t)), rest, h);
    TypeTexts();
    hide Encode, Signed, Narrow, Line, Serialized;
  }

  /** A table is written under its own type number, its own text in base 64. */
  lemma TableEntry(key: string, es: seq<Entry>, rest: seq<Entry>, h: TableType)
    requires WellFormed([Entry(key, TableNode(es))] + rest)
    ensures WellFormed(rest) && WellFormed(es) && Octets(Serialized(es, h))
    ensures Serialized([Entry(key, TableNode(es))] + rest, h)
      == Line(key, Signed(Narrow(h)), Encode(Serialized(es, h)), Serialized(rest, h))
  {
    LineOfEntry(Entry(key, TableNode(es)), rest, h);
    TypeTexts();
    hide Encode, Signed, Narrow, Line, Serialized;
  }

  lemma TypeTexts()
    ensures Narrow(G_TYPE_INT) == 24 && Narrow(G_TYPE_BOOLEAN) == 20 && Narrow(G_TYPE_STRING) == 64
    ensures Signed(24) == "24" && Signed(20) == "20" && Signed(64) == "64"
  {
    assert Decimal(2) == "2" && Decimal(6) == "6";
  }

  lemma TrueText()
    ensures Encode("TRUE") == "VFJVRQ=="
  {
    var s := "TRUE";
    assert s[0] == 'T' && s[1] == 'R' && s[2] == 'U' && s[3..] == "E";
    assert OctetOr0(s, 1) == 82 && OctetOr0(s, 2) == 85 && OctetOr0("E", 1) == 0 && OctetOr0("E", 2) == 0;
    hide Encode, OctetOr0;
    GroupOfFour(s, 5526101);
    GroupOfFour("E", 4521984);
    assert Encode(s) == Encode(s)[..4] + Encode(s)[4..];
  }

  lemma FalseText()
    ensures Encode("FALSE") == "RkFMU0U="
  {
    var s, end := "FALSE", "SE";
    assert s[0] == 'F' && s[1] == 'A' && s[2] == 'L' && s[3..] == end && end[0] == 'S';
    assert OctetOr0(s, 1) == 65 && OctetOr0(s, 2) == 76 && OctetOr0(end, 1) == 69 && OctetOr0(end, 2) == 0;
    assert Octets(s) && Octets(end);
    hide Encode, OctetOr0, Octets;
    GroupOfFour(s, 4604236);
    GroupOfFour(end, 5457152);
    assert Encode(end) == "U0U=";
    assert Encode(s) == Encode(s)[..4] + Encode(s)[4..];
  }

  /** A truth value is read from its first four characters, in any case; a number up to what is no digit. */
  lemma ContentRead(content: string, h: TableType)
    ensures Convert(content, 20, h) == Some(Bool(
      |content| >= 4 && content[0] in "tT" && content[1] in "rR" && content[2] in "uU" && content[3] in "eE"))
    ensures Convert(content, 64, h) == Some(Str(content))
  {
  }

  lemma {:induction false} DigitsStop(digits: string, rest: string, acc: nat)
    requires (forall c <- digits :: Digit(c)) && (rest != "" ==> !Digit(rest[0]))
    ensures ReadDigits(digits + rest, acc) == ReadDigits(digits, acc)
    decreases |digits|
  {
    if digits == "" {
      assert digits + rest == rest;
    } else {
      assert (digits + rest)[0] == digits[0] && (digits + rest)[1..] == digits[1..] + rest;
      assert digits[0] in digits;
      DigitsStop(digits[1..], rest, 10 * acc + (digits[0] - '0') as int);
    }
  }

  /** A number stands behind white space and a sign, if any, and ends at the first character that is no digit. */
  lemma {:induction false} NumberText(blanks: string, sign: string, n: nat, rest: string)
    requires forall c <- blanks :: c in " \t\n\r\U{000B}\U{000C}"
    requires sign in ["", "+", "-"] && (rest != "" ==> !('0' <= rest[0] <= '9'))
    ensures ReadNumber(blanks + sign + Decimal(n) + rest) == if sign == "-" then 0 - n else n
    decreases |blanks|
  {
    var s := blanks + sign + Decimal(n) + rest;
    if blanks == "" {
      DecimalRead(n);
      DigitsStop(Decimal(n), rest, 0);
      assert Decimal(n)[0] in Decimal(n);
      hide Decimal, ReadDigits;
      if sign == "" {
        assert s == Decimal(n) + rest && s[0] == Decimal(n)[0];
      } else {
        assert s[0] == sign[0] && s[1..] == Decimal(n) + rest;
      }
    } else {
      assert s[0] == blanks[0] && s[1..] == blanks[1..] + sign + Decimal(n) + rest;
      assert blanks[0] in blanks;
      hide Decimal;
      NumberText(blanks[1..], sign, n, rest);
    }
  }

  /** The number is kept within 64 bits with a sign, and of that its lower 32 bits are read, with a sign again. */
  lemma NumberRead(content: string, h: TableType)
    ensures
      var n, v := ReadNumber(content), Convert(content, 24, h);
      && v.Some? && v.value.Int? && -0x8000_0000 <= v.value.i < 0x8000_0000
      && if n < -0x8000_0000_0000_0000 then v.value.i == 0
         else if n > 0x7FFF_FFFF_FFFF_FFFF then v.value.i == -1
         else (n - v.value.i) % 0x1_0000_0000 == 0
  {
    hide ReadNumber;
  }

  /** An entry is read by the number of its type modulo 2 to the power of 32, and its content up to the first NUL. */
  lemma EntryRead(key: string, t: int, content: string, more: string, h: TableType)
    requires ':' !in key && 0 as char !in content && Octets(content + more)
    requires more != "" ==> more[0] == 0 as char
    ensures ReadPiece(key + ":" + Signed(t) + ":" + Encode(content + more), h) ==
      match Convert(content, t % 0x1_0000_0000, h)
      case None => None
      case Some(v) => Some((key, v))
  {
    SignedRead(t);
    RoundTrip(content + more);
    NulEnds(content, more);
    hide Signed, Encode, Decode, Convert, UpToNul, Split, ReadNumber;
    SplitThree(key, Signed(t), Encode(content + more), ':');
    assert key + [':'] + Signed(t) + [':'] + Encode(content + more)
      == key + ":" + Signed(t) + ":" + Encode(content + more);
  }

  lemma {:induction false} NulEnds(content: string, more: string)
    requires 0 as char !in content && (more != "" ==> more[0] == 0 as char)
    ensures UpToNul(content + more) == content
    decreases |content|
  {
    if content == "" {
      assert content + more == more;
    } else {
      assert (content + more)[0] == content[0] && (content + more)[1..] == content[1..] + more;
      NulEnds(content[1..], more);
    }
  }

  /** Other types are left unread. */
  lemma OthersUnread(content: string, gtype: int, h: TableType)
    requires gtype !in {20, 24, 64, h as int}
    ensures Convert(content, gtype, h) == Some(Unread(gtype))
  {
  }

  /** A piece of at most three characters ends the text, whatever follows. */
  lemma ShortPieceEnds(p: string, rest: string, h: TableType)
    requires ' ' !in p && |p| <= 3
    ensures Deserialized(p + " " + rest, h) == Some(map[])
  {
    SplitFirst(p, ' ', rest);
    assert p + [' '] + rest == p + " " + rest;
    hide Split;
  }

  lemma NoParts(p: string, h: TableType)
    requires p != "" && |Split(p, ':')| < 3
    ensures ReadPiece(p, h).None?
  {
  }

  /** A longer one without two colons is read past its end. */
  lemma PieceWithoutParts(p: string, rest: string, h: TableType)
    requires ' ' !in p && |p| > 3 && |Split(p, ':')| < 3
    ensures Deserialized(p + " " + rest, h) == None
  {
    NoParts(p, h);
    SplitFirst(p, ' ', rest);
    assert p + [' '] + rest == p + " " + rest;
    hide Split, ReadPiece;
  }
}
