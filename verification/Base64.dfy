/**
  The base 64 encoding of RFC 4648 section 4, over strings whose characters stand for octets.
 */
module Base64 {

  import opened Wrappers

  predicate Octets(s: string) {
    forall i :: 0 <= i < |s| ==> s[i] as int < 256
  }

  /** The alphabet of RFC 4648 section 4. */
  function Symbol(v: int): (c: char)
    requires 0 <= v < 64
    ensures c != ' ' && c != ':' && c != '=' && 0 < c as int < 256
  {
    if v < 26 then 'A' + v as char
    else if v < 52 then 'a' + (v - 26) as char
    else if v < 62 then '0' + (v - 52) as char
    else if v == 62 then '+'
    else '/'
  }

  function Sextet(c: char): (v: Option<int>)
    ensures v.Some? ==> 0 <= v.value < 64
  {
    if 'A' <= c <= 'Z' then Some((c - 'A') as int)
    else if 'a' <= c <= 'z' then Some(26 + (c - 'a') as int)
    else if '0' <= c <= '9' then Some(52 + (c - '0') as int)
    else if c == '+' then Some(62)
    else if c == '/' then Some(63)
    else None
  }

  lemma SymbolRead(v: int)
    requires 0 <= v < 64
    ensures Sextet(Symbol(v)) == Some(v)
  {
  }

  function First(a: char): string
    requires a as int < 256
  {
    [Symbol(a as int / 4)]
  }

  /** The symbol that holds the end of octet a and the start of octet b. */
  function Second(a: char, b: char): string
    requires a as int < 256 && b as int < 256
  {
    [Symbol(a as int % 4 * 16 + b as int / 16)]
  }

  function Third(b: char, c: char): string
    requires b as int < 256 && c as int < 256
  {
    [Symbol(b as int % 16 * 4 + c as int / 64)]
  }

  function Fourth(c: char): string
    requires c as int < 256
  {
    [Symbol(c as int % 64)]
  }

  function Encode(s: string): (e: string)
    requires Octets(s)
    ensures ' ' !in e && ':' !in e
    ensures e == "" <==> s == ""
  {
    if |s| == 0 then ""
    else if |s| == 1 then First(s[0]) + Second(s[0], 0 as char) + "=="
    else if |s| == 2 then First(s[0]) + Second(s[0], s[1]) + Third(s[1], 0 as char) + "="
    else First(s[0]) + Second(s[0], s[1]) + Third(s[1], s[2]) + Fourth(s[2]) + Encode(s[3..])
  }

  function Octet0(v0: int, v1: int): (c: char)
    requires 0 <= v0 < 64 && 0 <= v1 < 64
    ensures c as int < 256
  {
    (v0 * 4 + v1 / 16) as char
  }

  function Octet1(v1: int, v2: int): (c: char)
    requires 0 <= v1 < 64 && 0 <= v2 < 64
    ensures c as int < 256
  {
    (v1 % 16 * 16 + v2 / 4) as char
  }

  function Octet2(v2: int, v3: int): (c: char)
    requires 0 <= v2 < 64 && 0 <= v3 < 64
    ensures c as int < 256
  {
    (v2 % 4 * 64 + v3) as char
  }

  /** None for a text that is not a sequence of groups of four symbols. */
  function Decode(e: string): (r: Option<string>)
    ensures r.Some? ==> Octets(r.value) && |r.value| <= |e| && (e != "" ==> |r.value| < |e|)
  {
    if e == "" then Some("")
    else if |e| < 4 then None
    else
      var v0, v1 := Sextet(e[0]), Sextet(e[1]);
      if v0.None? || v1.None? then None
      else
        var head := [Octet0(v0.value, v1.value)];
        if e[2..] == "==" then Some(head)
        else
          var v2 := Sextet(e[2]);
          if v2.None? then None
          else if e[3..] == "=" then Some(head + [Octet1(v1.value, v2.value)])
          else
            var v3, rest := Sextet(e[3]), Decode(e[4..]);
            if v3.None? || rest.None? then None
            else Some(head + [Octet1(v1.value, v2.value), Octet2(v2.value, v3.value)] + rest.value)
  }

  lemma OctetsRead(a: char, b: char, c: char)
    requires a as int < 256 && b as int < 256 && c as int < 256
    ensures Octet0(a as int / 4, a as int % 4 * 16 + b as int / 16) == a
    ensures Octet1(a as int % 4 * 16 + b as int / 16, b as int % 16 * 4 + c as int / 64) == b
    ensures Octet2(b as int % 16 * 4 + c as int / 64, c as int % 64) == c
  {
    Parts(a as int % 4, b as int / 16, 16);
    Parts(b as int % 16, c as int / 64, 4);
  }

  lemma Parts(q: int, r: int, n: int)
    requires n == 4 || n == 16
    requires 0 <= r < n
    ensures (q * n + r) / n == q && (q * n + r) % n == r
  {
  }

  lemma SymbolsRead(a: char, b: char, c: char)
    requires a as int < 256 && b as int < 256 && c as int < 256
    ensures Sextet(First(a)[0]) == Some(a as int / 4)
    ensures Sextet(Second(a, b)[0]) == Some(a as int % 4 * 16 + b as int / 16)
    ensures Sextet(Third(b, c)[0]) == Some(b as int % 16 * 4 + c as int / 64)
    ensures Sextet(Fourth(c)[0]) == Some(c as int % 64)
  {
    SymbolRead(a as int / 4);
    SymbolRead(a as int % 4 * 16 + b as int / 16);
    SymbolRead(b as int % 16 * 4 + c as int / 64);
    SymbolRead(c as int % 64);
  }

  /** One whole group of four symbols. */
  lemma DecodeGroup(q: string, v1: int, v2: int, v3: int, rest: string)
    requires |q| == 4 && Sextet(q[0]).Some?
    requires Sextet(q[1]) == Some(v1) && Sextet(q[2]) == Some(v2) && Sextet(q[3]) == Some(v3)
    requires Decode(rest).Some?
    ensures Decode(q + rest) == Some(
      [Octet0(Sextet(q[0]).value, v1), Octet1(v1, v2), Octet2(v2, v3)] + Decode(rest).value)
  {
    var e := q + rest;
    assert Sextet('=').None?;
    hide Sextet, Octet0, Octet1, Octet2;
    assert e[4..] == rest;
    assert e[2] != '=' && e[3] != '=';
    assert e[2..] != "==" by { assert e[2..][0] == e[2]; }
    assert e[3..] != "=" by { assert e[3..][0] == e[3]; }
    var o0, o1, o2 := Octet0(Sextet(q[0]).value, v1), Octet1(v1, v2), Octet2(v2, v3);
    assert [o0] + [o1, o2] + Decode(rest).value == [o0, o1, o2] + Decode(rest).value;
  }

  lemma OneOctet(a: char)
    requires a as int < 256
    ensures Decode(First(a) + Second(a, 0 as char) + "==") == Some([a])
  {
    SymbolsRead(a, 0 as char, 0 as char);
    OctetsRead(a, 0 as char, 0 as char);
    hide Sextet, Symbol, Octet0, Octet1, Octet2;
    var e := First(a) + Second(a, 0 as char) + "==";
    assert e[2..] == "==";
  }

  lemma TwoOctets(a: char, b: char)
    requires a as int < 256 && b as int < 256
    ensures Decode(First(a) + Second(a, b) + Third(b, 0 as char) + "=") == Some([a, b])
  {
    SymbolsRead(a, b, 0 as char);
    OctetsRead(a, b, 0 as char);
    hide Sextet, Octet0, Octet1, Octet2;
    assert [a] + [b] == [a, b];
    var e := First(a) + Second(a, b) + Third(b, 0 as char) + "=";
    assert e[2..] != "==" by { assert e[2..][0] == e[2] == Third(b, 0 as char)[0] != '='; }
    assert e[3..] == "=";
  }

  lemma ThreeOctets(a: char, b: char, c: char, rest: string)
    requires a as int < 256 && b as int < 256 && c as int < 256
    requires Decode(rest).Some?
    ensures Decode(First(a) + Second(a, b) + Third(b, c) + Fourth(c) + rest) == Some([a, b, c] + Decode(rest).value)
  {
    SymbolsRead(a, b, c);
    OctetsRead(a, b, c);
    var q := First(a) + Second(a, b) + Third(b, c) + Fourth(c);
    hide Sextet, Symbol, Octet0, Octet1, Octet2, Decode;
    DecodeGroup(q, a as int % 4 * 16 + b as int / 16, b as int % 16 * 4 + c as int / 64, c as int % 64, rest);
  }

  /** Decoding inverts encoding. */
  lemma {:induction false} RoundTrip(s: string)
    requires Octets(s)
    ensures Decode(Encode(s)) == Some(s)
  {
    hide Decode, First, Second, Third, Fourth;
    if |s| == 0 {
      DecodeNothing();
    } else if |s| == 1 {
      OneOctet(s[0]);
      assert s == [s[0]];
    } else if |s| == 2 {
      TwoOctets(s[0], s[1]);
      assert s == [s[0], s[1]];
    } else {
      RoundTrip(s[3..]);
      ThreeOctets(s[0], s[1], s[2], Encode(s[3..]));
      assert s == [s[0], s[1], s[2]] + s[3..];
    }
  }

  lemma DecodeNothing()
    ensures Decode("") == Some("")
  {
  }

  // ---------------------------------------------------------------------------------------
  // The alphabet and the groups by their values.
  // ---------------------------------------------------------------------------------------

  /** The character codes of the alphabet: A to Z, a to z, 0 to 9, plus, slash. */
  function Code(v: int): int {
    if v < 26 then v + 65 else if v < 52 then v + 71 else if v < 62 then v - 4 else if v == 62 then 43 else 47
  }

  lemma SymbolCode(v: int)
    requires 0 <= v < 64
    ensures Symbol(v) as int == Code(v)
  {
  }

  lemma Quotient(n: int, d: int, q: int, r: int)
    requires d in {4, 16, 64, 4096, 262144} && n == d * q + r && 0 <= r < d
    ensures n / d == q && n % d == r
  {
  }

  /** The bits of three octets end to end, cut into four numbers of six bits. */
  lemma Cuts(a: int, b: int, c: int)
    requires 0 <= a < 256 && 0 <= b < 256 && 0 <= c < 256
    ensures
      var n := a * 65536 + b * 256 + c;
      && n / 262144 == a / 4 && n / 4096 % 64 == a % 4 * 16 + b / 16
      && n / 64 % 64 == b % 16 * 4 + c / 64 && n % 64 == c % 64
  {
    var n := a * 65536 + b * 256 + c;
    var p, q, r, t, u, w := a / 4, a % 4, b / 16, b % 16, c / 64, c % 64;
    var second, third := q * 16 + r, t * 4 + u;
    assert a == 4 * p + q && b == 16 * r + t && c == 64 * u + w;
    Quotient(n, 262144, p, second * 4096 + third * 64 + w);
    Quotient(n, 4096, 64 * p + second, third * 64 + w);
    Quotient(64 * p + second, 64, p, second);
    Quotient(n, 64, 4096 * p + 64 * second + third, w);
    Quotient(4096 * p + 64 * second + third, 64, 64 * p + second, third);
  }

  function OctetOr0(s: string, i: nat): int {
    if i < |s| then s[i] as int else 0
  }

  lemma GroupSymbols(s: string)
    requires Octets(s) && s != ""
    ensures
      var a, b, c, e := s[0] as int, OctetOr0(s, 1), OctetOr0(s, 2), Encode(s);
      && |e| >= 4
      && e[0] == Symbol(a / 4) && e[1] == Symbol(a % 4 * 16 + b / 16)
      && e[2] == (if |s| > 1 then Symbol(b % 16 * 4 + c / 64) else '=')
      && e[3] == (if |s| > 2 then Symbol(c % 64) else '=')
      && e[4..] == if |s| > 3 then Encode(s[3..]) else ""
  {
    hide Symbol, Octets;
    if |s| == 1 {
      EncodeOne(s);
      hide Encode;
    } else if |s| == 2 {
      EncodeTwo(s);
      hide Encode;
    } else {
      EncodeMore(s);
      hide Encode;
    }
  }

  lemma EncodeOne(s: string)
    requires Octets(s) && |s| == 1
    ensures Encode(s) == First(s[0]) + Second(s[0], 0 as char) + "=="
  {
    hide First, Second, Third, Fourth;
  }

  lemma EncodeTwo(s: string)
    requires Octets(s) && |s| == 2
    ensures s[0] as int < 256 && s[1] as int < 256
    ensures Encode(s) == First(s[0]) + Second(s[0], s[1]) + Third(s[1], 0 as char) + "="
  {
    hide First, Second, Third, Fourth;
  }

  lemma EncodeMore(s: string)
    requires Octets(s) && |s| > 2
    ensures s[0] as int < 256 && s[1] as int < 256 && s[2] as int < 256 && Octets(s[3..])
    ensures Encode(s) == First(s[0]) + Second(s[0], s[1]) + Third(s[1], s[2]) + Fourth(s[2]) + Encode(s[3..])
    ensures |s| == 3 ==> Encode(s[3..]) == ""
  {
    hide First, Second, Third, Fourth;
    assert |s| == 3 ==> s[3..] == "";
  }

  lemma Bounded(s: string)
    requires Octets(s) && s != ""
    ensures 0 <= s[0] as int < 256 && 0 <= OctetOr0(s, 1) < 256 && 0 <= OctetOr0(s, 2) < 256
  {
  }

  lemma InRange(a: int, b: int, c: int)
    requires 0 <= a < 256 && 0 <= b < 256 && 0 <= c < 256
    ensures 0 <= a / 4 < 64 && 0 <= a % 4 * 16 + b / 16 < 64 && 0 <= b % 16 * 4 + c / 64 < 64 && 0 <= c % 64 < 64
  {
  }

  /**
    Three octets become four characters: those of the alphabet for the four times six bits of their
    twenty-four; one or two octets left at the end are filled up with zero bits and equals signs.
   */
  lemma GroupOfFour(s: string, n: int)
    requires Octets(s) && s != "" && n == s[0] as int * 65536 + OctetOr0(s, 1) * 256 + OctetOr0(s, 2)
    ensures
      var e := Encode(s);
      && |e| >= 4
      && e[0] as int == Code(n / 262144) && e[1] as int == Code(n / 4096 % 64)
      && e[2] as int == (if |s| > 1 then Code(n / 64 % 64) else 61)
      && e[3] as int == (if |s| > 2 then Code(n % 64) else 61)
      && e[4..] == if |s| > 3 then Encode(s[3..]) else ""
  {
    hide *;
    var a, b, c := s[0] as int, OctetOr0(s, 1), OctetOr0(s, 2);
    Bounded(s);
    Cuts(a, b, c);
    InRange(a, b, c);
    GroupSymbols(s);
    SymbolCode(a / 4);
    SymbolCode(a % 4 * 16 + b / 16);
    SymbolCode(b % 16 * 4 + c / 64);
    SymbolCode(c % 64);
  }
}
