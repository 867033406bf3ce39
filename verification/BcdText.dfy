/**
  The other reader of BCD numbers, used for toolkit commands: it leaves out the nibbles that are no
  digits wherever they stand, and writes a pause in lower case.
 */
module BcdText {

  import opened SimXdn

  function Shown(n: byte): (s: seq<byte>)
    requires n < 16
    ensures |s| <= 1
  {
    if n >= 0x0E then [] else if n == 0x0C then ['p' as int] else [DigitOf(n)]
  }

  function Kept(bcd: seq<byte>): (s: seq<byte>)
    ensures |s| <= 2 * |bcd|
  {
    if bcd == [] then [] else Shown(bcd[0] % 16) + Shown(bcd[0] / 16) + Kept(bcd[1..])
  }

  method ShowNibble(n: byte, dest: array<byte>, length: nat) returns (m: nat)
    requires n < 16 && length < dest.Length
    modifies dest
    ensures m == length + |Shown(n)| && dest[..m] == old(dest[..length]) + Shown(n)
    ensures forall k :: m <= k < dest.Length ==> dest[k] == old(dest[k])
  {
    m := length;
    if n == 0x0A {
      dest[m] := '*' as int;
      m := m + 1;
    } else if n == 0x0B {
      dest[m] := '#' as int;
      m := m + 1;
    } else if n == 0x0C {
      dest[m] := 'p' as int;
      m := m + 1;
    } else if n == 0x0D {
      dest[m] := '?' as int;
      m := m + 1;
    } else if n < 0x0A {
      dest[m] := n + '0' as int;
      m := m + 1;
    }
  }

  method ConvertBcdToAscii(src: seq<byte>, maxLength: nat) returns (dest: array?<byte>)
    ensures dest == null <==> 2 * |src| > maxLength
    ensures dest != null ==> fresh(dest) && dest.Length == 2 * |src| + 1
    ensures dest != null ==> dest[..|Kept(src)|] == Kept(src)
    ensures dest != null ==> forall k :: |Kept(src)| <= k < dest.Length ==> dest[k] == 0
  {
    if |src| * 2 > maxLength {
      return null;
    }
    hide Kept;
    var d := new byte[|src| * 2 + 1](_ => 0);
    var length := FillShown(src, d);
    dest := d;
  }

  method FillShown(src: seq<byte>, d: array<byte>) returns (length: nat)
    requires d.Length == 2 * |src| + 1 && forall k :: 0 <= k < d.Length ==> d[k] == 0
    modifies d
    ensures length <= 2 * |src| && d[..length] == Kept(src)
    ensures forall k :: length <= k < d.Length ==> d[k] == 0
  {
    hide Shown, Kept;
    length := 0;
    ghost var done: seq<byte> := [];
    KeptStep(src, 0);
    for index := 0 to |src|
      invariant length <= 2 * index && d[..length] == done
      invariant Kept(src) == done + Kept(src[index..])
      invariant forall k :: length <= k < d.Length ==> d[k] == 0
    {
      KeptStep(src, index);
      ghost var a, b := Shown(src[index] % 16), Shown(src[index] / 16);
      Regroup(done, a, b, Kept(src[index + 1..]));
      length := ShowPair(src[index], d, length);
      done := done + a + b;
    }
    KeptStep(src, |src|);
  }

  lemma Regroup(a: seq<byte>, b: seq<byte>, c: seq<byte>, d: seq<byte>)
    ensures a + (b + c + d) == a + b + c + d
  {
  }

  lemma KeptStep(src: seq<byte>, i: nat)
    requires i <= |src|
    ensures src[0..] == src
    ensures i == |src| ==> Kept(src[i..]) == []
    ensures i < |src| ==> Kept(src[i..]) == Shown(src[i] % 16) + Shown(src[i] / 16) + Kept(src[i + 1..])
  {
    hide Shown;
    if i < |src| {
      assert src[i..][1..] == src[i + 1..];
    }
  }

  method ShowPair(b: byte, dest: array<byte>, length: nat) returns (m: nat)
    requires length + 1 < dest.Length
    modifies dest
    ensures length <= m <= length + 2
    ensures dest[..m] == old(dest[..length]) + Shown(b % 16) + Shown(b / 16)
    ensures forall k :: m <= k < dest.Length ==> dest[k] == old(dest[k])
  {
    hide Shown;
    m := ShowNibble(b % 16, dest, length);
    m := ShowNibble(b / 16, dest, m);
  }

  function LowerPause(c: byte): byte {
    if c == 'P' as int then 'p' as int else c
  }

  function Lowered(number: seq<byte>): (r: seq<byte>)
    ensures |r| == |number|
  {
    seq(|number|, i requires 0 <= i < |number| => LowerPause(number[i]))
  }

  lemma ShownSurvives(c: byte)
    ensures Shown(NibbleOf(c)) == [LowerPause(c)] <==> InAlphabet(c)
  {
  }

  lemma PairsStep(number: seq<byte>)
    requires |number| >= 2
    ensures Pairs(number) == [PairOf(number, 0)] + Pairs(number[2..])
  {
    hide NibbleOf;
    assert forall j :: 0 <= j < |Pairs(number[2..])| ==> PairOf(number, j + 1) == PairOf(number[2..], j);
  }

  lemma KeptPairs(number: seq<byte>)
    ensures |number| == 1 ==> Kept(Pairs(number)) == Shown(NibbleOf(number[0]))
    ensures |number| >= 2 ==>
      Kept(Pairs(number)) == Shown(NibbleOf(number[0])) + Shown(NibbleOf(number[1])) + Kept(Pairs(number[2..]))
  {
    hide NibbleOf;
    if |number| >= 2 {
      PairsStep(number);
      assert PairOf(number, 0) % 16 == NibbleOf(number[0]) && PairOf(number, 0) / 16 == NibbleOf(number[1]);
      assert Pairs(number)[1..] == Pairs(number[2..]);
    } else if |number| == 1 {
      assert Pairs(number)[1..] == [];
      assert PairOf(number, 0) % 16 == NibbleOf(number[0]) && PairOf(number, 0) / 16 == 0x0F;
    }
  }

  lemma {:induction false} KeptIsShorter(number: seq<byte>)
    ensures |Kept(Pairs(number))| <= |number|
    decreases |number|
  {
    hide NibbleOf, Pairs;
    KeptPairs(number);
    if |number| >= 2 {
      KeptIsShorter(number[2..]);
    } else if number == [] {
      NoPairs();
    }
  }

  lemma NoPairs()
    ensures Pairs([]) == []
  {
  }

  /** A packed number is shown as it was, pauses in lower case, exactly when it is in the alphabet. */
  lemma {:induction false} ShownRoundTrip(number: seq<byte>)
    ensures Kept(Pairs(number)) == Lowered(number) <==> forall c <- number :: InAlphabet(c)
    decreases |number|
  {
    hide NibbleOf, Pairs, Shown, InAlphabet, Kept;
    KeptPairs(number);
    if number == [] {
      NoPairs();
      NothingKept();
    } else if |number| == 1 {
      ShownSurvives(number[0]);
      assert number == [number[0]] && Lowered(number) == [LowerPause(number[0])];
    } else {
      var rest := number[2..];
      ShownRoundTrip(rest);
      KeptIsShorter(rest);
      ShownSurvives(number[0]);
      ShownSurvives(number[1]);
      var a, b := LowerPause(number[0]), LowerPause(number[1]);
      assert number == [number[0]] + [number[1]] + rest;
      assert Lowered(number) == [a] + [b] + Lowered(rest);
      SamePieces(Shown(NibbleOf(number[0])), Shown(NibbleOf(number[1])), Kept(Pairs(rest)), a, b, Lowered(rest));
    }
  }

  lemma NothingKept()
    ensures Kept([]) == []
  {
  }

  lemma SamePieces(s: seq<byte>, t: seq<byte>, kept: seq<byte>, a: byte, b: byte, rest: seq<byte>)
    requires |s| <= 1 && |t| <= 1 && |kept| <= |rest|
    ensures s + t + kept == [a] + [b] + rest <==> s == [a] && t == [b] && kept == rest
  {
    var whole := s + t + kept;
    if whole == [a] + [b] + rest {
      assert |whole| == |s| + |t| + |kept|;
      assert whole[0] == s[0] && whole[1] == t[0] && whole[2..] == kept;
    }
  }

  /** Padding shows nothing, wherever the number ends. */
  lemma {:induction false} PaddingShowsNothing(bcd: seq<byte>, n: nat)
    ensures Kept(bcd + Repeat(PAD, n)) == Kept(bcd)
    decreases |bcd| + n
  {
    var all := bcd + Repeat(PAD, n);
    if bcd != [] {
      PaddingShowsNothing(bcd[1..], n);
      assert all[1..] == bcd[1..] + Repeat(PAD, n);
    } else if n > 0 {
      PaddingShowsNothing([], n - 1);
      assert all[1..] == [] + Repeat(PAD, n - 1);
    }
  }

  /** The characters of the nibbles; the last two show nothing. */
  lemma ShownCharacters(n: byte)
    requires n < 16
    ensures Shown(n) == (
      if n < 10 then [48 + n]
      else if n == 10 then ['*' as int]
      else if n == 11 then ['#' as int]
      else if n == 12 then ['p' as int]
      else if n == 13 then ['?' as int]
      else [])
  {
  }

  /** The low nibble is shown before the high one, octet by octet. */
  lemma ShownInOrder(b: byte, rest: seq<byte>)
    ensures Kept([b] + rest) == Shown(b % 16) + Shown(b / 16) + Kept(rest)
  {
    hide Shown;
    assert ([b] + rest)[1..] == rest;
  }
}
