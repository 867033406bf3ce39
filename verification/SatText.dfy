/**
  Reading the text string of a toolkit command: characters of the default alphabet arrive packed.
 */
module SatText {

  import opened Wrappers
  import opened SatTlv
  import Gsm7

  function ToBits(s: seq<byte>): (r: seq<Gsm7.byte>)
    ensures |r| == |s|
  {
    seq(|s|, i requires 0 <= i < |s| => s[i] as bv8)
  }

  function FromBits(s: seq<Gsm7.byte>): (r: seq<byte>)
    ensures |r| == |s|
  {
    seq(|s|, i requires 0 <= i < |s| => s[i] as int)
  }

  function UpToNul(s: seq<byte>): (r: seq<byte>)
    ensures r <= s && 0 !in r
    ensures r == s || s[|r|] == 0
  {
    if s == [] || s[0] == 0 then [] else [s[0]] + UpToNul(s[1..])
  }

  lemma {:induction false} UpToNulIs(s: seq<byte>, n: nat)
    requires n <= |s| && 0 !in s[..n] && (n < |s| ==> s[n] == 0)
    ensures UpToNul(s) == s[..n]
    decreases n
  {
    if n == 0 {
    } else {
      assert s[0] == s[..n][0] && s[..n] == [s[0]] + s[1..][..n - 1];
      UpToNulIs(s[1..], n - 1);
    }
  }

  /** The characters of packed octets, as the C string they are unpacked to. */
  function FromDefault(octets: seq<byte>): seq<byte> {
    UpToNul(FromBits(Gsm7.CrsToSpaces(Gsm7.Unpacked(ToBits(octets)))))
  }

  /** What the structure holds. */
  datatype Held = Held(dcs: Dcs, rawDcs: byte, chars: seq<byte>)

  /**
    What reading a text leaves in it: nothing but the characters changes for an empty text, nothing at
    all for no text, and characters of the default alphabet are unpacked and then count as 8-bit ones.
   */
  function Hold(was: Held, f: Found): Held {
    if f.outcome != Done then was
    else
      match f.scheme
      case None => was.(chars := [])
      case Some(o) =>
        var dcs := DecodeDcs(o);
        if dcs.format == SmsDefault then Held(dcs.(format := EightBit), o, FromDefault(f.chars))
        else Held(dcs, o, f.chars)
  }

  class TextString {
    var dcs: Dcs
    var rawDcs: byte
    var chars: seq<byte>

    function View(): Held
      reads this
    {
      Held(dcs, rawDcs, chars)
    }

    constructor ()
      ensures View() == Held(Dcs(false, SmsDefault, NoClass), 0, [])
    {
      dcs, rawDcs, chars := Dcs(false, SmsDefault, NoClass), 0, [];
    }

    method Decode(b: seq<byte>, length: nat, offset: nat) returns (understood: bool, consumed: nat)
      requires length <= |b| && ReadText(b, length, offset).outcome != Overrun
      modifies this
      ensures understood <==> ReadText(b, length, offset).outcome == Done
      ensures consumed == ReadText(b, length, offset).consumed
      ensures View() == Hold(old(View()), ReadText(b, length, offset))
    {
      hide DecodeDcs, FromDefault;
      consumed := 0;
      if length <= offset + 1 {
        return false, 0;
      }
      var index := offset;
      if b[index] % 128 != TEXT_STRING_TAG {
        return false, 0;
      }
      index := index + 1;
      var size := LengthFieldSize(b[index]);
      if size == 0 {
        return false, 0;
      }
      var n := b[index + size - 1];
      index := index + size;
      chars := [];
      if n > 1 {
        rawDcs := b[index];
        dcs := DecodeDcs(b[index]);
        index := index + 1;
        var found := b[index..index + (n - 1)];
        if dcs.format == SmsDefault {
          chars := Unpack(found);
          dcs := dcs.(format := EightBit);
        } else {
          chars := found;
        }
      }
      return true, 1 + size + n;
    }
  }

  method Unpack(octets: seq<byte>) returns (s: seq<byte>)
    requires octets != []
    ensures s == FromDefault(octets)
  {
    hide ToBits, FromBits, UpToNul;
    var unpacked := Gsm7.Unpack(ToBits(octets));
    ghost var all := FromBits(Gsm7.CrsToSpaces(Gsm7.Unpacked(ToBits(octets))));
    s := CString(unpacked, Gsm7.UnpackedLength(|octets|));
  }

  /** A C string ends at its first NUL, which there is behind the characters at the latest. */
  method CString(a: array<Gsm7.byte>, n: nat) returns (s: seq<byte>)
    requires a.Length == n + 1 && a[n] == 0
    ensures s == UpToNul(FromBits(a[..n]))
  {
    s := [];
    var k := 0;
    while a[k] != 0
      invariant k <= n && s == FromBits(a[..k]) && 0 !in s
      decreases n - k
    {
      s := s + [a[k] as int];
      k := k + 1;
    }
    assert FromBits(a[..n])[..k] == s;
    UpToNulIs(FromBits(a[..n]), k);
  }

  /** A scheme comes back through the reader exactly without message class and in eight or sixteen bits. */
  lemma SchemeHeld(d: Dcs)
    ensures
      var back := DecodeDcs(EncodeDcs(d));
      (back.format != SmsDefault && back == d) <==> d.class_ == NoClass && d.format in {EightBit, Ucs2}
    ensures DecodeDcs(EncodeDcs(d)).format == SmsDefault ==> d != DecodeDcs(EncodeDcs(d)).(format := EightBit)
  {
  }

  /**
    An encoded text, wherever it stands, leaves its own scheme and characters in the reader's structure
    and is consumed to its last octet exactly when its length is good and it has no message class and
    an alphabet of eight or sixteen bits. A text of the default alphabet never comes back: it is written
    as it is and unpacked on reading. For an empty text the scheme is whatever the structure held.
   */
  lemma TextHeld(t: Text, was: Held, before: seq<byte>, after: seq<byte>)
    ensures
      var b := before + TextOctets(t, false) + after;
      var found := ReadText(b, |b|, |before|);
      var held := Hold(was, found);
      found.outcome == Done && found.consumed == |TextOctets(t, false)| && held.dcs == t.dcs && held.chars == t.chars
      <==> (&& GoodLength(|t.chars|)
            && if t.chars == [] then was.dcs == t.dcs
               else t.dcs.class_ == NoClass && t.dcs.format in {EightBit, Ucs2})
  {
    TextRoundTrip(t, false, before, after);
    SchemeHeld(t.dcs);
    hide DecodeDcs, EncodeDcs, FromDefault, ReadText, TextOctets;
  }

  /**
    A text packed from septets other than NUL is shown as these septets with CR as a space, and one
    more space when they fill the octets but for a whole septet.
   */
  lemma PackedTextShown(src: seq<Gsm7.byte>)
    requires Gsm7.Septets(src) && 0 !in src
    ensures FromDefault(FromBits(Gsm7.Packed(src))) ==
      FromBits(Gsm7.CrsToSpaces(src)) + if |src| % 8 == 7 then [0x20] else []
  {
    hide Gsm7.Packed, Gsm7.Unpacked;
    Gsm7.PackRoundTrip(src);
    var shown := Gsm7.CrsToSpaces(src) + if |src| % 8 == 7 then [Gsm7.SPACE] else [];
    BitsBack(Gsm7.Packed(src));
    forall i | 0 <= i < |shown|
      ensures FromBits(shown)[i] != 0
    {
      if i < |src| {
        assert src[i] in src;
      }
    }
    UpToNulIs(FromBits(shown), |shown|);
  }

  lemma BitsBack(s: seq<Gsm7.byte>)
    ensures ToBits(FromBits(s)) == s
  {
  }

  class ChannelData {
    var data: seq<byte>

    constructor ()
      ensures data == []
    {
      data := [];
    }

    method Decode(b: seq<byte>, length: nat, offset: nat) returns (understood: bool, consumed: nat)
      requires length <= |b| && ReadChannelData(b, length, offset).outcome != Overrun
      modifies this
      ensures understood <==> ReadChannelData(b, length, offset).outcome == Done
      ensures understood ==> consumed == ReadChannelData(b, length, offset).consumed
      ensures data == if understood then ReadChannelData(b, length, offset).chars else old(data)
    {
      if length <= offset + 1 {
        return false, 0;
      }
      var index := offset;
      if b[index] % 128 != CHANNEL_DATA_TAG {
        return false, 0;
      }
      index := index + 1;
      var size := LengthFieldSize(b[index]);
      if size == 0 {
        return false, 0;
      }
      var n := b[index + size - 1];
      index := index + size;
      if index + n > length {
        return false, 0;
      }
      data := b[index..index + n];
      return true, 1 + size + n;
    }
  }
}
