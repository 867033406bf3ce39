/**
  The frame check sequence of a CMUX header (3GPP TS 27.010 section 5.2.1.6).

  The reference is the bit-serial register: division by x^8 + x^2 + x + 1, least significant bit
  first. The program computes it an octet at a time from a table of 256 constants.
 */
module MuxFcs {

  type byte = bv8

  // ---------------------------------------------------------------------------------------
  // The bit-serial register.
  // ---------------------------------------------------------------------------------------

  /** One shift of the register on an incoming message bit; 0xE0 is the polynomial reversed. */
  function SerialBit(reg: byte, bit: bool): byte {
    if (reg & 1 == 1) != bit then (reg >> 1) ^ 0xE0 else reg >> 1
  }

  function SerialBits(reg: byte, bits: seq<bool>): byte
    decreases |bits|
  {
    if bits == [] then reg else SerialBits(SerialBit(reg, bits[0]), bits[1..])
  }

  /** The low n bits of an octet, least significant first: the order of transmission. */
  function LowBits(b: byte, n: nat): seq<bool>
    decreases n
  {
    if n == 0 then [] else [b & 1 != 0] + LowBits(b >> 1, n - 1)
  }

  function MessageBits(message: seq<byte>): seq<bool> {
    if message == [] then [] else LowBits(message[0], 8) + MessageBits(message[1..])
  }

  /** The FCS field of a header: the ones complement of the register started at all ones. */
  function Fcs(header: seq<byte>): byte {
    0xFF - SerialBits(0xFF, MessageBits(header))
  }

  // ---------------------------------------------------------------------------------------
  // The register octet by octet.
  // ---------------------------------------------------------------------------------------

  /** One shift with no message bit set. */
  function Shift(c: byte): byte {
    if c & 1 == 1 then (c >> 1) ^ 0xE0 else c >> 1
  }

  function Shifts(c: byte, n: nat): byte
    decreases n
  {
    if n == 0 then c else Shifts(Shift(c), n - 1)
  }

  /** The register after a message, for any step applied once per octet. */
  function OctetRegister(step: byte -> byte, reg: byte, message: seq<byte>): byte
    decreases |message|
  {
    if message == [] then reg else OctetRegister(step, step(reg ^ message[0]), message[1..])
  }

  function Shift8(c: byte): byte {
    Shift(Shift(Shift(Shift(Shift(Shift(Shift(Shift(c))))))))
  }

  lemma Shift8IsShifts(c: byte)
    ensures Shift8(c) == Shifts(c, 8)
  {
    hide Shift;
    var c4 := Shift(Shift(Shift(Shift(c))));
    assert Shifts(c, 8) == Shifts(Shift(Shift(c)), 6) == Shifts(c4, 4) == Shifts(Shift(Shift(c4)), 2);
  }

  /** A message bit xored into the register is the same as a message bit fed beside it. */
  lemma ShiftAbsorbsBit(reg: byte, b: byte)
    ensures Shift(reg ^ b) == SerialBit(reg, b & 1 != 0) ^ (b >> 1)
  {
  }

  function Halve(b: byte, n: nat): byte
    decreases n
  {
    if n == 0 then b else Halve(b >> 1, n - 1)
  }

  lemma HalveToZero(b: byte)
    ensures Halve(b, 8) == 0
  {
    var b2, b4 := b >> 1 >> 1, b >> 1 >> 1 >> 1 >> 1;
    var b6 := b4 >> 1 >> 1;
    assert Halve(b, 8) == Halve(b2, 6) == Halve(b4, 4) == Halve(b6, 2);
    assert b6 >> 1 >> 1 == 0;
  }

  lemma {:induction false} SerialLowBits(reg: byte, b: byte, n: nat, rest: seq<bool>)
    ensures SerialBits(reg, LowBits(b, n) + rest) == SerialBits(Shifts(reg ^ b, n) ^ Halve(b, n), rest)
    decreases n
  {
    if n == 0 {
      assert LowBits(b, n) + rest == rest;
      assert (reg ^ b) ^ b == reg;
    } else {
      var tail := LowBits(b >> 1, n - 1);
      var reg' := SerialBit(reg, b & 1 != 0);
      assert (LowBits(b, n) + rest)[1..] == tail + rest;
      ShiftAbsorbsBit(reg, b);
      SerialLowBits(reg', b >> 1, n - 1, rest);
    }
  }

  /** Eight serial bits are one octet step, for messages of any length. */
  lemma {:induction false} OctetRegisterIsSerial(reg: byte, message: seq<byte>)
    ensures OctetRegister(Shift8, reg, message) == SerialBits(reg, MessageBits(message))
    decreases |message|
  {
    if message == [] {
    } else {
      var b, rest := message[0], MessageBits(message[1..]);
      var next := Shift8(reg ^ b);
      Shift8IsShifts(reg ^ b);
      SerialLowBits(reg, b, 8, rest);
      HalveToZero(b);
      assert next ^ 0 == next;
      OctetRegisterIsSerial(next, message[1..]);
    }
  }

  // ---------------------------------------------------------------------------------------
  // The table.
  // ---------------------------------------------------------------------------------------

  // The 256 entries, in the 16 lines of 16 in which the program lists them.
  const CRC_TABLE: seq<seq<bv8>> := [
    [0x00, 0x91, 0xE3, 0x72, 0x07, 0x96, 0xE4, 0x75, 0x0E, 0x9F, 0xED, 0x7C, 0x09, 0x98, 0xEA, 0x7B],
    [0x1C, 0x8D, 0xFF, 0x6E, 0x1B, 0x8A, 0xF8, 0x69, 0x12, 0x83, 0xF1, 0x60, 0x15, 0x84, 0xF6, 0x67],
    [0x38, 0xA9, 0xDB, 0x4A, 0x3F, 0xAE, 0xDC, 0x4D, 0x36, 0xA7, 0xD5, 0x44, 0x31, 0xA0, 0xD2, 0x43],
    [0x24, 0xB5, 0xC7, 0x56, 0x23, 0xB2, 0xC0, 0x51, 0x2A, 0xBB, 0xC9, 0x58, 0x2D, 0xBC, 0xCE, 0x5F],
    [0x70, 0xE1, 0x93, 0x02, 0x77, 0xE6, 0x94, 0x05, 0x7E, 0xEF, 0x9D, 0x0C, 0x79, 0xE8, 0x9A, 0x0B],
    [0x6C, 0xFD, 0x8F, 0x1E, 0x6B, 0xFA, 0x88, 0x19, 0x62, 0xF3, 0x81, 0x10, 0x65, 0xF4, 0x86, 0x17],
    [0x48, 0xD9, 0xAB, 0x3A, 0x4F, 0xDE, 0xAC, 0x3D, 0x46, 0xD7, 0xA5, 0x34, 0x41, 0xD0, 0xA2, 0x33],
    [0x54, 0xC5, 0xB7, 0x26, 0x53, 0xC2, 0xB0, 0x21, 0x5A, 0xCB, 0xB9, 0x28, 0x5D, 0xCC, 0xBE, 0x2F],
    [0xE0, 0x71, 0x03, 0x92, 0xE7, 0x76, 0x04, 0x95, 0xEE, 0x7F, 0x0D, 0x9C, 0xE9, 0x78, 0x0A, 0x9B],
    [0xFC, 0x6D, 0x1F, 0x8E, 0xFB, 0x6A, 0x18, 0x89, 0xF2, 0x63, 0x11, 0x80, 0xF5, 0x64, 0x16, 0x87],
    [0xD8, 0x49, 0x3B, 0xAA, 0xDF, 0x4E, 0x3C, 0xAD, 0xD6, 0x47, 0x35, 0xA4, 0xD1, 0x40, 0x32, 0xA3],
    [0xC4, 0x55, 0x27, 0xB6, 0xC3, 0x52, 0x20, 0xB1, 0xCA, 0x5B, 0x29, 0xB8, 0xCD, 0x5C, 0x2E, 0xBF],
    [0x90, 0x01, 0x73, 0xE2, 0x97, 0x06, 0x74, 0xE5, 0x9E, 0x0F, 0x7D, 0xEC, 0x99, 0x08, 0x7A, 0xEB],
    [0x8C, 0x1D, 0x6F, 0xFE, 0x8B, 0x1A, 0x68, 0xF9, 0x82, 0x13, 0x61, 0xF0, 0x85, 0x14, 0x66, 0xF7],
    [0xA8, 0x39, 0x4B, 0xDA, 0xAF, 0x3E, 0x4C, 0xDD, 0xA6, 0x37, 0x45, 0xD4, 0xA1, 0x30, 0x42, 0xD3],
    [0xB4, 0x25, 0x57, 0xC6, 0xB3, 0x22, 0x50, 0xC1, 0xBA, 0x2B, 0x59, 0xC8, 0xBD, 0x2C, 0x5E, 0xCF]
  ]

  lemma ShiftLinear(a: byte, b: byte)
    ensures Shift(a ^ b) == Shift(a) ^ Shift(b)
  {
  }

  lemma {:induction false} ShiftsLinear(a: byte, b: byte, n: nat)
    ensures Shifts(a ^ b, n) == Shifts(a, n) ^ Shifts(b, n)
    decreases n
  {
    if n == 0 {
    } else {
      var sa, sb, sab := Shift(a), Shift(b), Shift(a ^ b);
      assert sab == sa ^ sb by { ShiftLinear(a, b); }
      ShiftsLinear(sa, sb, n - 1);
    }
  }

  function Xor(a: byte, b: byte): byte {
    a ^ b
  }

  /** A line of the table is its first entry combined with each entry of line 0. */
  predicate RowBy(op: (byte, byte) -> byte, row: seq<byte>, line0: seq<byte>) {
    && |row| == |line0| == 16
    && row[0] == op(row[0], line0[0]) && row[1] == op(row[0], line0[1])
    && row[2] == op(row[0], line0[2]) && row[3] == op(row[0], line0[3])
    && row[4] == op(row[0], line0[4]) && row[5] == op(row[0], line0[5])
    && row[6] == op(row[0], line0[6]) && row[7] == op(row[0], line0[7])
    && row[8] == op(row[0], line0[8]) && row[9] == op(row[0], line0[9])
    && row[10] == op(row[0], line0[10]) && row[11] == op(row[0], line0[11])
    && row[12] == op(row[0], line0[12]) && row[13] == op(row[0], line0[13])
    && row[14] == op(row[0], line0[14]) && row[15] == op(row[0], line0[15])
  }

  lemma XorRows0() ensures RowBy(Xor, CRC_TABLE[0], CRC_TABLE[0]) && RowBy(Xor, CRC_TABLE[1], CRC_TABLE[0]) {}
  lemma XorRows2()
    ensures RowBy(Xor, CRC_TABLE[2], CRC_TABLE[0]) && RowBy(Xor, CRC_TABLE[3], CRC_TABLE[0])
    ensures RowBy(Xor, CRC_TABLE[4], CRC_TABLE[0])
  {}

  lemma XorRows5()
    ensures RowBy(Xor, CRC_TABLE[5], CRC_TABLE[0]) && RowBy(Xor, CRC_TABLE[6], CRC_TABLE[0])
    ensures RowBy(Xor, CRC_TABLE[7], CRC_TABLE[0])
  {}

  lemma XorRows8()
    ensures RowBy(Xor, CRC_TABLE[8], CRC_TABLE[0]) && RowBy(Xor, CRC_TABLE[9], CRC_TABLE[0])
    ensures RowBy(Xor, CRC_TABLE[10], CRC_TABLE[0])
  {}

  lemma XorRowsB()
    ensures RowBy(Xor, CRC_TABLE[11], CRC_TABLE[0]) && RowBy(Xor, CRC_TABLE[12], CRC_TABLE[0])
    ensures RowBy(Xor, CRC_TABLE[13], CRC_TABLE[0])
  {}

  lemma XorRowsE() ensures RowBy(Xor, CRC_TABLE[14], CRC_TABLE[0]) && RowBy(Xor, CRC_TABLE[15], CRC_TABLE[0]) {}

  lemma XorRowAt(h: nat)
    requires h < 16
    ensures RowBy(Xor, CRC_TABLE[h], CRC_TABLE[0])
  {
    hide RowBy;
    XorRows0(); XorRows2(); XorRows5(); XorRows8(); XorRowsB(); XorRowsE();
    if h < 8 {
      if h == 0 {} else if h == 1 {} else if h == 2 {} else if h == 3 {}
      else if h == 4 {} else if h == 5 {} else if h == 6 {} else { assert h == 7; }
    } else {
      if h == 8 {} else if h == 9 {} else if h == 10 {} else if h == 11 {}
      else if h == 12 {} else if h == 13 {} else if h == 14 {} else { assert h == 15; }
    }
  }

  lemma RowEntry(op: (byte, byte) -> byte, row: seq<byte>, line0: seq<byte>, l: nat)
    requires RowBy(op, row, line0) && l < 16
    ensures row[l] == op(row[0], line0[l])
  {
    if l < 8 {
      if l == 0 {} else if l == 1 {} else if l == 2 {} else if l == 3 {}
      else if l == 4 {} else if l == 5 {} else if l == 6 {} else { assert l == 7; }
    } else {
      if l == 8 {} else if l == 9 {} else if l == 10 {} else if l == 11 {}
      else if l == 12 {} else if l == 13 {} else if l == 14 {} else { assert l == 15; }
    }
  }

  function TableEntry(h: byte, l: byte): byte
    requires h < 16 && l < 16
  {
    CRC_TABLE[h as int][l as int]
  }

  lemma EntryIsXor(h: byte, l: byte)
    requires h < 16 && l < 16
    ensures TableEntry(h, l) == Xor(TableEntry(h, 0), TableEntry(0, l))
  {
    XorRowAt(h as int);
    RowEntry(Xor, CRC_TABLE[h as int], CRC_TABLE[0], l as int);
  }

  lemma LowColumnA()
    ensures CRC_TABLE[0][0] == Shift8(0) && CRC_TABLE[0][1] == Shift8(1)
    ensures CRC_TABLE[0][2] == Shift8(2) && CRC_TABLE[0][3] == Shift8(3)
  {}

  lemma LowColumnB()
    ensures CRC_TABLE[0][4] == Shift8(4) && CRC_TABLE[0][5] == Shift8(5)
    ensures CRC_TABLE[0][6] == Shift8(6) && CRC_TABLE[0][7] == Shift8(7)
  {}

  lemma LowColumnC()
    ensures CRC_TABLE[0][8] == Shift8(8) && CRC_TABLE[0][9] == Shift8(9)
    ensures CRC_TABLE[0][10] == Shift8(10) && CRC_TABLE[0][11] == Shift8(11)
    ensures CRC_TABLE[0][12] == Shift8(12) && CRC_TABLE[0][13] == Shift8(13)
    ensures CRC_TABLE[0][14] == Shift8(14) && CRC_TABLE[0][15] == Shift8(15)
  {}

  lemma HighColumnA()
    ensures CRC_TABLE[0][0] == Shift8(0x00) && CRC_TABLE[1][0] == Shift8(0x10)
    ensures CRC_TABLE[2][0] == Shift8(0x20) && CRC_TABLE[3][0] == Shift8(0x30)
  {}

  lemma HighColumnB()
    ensures CRC_TABLE[4][0] == Shift8(0x40) && CRC_TABLE[5][0] == Shift8(0x50)
    ensures CRC_TABLE[6][0] == Shift8(0x60) && CRC_TABLE[7][0] == Shift8(0x70)
  {}

  lemma HighColumnC()
    ensures CRC_TABLE[8][0] == Shift8(0x80) && CRC_TABLE[9][0] == Shift8(0x90)
    ensures CRC_TABLE[10][0] == Shift8(0xA0) && CRC_TABLE[11][0] == Shift8(0xB0)
    ensures CRC_TABLE[12][0] == Shift8(0xC0) && CRC_TABLE[13][0] == Shift8(0xD0)
    ensures CRC_TABLE[14][0] == Shift8(0xE0) && CRC_TABLE[15][0] == Shift8(0xF0)
  {}

  lemma LowColumn(l: byte)
    requires l < 16
    ensures TableEntry(0, l) == Shift8(l)
  {
    hide Shift8;
    LowColumnA();
    LowColumnB();
    LowColumnC();
    if l < 8 {
      if l == 0 {} else if l == 1 {} else if l == 2 {} else if l == 3 {}
      else if l == 4 {} else if l == 5 {} else if l == 6 {} else { assert l == 7; }
    } else {
      if l == 8 {} else if l == 9 {} else if l == 10 {} else if l == 11 {}
      else if l == 12 {} else if l == 13 {} else if l == 14 {} else { assert l == 15; }
    }
  }

  lemma HighColumn(h: byte)
    requires h < 16
    ensures TableEntry(h, 0) == Shift8(h << 4)
  {
    hide Shift8;
    HighColumnA();
    HighColumnB();
    HighColumnC();
    if h < 8 {
      if h == 0 {} else if h == 1 {} else if h == 2 {} else if h == 3 {}
      else if h == 4 {} else if h == 5 {} else if h == 6 {} else { assert h == 7; }
    } else {
      if h == 8 {} else if h == 9 {} else if h == 10 {} else if h == 11 {}
      else if h == 12 {} else if h == 13 {} else if h == 14 {} else { assert h == 15; }
    }
  }

  lemma Nibbles(i: byte)
    ensures ((i >> 4) << 4) ^ (i & 0x0F) == i
    ensures i >> 4 < 16 && i & 0x0F < 16
  {
  }

  /** Every one of the 256 entries is eight shifts of its index. */
  lemma TableIsShift8(i: byte)
    ensures i >> 4 < 16 && i & 0x0F < 16
    ensures TableEntry(i >> 4, i & 0x0F) == Shift8(i)
  {
    hide TableEntry, Shift8, Xor;
    Nibbles(i);
    EntryIsXor(i >> 4, i & 0x0F);
    HighColumn(i >> 4);
    LowColumn(i & 0x0F);
    ColumnsCombine(TableEntry(i >> 4, 0), TableEntry(0, i & 0x0F), i);
  }

  lemma ColumnsCombine(high: byte, low: byte, i: byte)
    requires high == Shift8((i >> 4) << 4) && low == Shift8(i & 0x0F)
    ensures Xor(high, low) == Shift8(i)
  {
    hide Shift8, Shifts;
    Nibbles(i);
    CombineShifts((i >> 4) << 4, i & 0x0F, i);
  }

  lemma CombineShifts(hi: byte, lo: byte, i: byte)
    requires hi ^ lo == i
    ensures Xor(Shift8(hi), Shift8(lo)) == Shift8(i)
  {
    hide Shift;
    Shift8IsShifts(hi);
    Shift8IsShifts(lo);
    Shift8IsShifts(i);
    ShiftsLinear(hi, lo, 8);
  }

  method TableLookup(i: byte) returns (r: byte)
    ensures r == Shift8(i)
  {
    TableIsShift8(i);
    r := TableEntry(i >> 4, i & 0x0F);
  }

  method CalcCrc(header: seq<byte>) returns (crc: byte)
    ensures crc == Fcs(header)
  {
    var fcs: byte := 0xFF;
    var i := 0;
    assert header[0..] == header;
    while i < |header|
      invariant 0 <= i <= |header|
      invariant OctetRegister(Shift8, 0xFF, header) == OctetRegister(Shift8, fcs, header[i..])
    {
      assert header[i..][1..] == header[i + 1..];
      fcs := TableLookup(fcs ^ header[i]);
      i := i + 1;
    }
    OctetRegisterIsSerial(0xFF, header);
    crc := 0xFF - fcs;
  }

  method RcvCrcCheck(data: seq<byte>, rcvFcs: byte) returns (ok: bool)
    ensures ok <==> rcvFcs == Fcs(data)
  {
    hide Shift8;
    var fcs: byte := 0xFF;
    var i := 0;
    assert data[0..] == data;
    while i < |data|
      invariant 0 <= i <= |data|
      invariant OctetRegister(Shift8, 0xFF, data) == OctetRegister(Shift8, fcs, data[i..])
    {
      assert data[i..][1..] == data[i + 1..];
      fcs := TableLookup(fcs ^ data[i]);
      i := i + 1;
    }
    OctetRegisterIsSerial(0xFF, data);
    ResidueIff(fcs, rcvFcs);
    fcs := TableLookup(fcs ^ rcvFcs);
    ok := fcs == 0xCF;
  }

  // ---------------------------------------------------------------------------------------
  // What the FCS protects.
  // ---------------------------------------------------------------------------------------

  ghost predicate Injective(f: byte -> byte) {
    forall a, b :: f(a) == f(b) ==> a == b
  }

  lemma ShiftInjective(a: byte, b: byte)
    ensures Shift(a) == Shift(b) ==> a == b
  {
  }

  lemma {:induction false} ShiftsInjective(a: byte, b: byte, n: nat)
    requires Shifts(a, n) == Shifts(b, n)
    ensures a == b
    decreases n
  {
    if n == 0 {
    } else {
      ShiftsInjective(Shift(a), Shift(b), n - 1);
      ShiftInjective(a, b);
    }
  }

  lemma Shift8Injective()
    ensures Injective(Shift8)
  {
    forall a, b | Shift8(a) == Shift8(b) ensures a == b {
      Shift8IsShifts(a);
      Shift8IsShifts(b);
      ShiftsInjective(a, b, 8);
    }
  }

  /** The receiver's residue: one more octet step on the received FCS gives 0xCF. */
  lemma ResidueIff(reg: byte, fcs: byte)
    ensures Shift8(reg ^ fcs) == 0xCF <==> fcs == 0xFF - reg
  {
    assert Shift8(0xFF) == 0xCF;
    Shift8Injective();
    ComplementIff(reg, fcs);
  }

  lemma ComplementIff(x: byte, f: byte)
    ensures x ^ f == 0xFF <==> f == 0xFF - x
  {
  }

  lemma XorCancel(a: byte, b: byte, c: byte)
    ensures a ^ c == b ^ c ==> a == b
    ensures c ^ a == c ^ b ==> a == b
  {
  }

  function Next(step: byte -> byte, reg: byte, m: byte): byte {
    step(reg ^ m)
  }

  lemma RegisterStep(step: byte -> byte, reg: byte, message: seq<byte>)
    requires message != []
    ensures OctetRegister(step, reg, message) == OctetRegister(step, Next(step, reg, message[0]), message[1..])
  {
  }

  lemma NextInjective(step: byte -> byte, a: byte, b: byte, m: byte)
    requires Injective(step) && Next(step, a, m) == Next(step, b, m)
    ensures a == b
  {
    XorCancel(a, b, m);
  }

  lemma {:induction false} RegisterInjective(step: byte -> byte, a: byte, b: byte, message: seq<byte>)
    requires Injective(step)
    requires OctetRegister(step, a, message) == OctetRegister(step, b, message)
    ensures a == b
    decreases |message|
  {
    if message == [] {
    } else {
      var m := message[0];
      RegisterStep(step, a, message);
      RegisterStep(step, b, message);
      hide OctetRegister, Next, Injective;
      RegisterInjective(step, Next(step, a, m), Next(step, b, m), message[1..]);
      NextInjective(step, a, b, m);
    }
  }

  lemma RegisterSeesFirst(step: byte -> byte, reg: byte, a: byte, b: byte, rest: seq<byte>)
    requires Injective(step) && a != b
    ensures OctetRegister(step, step(reg ^ a), rest) != OctetRegister(step, step(reg ^ b), rest)
  {
    if OctetRegister(step, step(reg ^ a), rest) == OctetRegister(step, step(reg ^ b), rest) {
      RegisterInjective(step, step(reg ^ a), step(reg ^ b), rest);
      XorCancel(a, b, reg);
    }
  }

  lemma {:induction false} RegisterSplit(step: byte -> byte, reg: byte, front: seq<byte>, back: seq<byte>)
    ensures OctetRegister(step, reg, front + back) == OctetRegister(step, OctetRegister(step, reg, front), back)
    decreases |front|
  {
    if front == [] {
      assert front + back == back;
    } else {
      assert (front + back)[1..] == front[1..] + back;
      RegisterSplit(step, step(reg ^ front[0]), front[1..], back);
    }
  }

  lemma RegisterSeesByte(reg: byte, front: seq<byte>, a: byte, b: byte, rest: seq<byte>)
    requires a != b
    ensures OctetRegister(Shift8, reg, front + ([a] + rest)) != OctetRegister(Shift8, reg, front + ([b] + rest))
  {
    RegisterSplit(Shift8, reg, front, [a] + rest);
    RegisterSplit(Shift8, reg, front, [b] + rest);
    Shift8Injective();
    RegisterSeesFirst(Shift8, OctetRegister(Shift8, reg, front), a, b, rest);
    assert ([a] + rest)[1..] == rest && ([b] + rest)[1..] == rest;
  }

  /** Changing any one octet of a header, of any length, changes its FCS. */
  lemma FcsDetectsByteChange(header: seq<byte>, i: nat, b: byte)
    requires i < |header| && header[i] != b
    ensures Fcs(header[i := b]) != Fcs(header)
  {
    var front, rest := header[..i], header[i + 1..];
    RegisterSeesByte(0xFF, front, header[i], b, rest);
    assert header == front + ([header[i]] + rest);
    assert header[i := b] == front + ([b] + rest);
    OctetRegisterIsSerial(0xFF, header);
    OctetRegisterIsSerial(0xFF, header[i := b]);
  }
}
