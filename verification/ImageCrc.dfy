/** The checksum of package/mkpimage/mkpimage.c: crc_table and the table-driven crc32,
    against a CRC that feeds one message bit at a time. */
module ImageCrc {

  /** The generator polynomial x^32 + x^26 + x^23 + ... + 1, without its leading term. */
  const POLY: bv32 := 0x04c11db7

  // crc_table, sixteen entries to a row
  const ROW0: seq<bv32> := [
    0x00000000, 0x04c11db7, 0x09823b6e, 0x0d4326d9, 0x130476dc, 0x17c56b6b, 0x1a864db2, 0x1e475005,
    0x2608edb8, 0x22c9f00f, 0x2f8ad6d6, 0x2b4bcb61, 0x350c9b64, 0x31cd86d3, 0x3c8ea00a, 0x384fbdbd]
  const ROW1: seq<bv32> := [
    0x4c11db70, 0x48d0c6c7, 0x4593e01e, 0x4152fda9, 0x5f15adac, 0x5bd4b01b, 0x569796c2, 0x52568b75,
    0x6a1936c8, 0x6ed82b7f, 0x639b0da6, 0x675a1011, 0x791d4014, 0x7ddc5da3, 0x709f7b7a, 0x745e66cd]
  const ROW2: seq<bv32> := [
    0x9823b6e0, 0x9ce2ab57, 0x91a18d8e, 0x95609039, 0x8b27c03c, 0x8fe6dd8b, 0x82a5fb52, 0x8664e6e5,
    0xbe2b5b58, 0xbaea46ef, 0xb7a96036, 0xb3687d81, 0xad2f2d84, 0xa9ee3033, 0xa4ad16ea, 0xa06c0b5d]
  const ROW3: seq<bv32> := [
    0xd4326d90, 0xd0f37027, 0xddb056fe, 0xd9714b49, 0xc7361b4c, 0xc3f706fb, 0xceb42022, 0xca753d95,
    0xf23a8028, 0xf6fb9d9f, 0xfbb8bb46, 0xff79a6f1, 0xe13ef6f4, 0xe5ffeb43, 0xe8bccd9a, 0xec7dd02d]
  const ROW4: seq<bv32> := [
    0x34867077, 0x30476dc0, 0x3d044b19, 0x39c556ae, 0x278206ab, 0x23431b1c, 0x2e003dc5, 0x2ac12072,
    0x128e9dcf, 0x164f8078, 0x1b0ca6a1, 0x1fcdbb16, 0x018aeb13, 0x054bf6a4, 0x0808d07d, 0x0cc9cdca]
  const ROW5: seq<bv32> := [
    0x7897ab07, 0x7c56b6b0, 0x71159069, 0x75d48dde, 0x6b93dddb, 0x6f52c06c, 0x6211e6b5, 0x66d0fb02,
    0x5e9f46bf, 0x5a5e5b08, 0x571d7dd1, 0x53dc6066, 0x4d9b3063, 0x495a2dd4, 0x44190b0d, 0x40d816ba]
  const ROW6: seq<bv32> := [
    0xaca5c697, 0xa864db20, 0xa527fdf9, 0xa1e6e04e, 0xbfa1b04b, 0xbb60adfc, 0xb6238b25, 0xb2e29692,
    0x8aad2b2f, 0x8e6c3698, 0x832f1041, 0x87ee0df6, 0x99a95df3, 0x9d684044, 0x902b669d, 0x94ea7b2a]
  const ROW7: seq<bv32> := [
    0xe0b41de7, 0xe4750050, 0xe9362689, 0xedf73b3e, 0xf3b06b3b, 0xf771768c, 0xfa325055, 0xfef34de2,
    0xc6bcf05f, 0xc27dede8, 0xcf3ecb31, 0xcbffd686, 0xd5b88683, 0xd1799b34, 0xdc3abded, 0xd8fba05a]
  const ROW8: seq<bv32> := [
    0x690ce0ee, 0x6dcdfd59, 0x608edb80, 0x644fc637, 0x7a089632, 0x7ec98b85, 0x738aad5c, 0x774bb0eb,
    0x4f040d56, 0x4bc510e1, 0x46863638, 0x42472b8f, 0x5c007b8a, 0x58c1663d, 0x558240e4, 0x51435d53]
  const ROW9: seq<bv32> := [
    0x251d3b9e, 0x21dc2629, 0x2c9f00f0, 0x285e1d47, 0x36194d42, 0x32d850f5, 0x3f9b762c, 0x3b5a6b9b,
    0x0315d626, 0x07d4cb91, 0x0a97ed48, 0x0e56f0ff, 0x1011a0fa, 0x14d0bd4d, 0x19939b94, 0x1d528623]
  const ROW10: seq<bv32> := [
    0xf12f560e, 0xf5ee4bb9, 0xf8ad6d60, 0xfc6c70d7, 0xe22b20d2, 0xe6ea3d65, 0xeba91bbc, 0xef68060b,
    0xd727bbb6, 0xd3e6a601, 0xdea580d8, 0xda649d6f, 0xc423cd6a, 0xc0e2d0dd, 0xcda1f604, 0xc960ebb3]
  const ROW11: seq<bv32> := [
    0xbd3e8d7e, 0xb9ff90c9, 0xb4bcb610, 0xb07daba7, 0xae3afba2, 0xaafbe615, 0xa7b8c0cc, 0xa379dd7b,
    0x9b3660c6, 0x9ff77d71, 0x92b45ba8, 0x9675461f, 0x8832161a, 0x8cf30bad, 0x81b02d74, 0x857130c3]
  const ROW12: seq<bv32> := [
    0x5d8a9099, 0x594b8d2e, 0x5408abf7, 0x50c9b640, 0x4e8ee645, 0x4a4ffbf2, 0x470cdd2b, 0x43cdc09c,
    0x7b827d21, 0x7f436096, 0x7200464f, 0x76c15bf8, 0x68860bfd, 0x6c47164a, 0x61043093, 0x65c52d24]
  const ROW13: seq<bv32> := [
    0x119b4be9, 0x155a565e, 0x18197087, 0x1cd86d30, 0x029f3d35, 0x065e2082, 0x0b1d065b, 0x0fdc1bec,
    0x3793a651, 0x3352bbe6, 0x3e119d3f, 0x3ad08088, 0x2497d08d, 0x2056cd3a, 0x2d15ebe3, 0x29d4f654]
  const ROW14: seq<bv32> := [
    0xc5a92679, 0xc1683bce, 0xcc2b1d17, 0xc8ea00a0, 0xd6ad50a5, 0xd26c4d12, 0xdf2f6bcb, 0xdbee767c,
    0xe3a1cbc1, 0xe760d676, 0xea23f0af, 0xeee2ed18, 0xf0a5bd1d, 0xf464a0aa, 0xf9278673, 0xfde69bc4]
  const ROW15: seq<bv32> := [
    0x89b8fd09, 0x8d79e0be, 0x803ac667, 0x84fbdbd0, 0x9abc8bd5, 0x9e7d9662, 0x933eb0bb, 0x97ffad0c,
    0xafb010b1, 0xab710d06, 0xa6322bdf, 0xa2f33668, 0xbcb4666d, 0xb8757bda, 0xb5365d03, 0xb1f740b4]

  function TableRow(r: nat): (s: seq<bv32>)
    requires r < 16
    ensures |s| == 16
  {
    match r
    case 0 => ROW0
    case 1 => ROW1
    case 2 => ROW2
    case 3 => ROW3
    case 4 => ROW4
    case 5 => ROW5
    case 6 => ROW6
    case 7 => ROW7
    case 8 => ROW8
    case 9 => ROW9
    case 10 => ROW10
    case 11 => ROW11
    case 12 => ROW12
    case 13 => ROW13
    case 14 => ROW14
    case _ => ROW15
  }

  function TableEntry(i: nat): bv32
    requires i < 256
  {
    TableRow(i / 16)[i % 16]
  }

  function Xor(a: bv32, b: bv32): bv32 { a ^ b }

  function Up(x: bv32): bv32 { x << 1 }

  predicate Top(x: bv32) { x & 0x8000_0000 != 0 }

  /** A register with one byte in its highest bits. */
  function High(b: bv8): bv32 { Up24(Widen(b)) }

  function Up24(x: bv32): bv32 { x << 24 }

  function Widen(b: bv8): bv32 { b as bv32 }

  /** The step of the register that the polynomial defines. */
  function Shift(x: bv32): bv32 { if Top(x) then Xor(Up(x), POLY) else Up(x) }

  function Shift8(x: bv32): bv32 { Shift(Shift(Shift(Shift(Shift(Shift(Shift(Shift(x)))))))) }

  /** One message bit: it is compared with the bit shifted out. */
  function NextBit(crc: bv32, bit: bool): bv32 { if Top(crc) != bit then Xor(Up(crc), POLY) else Up(crc) }

  function Bit(b: bv8, k: nat): bool
    requires k < 8
  {
    (b >> k) & 1 == 1
  }

  /** The bits of one byte, the highest first. */
  function NextByte(crc: bv32, b: bv8): bv32 {
    NextBit(NextBit(NextBit(NextBit(NextBit(NextBit(NextBit(NextBit(crc,
      Bit(b, 7)), Bit(b, 6)), Bit(b, 5)), Bit(b, 4)), Bit(b, 3)), Bit(b, 2)), Bit(b, 1)), Bit(b, 0))
  }

  /** The CRC register after a message, bit by bit. */
  function CrcBits(crc: bv32, msg: seq<bv8>): bv32 {
    if msg == [] then crc else NextByte(CrcBits(crc, msg[..|msg| - 1]), msg[|msg| - 1])
  }

  lemma XorPair(a: bv32, b: bv32)
    ensures Xor(a, b) == Xor(b, a) && Xor(Xor(a, b), b) == a && Xor(a, 0) == a
  {
  }

  lemma XorAssoc(a: bv32, b: bv32, c: bv32)
    ensures Xor(a, Xor(b, c)) == Xor(Xor(a, b), c)
  {
  }

  lemma XorSwap(a: bv32, b: bv32, c: bv32)
    ensures Xor(Xor(a, b), c) == Xor(Xor(a, c), b)
  {
    hide Xor;
    XorAssoc(a, b, c);
    XorPair(b, c);
    XorAssoc(a, c, b);
  }

  lemma XorCancel(a: bv32, b: bv32, c: bv32)
    ensures Xor(Xor(a, c), Xor(b, c)) == Xor(a, b)
  {
    hide Xor;
    XorAssoc(Xor(a, c), b, c);
    XorSwap(a, c, b);
    XorPair(Xor(a, b), c);
  }

  lemma XorUp(a: bv32, b: bv32)
    ensures Up(Xor(a, b)) == Xor(Up(a), Up(b))
  {
  }

  lemma XorTop(a: bv32, b: bv32)
    ensures Top(Xor(a, b)) <==> Top(a) != Top(b)
  {
  }

  /** The laws of exclusive or that the proofs below use. */
  lemma XorFacts(a: bv32, b: bv32, c: bv32)
    ensures Xor(a, b) == Xor(b, a) && Xor(Xor(a, b), b) == a && Xor(a, 0) == a
    ensures Xor(Xor(a, b), c) == Xor(Xor(a, c), b) && Xor(Xor(a, c), Xor(b, c)) == Xor(a, b)
    ensures Xor(a, Xor(b, c)) == Xor(Xor(a, b), c)
    ensures Up(Xor(a, b)) == Xor(Up(a), Up(b)) && (Top(Xor(a, b)) <==> Top(a) != Top(b))
  {
    hide Xor;
    hide Up;
    hide Top;
    XorPair(a, b);
    XorSwap(a, b, c);
    XorCancel(a, b, c);
    XorAssoc(a, b, c);
    XorUp(a, b);
    XorTop(a, b);
  }

  lemma ShiftLinear(a: bv32, b: bv32)
    ensures Shift(Xor(a, b)) == Xor(Shift(a), Shift(b))
  {
    hide Xor;
    hide Up;
    hide Top;
    XorFacts(a, b, 0);
    XorFacts(Up(a), Up(b), POLY);
    XorFacts(Up(b), Up(a), POLY);
    XorFacts(Up(a), POLY, Up(b));
  }

  lemma Shift8Linear(a: bv32, b: bv32)
    ensures Shift8(Xor(a, b)) == Xor(Shift8(a), Shift8(b))
  {
    hide Shift;
    hide Xor;
    var x, y := a, b;
    ShiftLinear(x, y);
    x, y := Shift(x), Shift(y);
    ShiftLinear(x, y);
    x, y := Shift(x), Shift(y);
    ShiftLinear(x, y);
    x, y := Shift(x), Shift(y);
    ShiftLinear(x, y);
    x, y := Shift(x), Shift(y);
    ShiftLinear(x, y);
    x, y := Shift(x), Shift(y);
    ShiftLinear(x, y);
    x, y := Shift(x), Shift(y);
    ShiftLinear(x, y);
    x, y := Shift(x), Shift(y);
    ShiftLinear(x, y);
  }

  /** Entry 2k is entry k shifted once, entry 2k + 1 differs from that by the polynomial. */
  predicate Doubles(x: bv32, even: bv32, odd: bv32) { even == Shift(x) && odd == Xor(Shift(x), POLY) }

  /** The same for the eight entries of half from off on, and the sixteen of row. */
  predicate AllDouble(half: seq<bv32>, off: nat, row: seq<bv32>)
    requires |half| == 16 && |row| == 16 && off <= 8
  {
    && Doubles(half[off], row[0], row[1]) && Doubles(half[off + 1], row[2], row[3])
    && Doubles(half[off + 2], row[4], row[5]) && Doubles(half[off + 3], row[6], row[7])
    && Doubles(half[off + 4], row[8], row[9]) && Doubles(half[off + 5], row[10], row[11])
    && Doubles(half[off + 6], row[12], row[13]) && Doubles(half[off + 7], row[14], row[15])
  }

  lemma Row0()
    ensures AllDouble(ROW0, 0, ROW0)
  {
  }

  lemma Row1()
    ensures AllDouble(ROW0, 8, ROW1)
  {
  }

  lemma Row2()
    ensures AllDouble(ROW1, 0, ROW2)
  {
  }

  lemma Row3()
    ensures AllDouble(ROW1, 8, ROW3)
  {
  }

  lemma Row4()
    ensures AllDouble(ROW2, 0, ROW4)
  {
  }

  lemma Row5()
    ensures AllDouble(ROW2, 8, ROW5)
  {
  }

  lemma Row6()
    ensures AllDouble(ROW3, 0, ROW6)
  {
  }

  lemma Row7()
    ensures AllDouble(ROW3, 8, ROW7)
  {
  }

  lemma Row8()
    ensures AllDouble(ROW4, 0, ROW8)
  {
  }

  lemma Row9()
    ensures AllDouble(ROW4, 8, ROW9)
  {
  }

  lemma Row10()
    ensures AllDouble(ROW5, 0, ROW10)
  {
  }

  lemma Row11()
    ensures AllDouble(ROW5, 8, ROW11)
  {
  }

  lemma Row12()
    ensures AllDouble(ROW6, 0, ROW12)
  {
  }

  lemma Row13()
    ensures AllDouble(ROW6, 8, ROW13)
  {
  }

  lemma Row14()
    ensures AllDouble(ROW7, 0, ROW14)
  {
  }

  lemma Row15()
    ensures AllDouble(ROW7, 8, ROW15)
  {
  }

  lemma LowRows()
    ensures TableRow(0) == ROW0
    ensures TableRow(1) == ROW1
    ensures TableRow(2) == ROW2
    ensures TableRow(3) == ROW3
    ensures TableRow(4) == ROW4
    ensures TableRow(5) == ROW5
    ensures TableRow(6) == ROW6
    ensures TableRow(7) == ROW7
  {
  }

  lemma HighRows()
    ensures TableRow(8) == ROW8
    ensures TableRow(9) == ROW9
    ensures TableRow(10) == ROW10
    ensures TableRow(11) == ROW11
    ensures TableRow(12) == ROW12
    ensures TableRow(13) == ROW13
    ensures TableRow(14) == ROW14
    ensures TableRow(15) == ROW15
  {
  }

  lemma Rows(r: nat)
    requires r < 16
    ensures AllDouble(TableRow(r / 2), r % 2 * 8, TableRow(r))
  {
    hide AllDouble; hide TableRow;
    LowRows();
    HighRows();
    match r
    case 0 => Row0();
    case 1 => Row1();
    case 2 => Row2();
    case 3 => Row3();
    case 4 => Row4();
    case 5 => Row5();
    case 6 => Row6();
    case 7 => Row7();
    case 8 => Row8();
    case 9 => Row9();
    case 10 => Row10();
    case 11 => Row11();
    case 12 => Row12();
    case 13 => Row13();
    case 14 => Row14();
    case _ => Row15();
  }

  lemma Pair(half: seq<bv32>, off: nat, row: seq<bv32>, k: nat)
    requires |half| == 16 && |row| == 16 && off <= 8 && k < 8 && AllDouble(half, off, row)
    ensures Doubles(half[off + k], row[2 * k], row[2 * k + 1])
  {
    hide Doubles;
    match k
    case 0 => case 1 => case 2 => case 3 => case 4 => case 5 => case 6 => case _ =>
  }

  lemma RowEntry(half: seq<bv32>, off: nat, row: seq<bv32>, j: nat)
    requires |half| == 16 && |row| == 16 && off <= 8 && j < 16 && AllDouble(half, off, row)
    ensures row[j] == if j % 2 == 0 then Shift(half[off + j / 2]) else Xor(Shift(half[off + j / 2]), POLY)
  {
    hide Shift; hide Xor; hide AllDouble;
    Pair(half, off, row, j / 2);
  }

  lemma HalfEntry(i: nat)
    requires i < 256
    ensures TableEntry(i) == if i % 2 == 0 then Shift(TableEntry(i / 2)) else Xor(Shift(TableEntry(i / 2)), POLY)
  {
    hide TableRow; hide Shift; hide Xor; hide AllDouble;
    var r, j := i / 16, i % 16;
    Rows(r);
    RowEntry(TableRow(r / 2), r % 2 * 8, TableRow(r), j);
    assert i / 2 / 16 == i / 16 / 2 && i / 2 % 16 == i / 16 % 2 * 8 + i % 16 / 2;
  }

  lemma HalfByte(x: bv8)
    ensures (x >> 1) as int == (x as int) / 2
    ensures x & 1 == 1 <==> (x as int) % 2 == 1
    ensures High(x) == Xor(Up(High(x >> 1)), if x & 1 == 1 then 0x0100_0000 else 0)
    ensures !Top(High(x >> 1))
  {
  }

  lemma LowBit()
    ensures Shift8(0x0100_0000) == POLY && Shift8(0) == 0
  {
  }

  lemma HalfStep(x: bv8)
    ensures Shift8(High(x)) == Xor(Shift(Shift8(High(x >> 1))), if x & 1 == 1 then POLY else 0)
  {
    hide Xor;
    hide Up;
    hide Top;
    hide High;
    HalfByte(x);
    LowBit();
    Shift8Linear(Up(High(x >> 1)), if x & 1 == 1 then 0x0100_0000 else 0);
  }

  /** crc_table holds what eight steps make of the index in the highest byte. */
  lemma {:induction false} TableCorrect(x: bv8)
    ensures TableEntry(x as int) == Shift8(High(x))
    decreases x as int
  {
    hide Xor;
    hide Shift;
    hide TableEntry;
    hide High;
    if x == 0 {
      FirstEntry();
    } else {
      HalfByte(x);
      HalfEntry(x as int);
      TableCorrect(x >> 1);
      HalfStep(x);
      XorFacts(Shift(TableEntry((x >> 1) as int)), 0, 0);
    }
  }

  lemma FirstEntry()
    ensures TableEntry(0) == Shift8(High(0))
  {
    LowBit();
    assert ROW0[0] == 0;
  }

  /** One message bit, with the byte's remaining bits waiting in the register. */
  lemma OneBit(crc: bv32, w: bv8)
    ensures Shift(Xor(crc, High(w))) == Xor(NextBit(crc, Bit(w, 7)), High(w << 1))
  {
    hide Xor;
    hide Up;
    hide Top;
    hide High;
    hide Bit;
    HighFacts(w);
    XorFacts(crc, High(w), 0);
    XorFacts(Up(crc), High(w << 1), POLY);
    XorFacts(Up(crc), POLY, High(w << 1));
    XorFacts(Xor(Up(crc), POLY), High(w << 1), POLY);
    XorFacts(Up(crc), Xor(High(w << 1), POLY), POLY);
    XorFacts(High(w << 1), POLY, 0);
  }

  lemma HighFacts(w: bv8)
    ensures Top(High(w)) <==> Bit(w, 7)
    ensures Up(High(w)) == High(w << 1)
    ensures High(0) == 0
  {
  }

  lemma ShiftedBits(b: bv8)
    ensures Bit(b << 1, 7) == Bit(b, 6) && Bit(b << 2, 7) == Bit(b, 5) && Bit(b << 3, 7) == Bit(b, 4)
    ensures Bit(b << 4, 7) == Bit(b, 3) && Bit(b << 5, 7) == Bit(b, 2) && Bit(b << 6, 7) == Bit(b, 1)
    ensures Bit(b << 7, 7) == Bit(b, 0)
    ensures (b << 1) << 1 == b << 2 && (b << 2) << 1 == b << 3 && (b << 3) << 1 == b << 4 && (b << 4) << 1 == b << 5
    ensures (b << 5) << 1 == b << 6 && (b << 6) << 1 == b << 7 && (b << 7) << 1 == 0
  {
  }

  /** Feeding a byte bit by bit is feeding it whole into the highest byte and shifting. */
  lemma NextByteShift(crc: bv32, b: bv8)
    ensures NextByte(crc, b) == Shift8(Xor(crc, High(b)))
  {
    hide Shift;
    hide NextBit;
    hide Bit;
    hide Xor;
    hide High;
    ShiftedBits(b);
    HighFacts(0);
    var c := crc;
    OneBit(c, b);
    c := NextBit(c, Bit(b, 7));
    OneBit(c, b << 1);
    c := NextBit(c, Bit(b, 6));
    OneBit(c, b << 2);
    c := NextBit(c, Bit(b, 5));
    OneBit(c, b << 3);
    c := NextBit(c, Bit(b, 4));
    OneBit(c, b << 4);
    c := NextBit(c, Bit(b, 3));
    OneBit(c, b << 5);
    c := NextBit(c, Bit(b, 2));
    OneBit(c, b << 6);
    c := NextBit(c, Bit(b, 1));
    OneBit(c, b << 7);
    XorFacts(NextBit(c, Bit(b, 0)), 0, 0);
  }

  function Low24(x: bv32): bv32 { x & 0x00ff_ffff }

  function Up8(x: bv32): bv32 { x << 8 }

  /** The low three bytes move up unchanged. */
  lemma ShiftLow(x: bv32)
    ensures Shift8(Low24(x)) == Up8(x)
  {
    hide Shift8;
    LowPart(x);
    ShiftLowBytes(Low24(x));
  }

  lemma LowPart(x: bv32)
    ensures Up8(Low24(x)) == Up8(x) && Low24(x) & 0xff00_0000 == 0
  {
  }

  lemma ShiftLowBytes(x: bv32)
    requires x & 0xff00_0000 == 0
    ensures Shift8(x) == Up8(x)
  {
    assert !Top(x) && !Top(x << 1) && !Top(x << 2) && !Top(x << 3) && !Top(x << 4) && !Top(x << 5) && !Top(x << 6) && !Top(x << 7);
  }

  /** The highest byte of the register, compared with a byte of the message. */
  function Mixed(crc: bv32, c: bv32): bv32 { Xor(Down24(crc), c) }

  function Down24(x: bv32): bv32 { x >> 24 }

  function LowByte(x: bv32): bv8 { (x & 0xff) as bv8 }

  /** The index crc32 looks up. */
  function Index(crc: bv32, b: bv8): bv8 { LowByte(Mixed(crc, Widen(b))) }

  lemma WidenLow(x: bv32)
    ensures Up24(Widen(LowByte(x))) == Up24(x)
  {
  }

  lemma Up24Xor(a: bv32, b: bv32)
    ensures Up24(Xor(a, b)) == Xor(Up24(a), Up24(b))
  {
  }

  lemma HighAndLow(x: bv32)
    ensures Xor(Up24(Down24(x)), Low24(x)) == x
  {
  }

  lemma SplitWord(crc: bv32, c: bv32)
    ensures Xor(crc, Up24(c)) == Xor(Up24(Mixed(crc, c)), Low24(crc))
  {
    hide Xor; hide Up24; hide Down24; hide Low24;
    Up24Xor(Down24(crc), c);
    XorSwap(Up24(Down24(crc)), Up24(c), Low24(crc));
    HighAndLow(crc);
  }

  /** The register with a byte mixed in, as the index in its highest byte and the rest. */
  lemma SplitRegister(crc: bv32, b: bv8)
    ensures Xor(crc, High(b)) == Xor(High(Index(crc, b)), Low24(crc))
  {
    hide Widen; hide LowByte; hide Xor; hide Up24; hide Mixed; hide Low24;
    WidenLow(Mixed(crc, Widen(b)));
    SplitWord(crc, Widen(b));
  }

  /** The table step of crc32. */
  function TableStep(crc: bv32, b: bv8): bv32 {
    Xor(Up8(crc), TableEntry(Index(crc, b) as int))
  }

  /** One table step is eight bit steps. */
  lemma TableStepCorrect(crc: bv32, b: bv8)
    ensures TableStep(crc, b) == NextByte(crc, b)
  {
    hide Shift8; hide TableEntry; hide NextByte; hide Xor; hide High; hide Index; hide Low24; hide Up8; hide Up; hide Top;
    SplitRegister(crc, b);
    NextByteShift(crc, b);
    Shift8Linear(High(Index(crc, b)), Low24(crc));
    ShiftLow(crc);
    TableCorrect(Index(crc, b));
    XorFacts(Up8(crc), Shift8(High(Index(crc, b))), 0);
  }

  /** crc32 */
  method Crc32(start: bv32, buf: array<bv8>, length: nat) returns (crc: bv32)
    requires length <= buf.Length
    ensures crc == CrcBits(start, buf[..length])
  {
    hide TableStep;
    hide NextByte;
    crc := start;
    var i := 0;
    while i < length
      invariant 0 <= i <= length
      invariant crc == CrcBits(start, buf[..i])
    {
      assert buf[..i + 1][..i] == buf[..i];
      TableStepCorrect(crc, buf[i]);
      crc := TableStep(crc, buf[i]);
      i := i + 1;
    }
  }
}
