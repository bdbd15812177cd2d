/** The smallest images that main of package/mkpimage/mkpimage.c makes, in which the CRC comes to
    lie on what the header code wrote, and what a CRC detects. */
module ImageRoom {
  import opened ImageCrc
  import opened ImageHeader

  /** What the option -b adds in front of the input. */
  const STUB_SIZE := 512

  /** The bounds of main on the size of its input. */
  predicate Accepted(input: nat, version: nat, barebox: bool) {
    var most := if version == 0 then 60 * 1024 - 4 else 224 * 1024 - 4;
    version <= 1 && if barebox then input <= most - STUB_SIZE else 80 <= input <= most
  }

  /** The size of the image: the input, filled up to whole words, the stub and the CRC. */
  function ImageSize(input: nat, barebox: bool): nat {
    var added := if barebox then STUB_SIZE else 0;
    input + 4 + added + if input % 4 == 0 then 0 else 4 - input % 4
  }

  /** Where it starts. */
  function StartAddress(barebox: bool): nat { if barebox then STUB_SIZE else 0 }

  /** For which inputs the CRC lies behind the header, and behind a trampoline: all but those of
      80 to 84 bytes in version 1 without -b. The image for 80 bytes has no room for the
      trampoline at all, and for 81 to 84 bytes the CRC lies exactly on it. The size is never cut
      off in the header. */
  lemma RoomExact(input: nat, version: nat, barebox: bool)
    requires Accepted(input, version, barebox)
    ensures var (size, start) := (ImageSize(input, barebox), StartAddress(barebox));
            && size % 4 == 0 && size >= TRAMPOLINE && StartOk(start, version)
            && (if version == 0 then size / 4 < 0x1_0000 else size < 0x1_0000_0000)
            && (size - 4 >= HeaderEnd(version, start) <==> !(version == 1 && !barebox && input <= 84))
            && (size >= HeaderEnd(version, start) <==> !(version == 1 && !barebox && input == 80))
            && (version == 1 && !barebox && input == 80 ==> size == TRAMPOLINE)
            && (version == 1 && !barebox && 80 < input <= 84 ==> size == TRAMPOLINE + 4)
  {
  }

  /** An image that ends where its trampoline should be cannot be started. */
  lemma NoTrampoline(img: seq<bv8>, start: nat)
    requires TRAMPOLINE <= |img| < TRAMPOLINE + 4 && start < HEADER && StartsAt(img, 1, start)
    ensures !Reaches(img, 1, start)
  {
    hide Le32;
  }

  // ---- the trampoline under the CRC

  lemma WordInjective(a0: bv8, a1: bv8, a2: bv8, a3: bv8, b0: bv8, b1: bv8, b2: bv8, b3: bv8)
    requires Word(a0, a1, a2, a3) == Word(b0, b1, b2, b3)
    ensures a0 == b0 && a1 == b1 && a2 == b2 && a3 == b3
  {
    WordBack(a0, a1, a2, a3);
    WordBack(b0, b1, b2, b3);
    hide Word; hide WordByte;
  }

  lemma WordBack(b0: bv8, b1: bv8, b2: bv8, b3: bv8)
    ensures var w := Word(b0, b1, b2, b3);
            WordByte(w, 0) == b0 && WordByte(w, 1) == b1 && WordByte(w, 2) == b2 && WordByte(w, 3) == b3
  {
  }

  lemma ValueInjective(a: bv8, b: bv8)
    requires Value(a) == Value(b)
    ensures a == b
  {
    assert (a as int) as bv8 == a && (b as int) as bv8 == b;
  }

  lemma Le24Injective(a0: bv8, a1: bv8, a2: bv8, b0: bv8, b1: bv8, b2: bv8)
    requires Le24(a0, a1, a2) == Le24(b0, b1, b2)
    ensures a0 == b0 && a1 == b1 && a2 == b2
  {
    hide Value;
    ValueInjective(a0, b0);
    ValueInjective(a1, b1);
    ValueInjective(a2, b2);
  }

  lemma Le24Bound(b0: bv8, b1: bv8, b2: bv8)
    ensures Le24(b0, b1, b2) < 0x100_0000
  {
    hide Value;
  }

  lemma TargetExact(at: int, dest: int, imm: nat)
    requires imm < 0x100_0000
    ensures BranchTarget(at, imm) == dest <==> InBranchRange(at, dest) && imm == WordOffset(at, dest) % 0x100_0000
  {
  }

  /** The bytes of a branch that reaches its destination are those of the one encoding. */
  lemma OneEncoding(b0: bv8, b1: bv8, b2: bv8, b3: bv8, at: int, dest: int)
    ensures b3 == BRANCH_INST && BranchTarget(at, Le24(b0, b1, b2)) == dest <==>
            InBranchRange(at, dest) && Word(b0, b1, b2, b3) == BranchWord(at, dest)
  {
    hide Le24; hide ByteOf; hide Word; hide BranchTarget; hide WordOffset;
    var o := WordOffset(at, dest);
    var (c0, c1, c2) := (ByteOf(o, 1), ByteOf(o, 0x100), ByteOf(o, 0x1_0000));
    Le24Bytes(o);
    Le24Bound(b0, b1, b2);
    TargetExact(at, dest, Le24(b0, b1, b2));
    if Le24(b0, b1, b2) == Le24(c0, c1, c2) { Le24Injective(b0, b1, b2, c0, c1, c2); }
    if Word(b0, b1, b2, b3) == BranchWord(at, dest) { WordInjective(b0, b1, b2, b3, c0, c1, c2, BRANCH_INST); }
  }

  /** w is what the last four bytes of an image hold for the bytes before them. */
  predicate CrcIs(msg: seq<bv8>, w: bv32) { !CrcBits(0xffff_ffff, msg) == w }

  /** In an image of 88 bytes that starts before its header, the CRC takes the place of the
      trampoline. It can be started only if the CRC happens to be the branch. */
  lemma TrampolineOverwritten(img: seq<bv8>, start: nat)
    requires |img| == TRAMPOLINE + 4 && start < HEADER && StartsAt(img, 1, start) && CrcOk(img)
    ensures Reaches(img, 1, start) <==>
            start % 4 == 0 && CrcIs(img[..TRAMPOLINE], BranchWord(TRAMPOLINE, start))
  {
    hide Le24; hide Le32; hide Word; hide BranchWord; hide BranchTarget; hide CrcBits;
    OneEncoding(img[0x54], img[0x55], img[0x56], img[0x57], TRAMPOLINE, start);
  }

  /** add_socfpga_header on such an image, in terms of what it is given: the first 64 bytes
      decide whether the image can be started. */
  method AddHeaderToSmallest(buf: array<bv8>, start: nat) returns (ok: bool)
    requires buf.Length >= TRAMPOLINE + 4 && start < HEADER
    modifies buf
    ensures var img := buf[..TRAMPOLINE + 4];
            && ok && FieldsOk(img, 1, |img|) && ChecksumOk(img, 1) && CrcOk(img)
            && (Reaches(img, 1, start) <==> start % 4 == 0 && StartsByChance(old(buf[..HEADER]), start))
  {
    hide FieldsOk; hide ChecksumOk; hide CrcOk; hide Reaches; hide StartsAt; hide V1Header; hide StartsByChance;
    ghost var first := buf[..HEADER];
    ok := AddHeader(buf, TRAMPOLINE + 4, start, 1);
    assert buf[..TRAMPOLINE + 4][..HEADER] == first;
    SmallestStarts(first, buf[..TRAMPOLINE + 4], start);
  }

  /** And on one that ends before the trampoline, which is then written behind it: everything but
      the checksum is in order, but the image cannot be started. */
  method AddHeaderBeforeEnd(buf: array<bv8>, start: nat) returns (ok: bool)
    requires buf.Length >= TRAMPOLINE + 4 && start < HEADER
    modifies buf
    ensures var img := buf[..TRAMPOLINE];
            ok && FieldsOk(img, 1, |img|) && CrcOk(img) && !Reaches(img, 1, start)
  {
    hide FieldsOk; hide ChecksumOk; hide CrcOk; hide Reaches; hide StartsAt; hide V1Header;
    ok := AddHeader(buf, TRAMPOLINE, start, 1);
    NoTrampoline(buf[..TRAMPOLINE], start);
  }

  lemma SmallestStarts(first: seq<bv8>, img: seq<bv8>, start: nat)
    requires |img| == TRAMPOLINE + 4 && start < HEADER && StartsAt(img, 1, start) && CrcOk(img)
    requires img[..HEADER] == first && img[HEADER..TRAMPOLINE] == V1Header(|img|, StartOffset(start))
    ensures Reaches(img, 1, start) <==> start % 4 == 0 && StartsByChance(first, start)
  {
    hide CrcOk; hide Reaches; hide StartsAt; hide V1Header; hide BranchWord; hide CrcIs;
    assert img[..TRAMPOLINE] == first + V1Header(TRAMPOLINE + 4, TRAMPOLINE - HEADER) by {
      assert img[..TRAMPOLINE] == img[..HEADER] + img[HEADER..TRAMPOLINE];
    }
    TrampolineOverwritten(img, start);
  }

  predicate StartsByChance(first: seq<bv8>, start: nat) {
    CrcIs(first + V1Header(TRAMPOLINE + 4, TRAMPOLINE - HEADER), BranchWord(TRAMPOLINE, start))
  }

  // ---- what a CRC detects

  predicate Low(x: bv32) { x & 1 == 1 }

  lemma UpLow(x: bv32)
    ensures !Low(Up(x)) && Low(Xor(Up(x), POLY))
  {
  }

  lemma UpInjective(x: bv32, y: bv32)
    requires Up(x) == Up(y) && Top(x) == Top(y)
    ensures x == y
  {
  }

  lemma ShiftInjective(x: bv32, y: bv32)
    requires Shift(x) == Shift(y)
    ensures x == y
  {
    hide Xor; hide Up; hide Top; hide Low;
    UpLow(x);
    UpLow(y);
    XorInjective(Up(x), Up(y), POLY);
    if Up(x) == Up(y) && Top(x) == Top(y) { UpInjective(x, y); }
  }

  lemma Shift8Injective(x: bv32, y: bv32)
    requires Shift8(x) == Shift8(y)
    ensures x == y
  {
    hide Shift;
    var (x2, y2) := (Shift(Shift(x)), Shift(Shift(y)));
    var (x4, y4) := (Shift(Shift(x2)), Shift(Shift(y2)));
    var (x6, y6) := (Shift(Shift(x4)), Shift(Shift(y4)));
    TwoShifts(x6, y6);
    TwoShifts(x4, y4);
    TwoShifts(x2, y2);
    TwoShifts(x, y);
  }

  lemma TwoShifts(x: bv32, y: bv32)
    requires Shift(Shift(x)) == Shift(Shift(y))
    ensures x == y
  {
    hide Shift;
    ShiftInjective(Shift(x), Shift(y));
    ShiftInjective(x, y);
  }

  lemma XorInjective(a: bv32, b: bv32, c: bv32)
    ensures Xor(a, c) == Xor(b, c) ==> a == b
    ensures Xor(c, a) == Xor(c, b) ==> a == b
  {
  }

  lemma HighInjective(a: bv8, b: bv8)
    requires High(a) == High(b)
    ensures a == b
  {
  }

  /** No step of the register loses information about the register or about the byte. */
  lemma NextByteInjective(c: bv32, d: bv32, a: bv8, b: bv8)
    requires NextByte(c, a) == NextByte(d, b) && (c == d || a == b)
    ensures c == d && a == b
  {
    hide NextByte; hide Shift8; hide Xor; hide High;
    NextByteShift(c, a);
    NextByteShift(d, b);
    Shift8Injective(Xor(c, High(a)), Xor(d, High(b)));
    XorInjective(c, d, High(a));
    XorInjective(High(a), High(b), c);
    if c == d { HighInjective(a, b); }
  }

  predicate DifferAt(a: seq<bv8>, b: seq<bv8>, k: nat) {
    |a| == |b| && k < |a| && a[k] != b[k] && forall i :: 0 <= i < |a| && i != k ==> a[i] == b[i]
  }

  /** Two messages that differ in one byte have different CRCs. */
  lemma {:induction false} OneByteMatters(init: bv32, a: seq<bv8>, b: seq<bv8>, k: nat)
    requires DifferAt(a, b, k)
    ensures CrcBits(init, a) != CrcBits(init, b)
  {
    hide NextByte;
    var n := |a| - 1;
    if CrcBits(init, a) == CrcBits(init, b) {
      if k == n {
        assert a[..n] == b[..n];
        NextByteInjective(CrcBits(init, a[..n]), CrcBits(init, b[..n]), a[n], b[n]);
      } else {
        OneByteMatters(init, a[..n], b[..n], k);
        NextByteInjective(CrcBits(init, a[..n]), CrcBits(init, b[..n]), a[n], b[n]);
      }
    }
  }

  /** A finished image with any one byte changed is noticed. */
  lemma CrcDetectsByte(a: seq<bv8>, b: seq<bv8>, k: nat)
    requires |a| >= 4 && CrcOk(a) && DifferAt(a, b, k)
    ensures !CrcOk(b)
  {
    hide CrcBits; hide Word;
    var n := |a| - 4;
    if CrcOk(b) {
      if k < n {
        OneByteMatters(0xffff_ffff, a[..n], b[..n], k);
      } else {
        assert a[..n] == b[..n];
        WordInjective(a[n], a[n + 1], a[n + 2], a[n + 3], b[n], b[n + 1], b[n + 2], b[n + 3]);
      }
    }
  }

  /** So of two inputs for an 88-byte image that differ in one of the first 64 bytes, one makes
      an image that cannot be started. */
  lemma NotBothByChance(a: seq<bv8>, b: seq<bv8>, start: nat, k: nat)
    requires |a| == HEADER && DifferAt(a, b, k)
    ensures !(StartsByChance(a, start) && StartsByChance(b, start))
  {
    hide CrcBits; hide V1Header; hide BranchWord;
    var h := V1Header(TRAMPOLINE + 4, TRAMPOLINE - HEADER);
    assert DifferAt(a + h, b + h, k);
    OneByteMatters(0xffff_ffff, a + h, b + h, k);
  }
}
