/** add_socfpga_header and branch of package/mkpimage/mkpimage.c, against a reader that checks
    an image and finds where it starts. Offsets are bytes from the start of the image. */
module ImageHeader {
  import opened ImageCrc

  const HEADER := 0x40          // where the header is
  const HEADER_SIZE := 20       // sizeof(struct socfpga_header)
  const TRAMPOLINE := 0x54      // the first byte after it
  const VALIDATION_WORD := 0x31305341
  const BRANCH_INST: bv8 := 0xea

  /** (v >> 8k) & 0xff of an int, negative ones included: C shifts them arithmetically. */
  function ByteOf(v: int, div: nat): bv8
    requires div > 0
  {
    ((v / div) % 256) as bv8
  }

  function Value(b: bv8): (n: nat)
    ensures n < 256
  {
    b as int
  }

  function Le16(b0: bv8, b1: bv8): nat { Value(b0) + 0x100 * Value(b1) }

  function Le24(b0: bv8, b1: bv8, b2: bv8): nat { Le16(b0, b1) + 0x1_0000 * Value(b2) }

  function Le32(b0: bv8, b1: bv8, b2: bv8, b3: bv8): nat { Le24(b0, b1, b2) + 0x100_0000 * Value(b3) }

  lemma ByteBack(x: nat)
    requires x < 256
    ensures Value(x as bv8) == x
  {
  }

  lemma ByteOfBack(v: int, div: nat)
    requires div > 0
    ensures Value(ByteOf(v, div)) == v / div % 256
  {
    hide Value;
    ByteBack(v / div % 256);
  }

  lemma TwoDigits(v: int)
    ensures v % 0x100 + 0x100 * (v / 0x100 % 0x100) == v % 0x1_0000
  {
    var q, r := v / 0x1_0000, v % 0x1_0000;
    var a, b := r / 0x100, r % 0x100;
    assert v == 0x100 * (0x100 * q + a) + b;
    assert v / 0x100 == 0x100 * q + a && v % 0x100 == b;
  }

  lemma Le16Bytes(v: int)
    ensures Le16(ByteOf(v, 1), ByteOf(v, 0x100)) == v % 0x1_0000
  {
    hide ByteOf; hide Value;
    ByteOfBack(v, 1);
    ByteOfBack(v, 0x100);
    TwoDigits(v);
  }

  lemma Le24Bytes(v: int)
    ensures Le24(ByteOf(v, 1), ByteOf(v, 0x100), ByteOf(v, 0x1_0000)) == v % 0x100_0000
  {
    hide ByteOf; hide Value; hide Le16;
    Le16Bytes(v);
    ByteOfBack(v, 0x1_0000);
  }

  lemma Le32Bytes(v: int)
    ensures Le32(ByteOf(v, 1), ByteOf(v, 0x100), ByteOf(v, 0x1_0000), ByteOf(v, 0x100_0000)) == v % 0x1_0000_0000
  {
    hide ByteOf; hide Value; hide Le24;
    Le24Bytes(v);
    ByteOfBack(v, 0x100_0000);
  }

  /** Where the ARM instruction `b` at address at goes: its 24-bit word offset, sign-extended,
      from eight bytes further on. */
  function BranchTarget(at: int, imm: nat): int {
    at + 8 + 4 * (if imm >= 0x80_0000 then imm - 0x100_0000 else imm)
  }

  /** The word offset branch encodes, before it is cut to 24 bits. */
  function WordOffset(at: int, dest: int): int { (dest - at - 8) / 4 }

  /** dest is a whole number of words and at most 32 MB from the instruction after next. */
  predicate InBranchRange(at: int, dest: int) {
    (dest - at) % 4 == 0 && -0x200_0000 <= dest - at - 8 < 0x200_0000
  }

  /** The processor takes the branch to dest exactly when dest is in range. */
  lemma BranchReaches(at: int, dest: int)
    ensures BranchTarget(at, WordOffset(at, dest) % 0x100_0000) == dest <==> InBranchRange(at, dest)
  {
  }

  function Sum(s: seq<bv8>): nat {
    if s == [] then 0 else Sum(s[..|s| - 1]) + Value(s[|s| - 1])
  }

  /** The bytes of a register in memory, lowest first, and back. */
  function WordByte(v: bv32, k: nat): bv8
    requires k < 4
  {
    if k == 0 then (v & 0xff) as bv8
    else if k == 1 then ((v >> 8) & 0xff) as bv8
    else if k == 2 then ((v >> 16) & 0xff) as bv8
    else ((v >> 24) & 0xff) as bv8
  }

  function Word(b0: bv8, b1: bv8, b2: bv8, b3: bv8): bv32 {
    (b0 as bv32) | ((b1 as bv32) << 8) | ((b2 as bv32) << 16) | ((b3 as bv32) << 24)
  }

  lemma WordBytes(v: bv32)
    ensures Word(WordByte(v, 0), WordByte(v, 1), WordByte(v, 2), WordByte(v, 3)) == v
  {
  }

  /** Where the checksum field is; the bytes summed are those from the header up to it. */
  function ChecksumAt(version: nat): nat { if version == 0 then 0x4a else 0x52 }

  /** The first byte after everything the header code writes, a trampoline included. */
  function HeaderEnd(version: nat, start: nat): nat {
    if version == 0 then 0x50 else if start >= HEADER then TRAMPOLINE else TRAMPOLINE + 4
  }

  // The reader.

  predicate CrcOk(img: seq<bv8>)
    requires |img| >= 4
  {
    var n := |img| - 4;
    Word(img[n], img[n + 1], img[n + 2], img[n + 3]) == !CrcBits(0xffff_ffff, img[..n])
  }

  /** The fields that describe the image: validation word, version, flags and lengths. */
  predicate FieldsOk(img: seq<bv8>, version: nat, size: nat)
    requires |img| >= TRAMPOLINE
  {
    var (b0, b1, b2, b3) := (img[0x40], img[0x41], img[0x42], img[0x43]);
    var (v, flags, l0, l1) := (img[0x44], img[0x45], img[0x46], img[0x47]);
    var (s0, s1, s2, s3) := (img[0x48], img[0x49], img[0x4a], img[0x4b]);
    Le32(b0, b1, b2, b3) == VALIDATION_WORD && VersionOk(v, flags, version)
    && if version == 0 then Le16(l0, l1) == size / 4 % 0x1_0000
       else Le16(l0, l1) == HEADER_SIZE && Le32(s0, s1, s2, s3) == size % 0x1_0000_0000
  }

  predicate VersionOk(v: bv8, flags: bv8, version: nat) { Value(v) == version && flags == 0 }

  predicate ChecksumOk(img: seq<bv8>, version: nat)
    requires |img| >= TRAMPOLINE
  {
    var c := ChecksumAt(version);
    Le16(img[c], img[c + 1]) == Sum(img[HEADER..c]) % 0x1_0000
  }

  /** There is a branch instruction at `at`, and it goes to entry. */
  predicate BranchesTo(img: seq<bv8>, at: nat, entry: int) {
    && at + 4 <= |img| && img[at + 3] == BRANCH_INST
    && BranchTarget(at, Le24(img[at], img[at + 1], img[at + 2])) == entry
  }

  /** Starting where the header says leads to entry: through the branch in a version 0 header,
      or directly or through one branch from the offset in a version 1 header. */
  predicate Reaches(img: seq<bv8>, version: nat, entry: nat)
    requires |img| >= TRAMPOLINE
  {
    if version == 0 then BranchesTo(img, 0x4c, entry)
    else
      var s := HEADER + Le32(img[0x4c], img[0x4d], img[0x4e], img[0x4f]);
      s == entry || BranchesTo(img, s, entry)
  }

  /** The offset in a version 1 header: the entry itself, or the trampoline. */
  predicate StartsAt(img: seq<bv8>, version: nat, start: nat)
    requires |img| >= TRAMPOLINE
  {
    version == 1 ==>
      HEADER + Le32(img[0x4c], img[0x4d], img[0x4e], img[0x4f]) == if start >= HEADER then start else TRAMPOLINE
  }

  /** The branch instruction as a word in memory. */
  function BranchWord(at: int, dest: int): bv32 {
    var o := WordOffset(at, dest);
    Word(ByteOf(o, 1), ByteOf(o, 0x100), ByteOf(o, 0x1_0000), BRANCH_INST)
  }

  function VersionByte(version: nat): bv8 { if version == 0 then 0 else 1 }

  /** The first bytes of a header: validation word, version and flags. */
  function CommonBytes(version: nat): (s: seq<bv8>)
    requires version <= 1
    ensures |s| == 6
  {
    [ByteOf(VALIDATION_WORD, 1), ByteOf(VALIDATION_WORD, 0x100), ByteOf(VALIDATION_WORD, 0x1_0000),
     ByteOf(VALIDATION_WORD, 0x100_0000), VersionByte(version), 0]
  }

  /** The bytes that follow in version 1, up to the checksum. */
  function V1Bytes(size: nat, offset: int): (s: seq<bv8>)
    ensures |s| == 12
  {
    [ByteOf(HEADER_SIZE, 1), ByteOf(HEADER_SIZE, 0x100),
     ByteOf(size, 1), ByteOf(size, 0x100), ByteOf(size, 0x1_0000), ByteOf(size, 0x100_0000),
     ByteOf(offset, 1), ByteOf(offset, 0x100), ByteOf(offset, 0x1_0000), ByteOf(offset, 0x100_0000), 0, 0]
  }

  /** A version 1 header, for an image of size bytes that starts offset bytes from the header
      on; first the bytes that the checksum covers. */
  function V1Fields(size: nat, offset: int): (s: seq<bv8>)
    ensures |s| == 0x12
  {
    CommonBytes(1) + V1Bytes(size, offset)
  }

  function V1Header(size: nat, offset: int): (s: seq<bv8>)
    ensures |s| == HEADER_SIZE
  {
    var sum := Sum(V1Fields(size, offset));
    V1Fields(size, offset) + [ByteOf(sum, 1), ByteOf(sum, 0x100)]
  }

  /** The offset in a version 1 header. */
  function StartOffset(start: int): int { (if start < HEADER then TRAMPOLINE else start) - HEADER }

  /** branch */
  method Branch(buf: array<bv8>, at: nat, dest: int)
    requires at + 4 <= buf.Length
    modifies buf
    ensures forall k :: 0 <= k < buf.Length && !(at <= k < at + 4) ==> buf[k] == old(buf[k])
    ensures buf[at + 3] == BRANCH_INST
    ensures Le24(buf[at], buf[at + 1], buf[at + 2]) == WordOffset(at, dest) % 0x100_0000
  {
    var offset := WordOffset(at, dest);
    buf[at] := ByteOf(offset, 1);
    buf[at + 1] := ByteOf(offset, 0x100);
    buf[at + 2] := ByteOf(offset, 0x1_0000);
    buf[at + 3] := BRANCH_INST;
    hide ByteOf;
    Le24Bytes(offset);
  }

  method Put16(buf: array<bv8>, at: nat, v: int)
    requires at + 2 <= buf.Length
    modifies buf
    ensures forall k :: 0 <= k < buf.Length && !(at <= k < at + 2) ==> buf[k] == old(buf[k])
    ensures Le16(buf[at], buf[at + 1]) == v % 0x1_0000
    ensures buf[at] == ByteOf(v, 1) && buf[at + 1] == ByteOf(v, 0x100)
  {
    hide ByteOf;
    Le16Bytes(v);
    buf[at] := ByteOf(v, 1);
    buf[at + 1] := ByteOf(v, 0x100);
  }

  method Put32(buf: array<bv8>, at: nat, v: int)
    requires at + 4 <= buf.Length
    modifies buf
    ensures forall k :: 0 <= k < buf.Length && !(at <= k < at + 4) ==> buf[k] == old(buf[k])
    ensures Le32(buf[at], buf[at + 1], buf[at + 2], buf[at + 3]) == v % 0x1_0000_0000
    ensures buf[at] == ByteOf(v, 1) && buf[at + 1] == ByteOf(v, 0x100)
    ensures buf[at + 2] == ByteOf(v, 0x1_0000) && buf[at + 3] == ByteOf(v, 0x100_0000)
  {
    hide ByteOf;
    Le32Bytes(v);
    buf[at] := ByteOf(v, 1);
    buf[at + 1] := ByteOf(v, 0x100);
    buf[at + 2] := ByteOf(v, 0x1_0000);
    buf[at + 3] := ByteOf(v, 0x100_0000);
  }

  /** The checksum loop. */
  method SumBytes(buf: array<bv8>, from: nat, to: nat) returns (sum: nat)
    requires from <= to <= buf.Length
    ensures sum == Sum(buf[from..to])
  {
    sum := 0;
    var i := from;
    while i < to
      invariant from <= i <= to && sum == Sum(buf[from..i])
    {
      assert buf[from..i + 1][..i - from] == buf[from..i];
      sum := sum + Value(buf[i]);
      i := i + 1;
    }
  }

  /** Validation word, version and flags. */
  method WriteCommon(buf: array<bv8>, version: nat)
    requires version <= 1 && buf.Length >= TRAMPOLINE
    modifies buf
    ensures forall k :: 0 <= k < buf.Length && !(0x40 <= k < 0x46) ==> buf[k] == old(buf[k])
    ensures Le32(buf[0x40], buf[0x41], buf[0x42], buf[0x43]) == VALIDATION_WORD
    ensures VersionOk(buf[0x44], buf[0x45], version)
    ensures buf[HEADER..0x46] == CommonBytes(version)
  {
    hide Le32; hide ByteOf; hide CommonBytes; hide VersionOk; hide VersionByte;
    Put32(buf, HEADER, VALIDATION_WORD);
    buf[0x44] := VersionByte(version);
    buf[0x45] := 0;
    ghost var s := buf[HEADER..0x46];
    assert s[0] == buf[HEADER] && s[1] == buf[HEADER + 1] && s[2] == buf[HEADER + 2] && s[3] == buf[HEADER + 3];
    CommonBytesFrom(s, version);
  }

  lemma CommonBytesFrom(s: seq<bv8>, version: nat)
    requires version <= 1 && |s| == 6 && s[4] == VersionByte(version) && s[5] == 0
    requires s[0] == ByteOf(VALIDATION_WORD, 1) && s[1] == ByteOf(VALIDATION_WORD, 0x100)
    requires s[2] == ByteOf(VALIDATION_WORD, 0x1_0000) && s[3] == ByteOf(VALIDATION_WORD, 0x100_0000)
    ensures s == CommonBytes(version) && VersionOk(s[4], s[5], version)
  {
    hide ByteOf;
  }

  /** The rest of a version 0 header but its checksum. */
  method WriteV0(buf: array<bv8>, size: nat, entry: nat)
    requires buf.Length >= TRAMPOLINE
    modifies buf
    ensures forall k :: 0 <= k < buf.Length && !(0x46 <= k < 0x50) ==> buf[k] == old(buf[k])
    ensures Le16(buf[0x46], buf[0x47]) == size / 4 % 0x1_0000
    ensures buf[0x4f] == BRANCH_INST
    ensures Le24(buf[0x4c], buf[0x4d], buf[0x4e]) == WordOffset(0x4c, entry) % 0x100_0000
  {
    hide Le16;
    hide Le24;
    Put16(buf, 0x46, size / 4);
    buf[0x48] := 0;
    buf[0x49] := 0;
    Branch(buf, 0x4c, entry);
  }

  /** The rest of a version 1 header but its checksum. */
  method WriteV1(buf: array<bv8>, size: nat, entry: nat)
    requires buf.Length >= TRAMPOLINE && HEADER <= entry
    modifies buf
    ensures forall k :: 0 <= k < buf.Length && !(0x46 <= k < 0x54) ==> buf[k] == old(buf[k])
    ensures Le16(buf[0x46], buf[0x47]) == HEADER_SIZE
    ensures Le32(buf[0x48], buf[0x49], buf[0x4a], buf[0x4b]) == size % 0x1_0000_0000
    ensures Le32(buf[0x4c], buf[0x4d], buf[0x4e], buf[0x4f]) == (entry - HEADER) % 0x1_0000_0000
    ensures buf[0x46..0x52] == V1Bytes(size, entry - HEADER)
  {
    hide Le16; hide Le32; hide ByteOf; hide V1Bytes;
    Put16(buf, 0x46, HEADER_SIZE);
    Put32(buf, 0x48, size);
    Put32(buf, 0x4c, entry - HEADER);
    buf[0x50] := 0;
    buf[0x51] := 0;
    V1BytesFrom(buf[0x46..0x52], size, entry - HEADER);
  }

  lemma V1BytesFrom(s: seq<bv8>, size: nat, offset: int)
    requires |s| == 12 && s[0] == ByteOf(HEADER_SIZE, 1) && s[1] == ByteOf(HEADER_SIZE, 0x100)
    requires s[2] == ByteOf(size, 1) && s[3] == ByteOf(size, 0x100)
    requires s[4] == ByteOf(size, 0x1_0000) && s[5] == ByteOf(size, 0x100_0000)
    requires s[6] == ByteOf(offset, 1) && s[7] == ByteOf(offset, 0x100)
    requires s[8] == ByteOf(offset, 0x1_0000) && s[9] == ByteOf(offset, 0x100_0000)
    requires s[10] == 0 && s[11] == 0
    ensures s == V1Bytes(size, offset)
  {
    hide ByteOf;
  }

  /** The header fields up to the checksum, and the start of the image. */
  method WriteFields(buf: array<bv8>, size: nat, start: nat, version: nat)
    requires version <= 1 && buf.Length >= TRAMPOLINE && buf.Length >= HeaderEnd(version, start)
    requires start < 0x1_0000_0000
    modifies buf
    ensures forall k :: 0 <= k < buf.Length && !(HEADER <= k < HeaderEnd(version, start)) ==> buf[k] == old(buf[k])
    ensures FieldsOk(buf[..], version, size)
    ensures Reaches(buf[..], version, start) <==> StartOk(start, version)
    ensures StartsAt(buf[..], version, start)
    ensures version == 1 ==> buf[HEADER..0x52] == V1Fields(size, StartOffset(start))
  {
    hide Le16; hide Le24; hide Le32; hide BranchTarget; hide WordOffset; hide ByteOf;
    hide CommonBytes; hide V1Bytes;
    if version == 0 {
      WriteCommon(buf, version);
      WriteV0(buf, size, start);
      BranchReaches(0x4c, start);
    } else {
      WriteFieldsV1(buf, size, start);
    }
  }

  /** The part for version 1, which cannot start before its header: a trampoline behind the
      header goes there instead. */
  method WriteFieldsV1(buf: array<bv8>, size: nat, start: nat)
    requires buf.Length >= HeaderEnd(1, start) && start < 0x1_0000_0000
    modifies buf
    ensures forall k :: 0 <= k < buf.Length && !(HEADER <= k < HeaderEnd(1, start)) ==> buf[k] == old(buf[k])
    ensures FieldsOk(buf[..], 1, size)
    ensures Reaches(buf[..], 1, start) <==> StartOk(start, 1)
    ensures StartsAt(buf[..], 1, start)
    ensures buf[HEADER..0x52] == V1Fields(size, StartOffset(start))
  {
    hide Le16; hide Le24; hide Le32; hide BranchTarget; hide WordOffset; hide ByteOf; hide CommonBytes; hide V1Bytes;
    var entry := start;
    if entry < HEADER {
      Branch(buf, TRAMPOLINE, entry);
      entry := TRAMPOLINE;
    }
    WriteCommon(buf, 1);
    WriteV1(buf, size, entry);
    assert buf[HEADER..0x52] == buf[HEADER..0x46] + buf[0x46..0x52];
    BranchReaches(TRAMPOLINE, start);
  }

  /** The entry points that the header can express: any word in branch range for version 0,
      and for version 1 anything from the header on and any word before it. */
  predicate StartOk(start: nat, version: nat) {
    if version == 0 then InBranchRange(0x4c, start) else start >= HEADER || start % 4 == 0
  }

  /** The checksum of the header, written behind the bytes it covers. */
  method WriteChecksum(buf: array<bv8>, version: nat)
    requires version <= 1 && buf.Length >= TRAMPOLINE
    modifies buf
    ensures forall k :: 0 <= k < buf.Length && !(ChecksumAt(version) <= k < ChecksumAt(version) + 2) ==> buf[k] == old(buf[k])
    ensures ChecksumOk(buf[..], version)
    ensures var c := ChecksumAt(version);
            buf[c] == ByteOf(Sum(old(buf[HEADER..c])), 1) && buf[c + 1] == ByteOf(Sum(old(buf[HEADER..c])), 0x100)
  {
    hide Le16; hide ByteOf;
    hide Sum;
    var c := ChecksumAt(version);
    var sum := SumBytes(buf, HEADER, c);
    ghost var covered := buf[HEADER..c];
    Put16(buf, c, sum);
    assert buf[..][HEADER..c] == covered;
  }

  /** The complemented CRC of everything before it, in the last four bytes of the image. */
  method WriteCrc(buf: array<bv8>, size: nat)
    requires 4 <= size <= buf.Length
    modifies buf
    ensures forall k :: 0 <= k < buf.Length && !(size - 4 <= k < size) ==> buf[k] == old(buf[k])
    ensures CrcOk(buf[..size])
  {
    hide CrcBits;
    hide Word;
    hide WordByte;
    var n := size - 4;
    var crc := Crc32(0xffff_ffff, buf, n);
    ghost var covered := buf[..n];
    crc := !crc;
    WordBytes(crc);
    buf[n] := WordByte(crc, 0);
    buf[n + 1] := WordByte(crc, 1);
    buf[n + 2] := WordByte(crc, 2);
    buf[n + 3] := WordByte(crc, 3);
    assert buf[..size][..n] == covered;
  }

  /** The finished image. Fields and CRC are right in every one; where the last four bytes, which
      hold the CRC, come after the rest, so is the checksum, and starting the image leads to the
      requested address exactly when the header can express that. */
  ghost predicate HeaderAdded(img: seq<bv8>, version: nat, start: nat) {
    && |img| >= TRAMPOLINE && FieldsOk(img, version, |img|) && CrcOk(img) && StartsAt(img, version, start)
    && (|img| - 4 >= ChecksumAt(version) + 2 ==> ChecksumOk(img, version))
    && (|img| - 4 >= HeaderEnd(version, start) ==> (Reaches(img, version, start) <==> StartOk(start, version)))
    && (version == 1 && |img| - 4 >= TRAMPOLINE ==> img[HEADER..TRAMPOLINE] == V1Header(|img|, StartOffset(start)))
  }

  /** add_socfpga_header on an image of size bytes at the start of buf; all that is required is
      that the memory written belongs to buf. No byte but those of the header, a trampoline and
      the CRC is written. */
  method AddHeader(buf: array<bv8>, size: nat, start: nat, version: nat) returns (ok: bool)
    requires version <= 1 && start < 0x1_0000_0000
    requires TRAMPOLINE <= size <= buf.Length && HeaderEnd(version, start) <= buf.Length
    modifies buf
    ensures ok <==> size % 4 == 0
    ensures !ok ==> buf[..] == old(buf[..])
    ensures ok ==> HeaderAdded(buf[..size], version, start)
    ensures forall k :: 0 <= k < buf.Length && !(HEADER <= k < HeaderEnd(version, start)) && !(size - 4 <= k < size) ==>
              buf[k] == old(buf[k])
  {
    if size % 4 != 0 {
      return false;
    }
    hide HeaderOk; hide HeaderAdded; hide HeaderEnd;
    WriteHeader(buf, size, start, version);
    AddCrc(buf, size, start, version);
    ok := true;
  }

  /** The CRC, after the header. */
  method AddCrc(buf: array<bv8>, size: nat, ghost start: nat, ghost version: nat)
    requires version <= 1 && TRAMPOLINE <= size <= buf.Length && HeaderOk(buf[..], size, version, start)
    modifies buf
    ensures HeaderAdded(buf[..size], version, start)
    ensures forall k :: 0 <= k < buf.Length && !(size - 4 <= k < size) ==> buf[k] == old(buf[k])
  {
    hide HeaderOk; hide HeaderAdded; hide CrcOk;
    ghost var header := buf[..];
    WriteCrc(buf, size);
    CrcKeeps(header, buf[..size], version, start);
  }

  /** The header with its checksum. */
  method WriteHeader(buf: array<bv8>, size: nat, start: nat, version: nat)
    requires version <= 1 && start < 0x1_0000_0000
    requires buf.Length >= TRAMPOLINE && buf.Length >= HeaderEnd(version, start)
    modifies buf
    ensures HeaderOk(buf[..], size, version, start)
    ensures forall k :: 0 <= k < buf.Length && !(HEADER <= k < HeaderEnd(version, start)) ==> buf[k] == old(buf[k])
  {
    hide FieldsOk; hide ChecksumOk; hide Reaches; hide StartsAt; hide V1Fields; hide V1Header; hide Sum; hide ByteOf;
    WriteFields(buf, size, start, version);
    ghost var fields := buf[..];
    WriteChecksum(buf, version);
    FieldsKept(fields, buf[..], version, start, size);
    StartKept(fields, buf[..], version, start);
    if version == 1 { V1Written(fields, buf[..], size, StartOffset(start)); }
  }

  /** A complete header for an image of size bytes, at the start of a buffer. */
  ghost predicate HeaderOk(buf: seq<bv8>, size: nat, version: nat, start: nat) {
    && |buf| >= TRAMPOLINE && FieldsOk(buf, version, size) && ChecksumOk(buf, version) && StartsAt(buf, version, start)
    && (Reaches(buf, version, start) <==> StartOk(start, version))
    && (version == 1 ==> buf[HEADER..TRAMPOLINE] == V1Header(size, StartOffset(start)))
  }

  /** What the CRC leaves of a complete header, in the image. */
  lemma CrcKeeps(a: seq<bv8>, b: seq<bv8>, version: nat, start: nat)
    requires version <= 1 && TRAMPOLINE <= |b| <= |a| && HeaderOk(a, |b|, version, start) && CrcOk(b)
    requires forall k :: 0 <= k < |b| - 4 ==> a[k] == b[k]
    ensures HeaderAdded(b, version, start)
  {
    hide CrcOk;
    hide FieldsOk; hide ChecksumOk; hide Reaches; hide StartsAt; hide V1Header;
    FieldsKept(a, b, version, start, |b|);
    if |b| - 4 >= HeaderEnd(version, start) { StartKept(a, b, version, start); }
    if |b| - 4 >= ChecksumAt(version) + 2 { ChecksumKept(a, b, version); }
    if |b| - 4 >= TRAMPOLINE { assert a[HEADER..TRAMPOLINE] == b[HEADER..TRAMPOLINE]; }
  }

  lemma V1Written(fields: seq<bv8>, summed: seq<bv8>, size: nat, offset: int)
    requires |fields| == |summed| >= TRAMPOLINE && fields[HEADER..0x52] == V1Fields(size, offset)
    requires forall k :: 0 <= k < |fields| && !(0x52 <= k < TRAMPOLINE) ==> summed[k] == fields[k]
    requires var sum := Sum(fields[HEADER..0x52]); summed[0x52] == ByteOf(sum, 1) && summed[0x53] == ByteOf(sum, 0x100)
    ensures summed[HEADER..TRAMPOLINE] == V1Header(size, offset)
  {
    hide Sum; hide ByteOf; hide V1Fields;
    assert summed[HEADER..0x52] == fields[HEADER..0x52];
    assert summed[HEADER..TRAMPOLINE] == summed[HEADER..0x52] + [summed[0x52], summed[0x53]];
  }

  /** Writing the checksum and the CRC keeps the fields. */
  lemma FieldsKept(a: seq<bv8>, b: seq<bv8>, version: nat, start: nat, size: nat)
    requires TRAMPOLINE <= |b| <= |a| && FieldsOk(a, version, size)
    requires version <= 1 && StartsAt(a, version, start)
    requires forall k :: 0 <= k < |b| - 4 && !(ChecksumAt(version) <= k < ChecksumAt(version) + 2) ==> a[k] == b[k]
    ensures FieldsOk(b, version, size) && StartsAt(b, version, start)
  {
    hide Le16;
    hide Le24;
    hide Le32;
  }

  /** And the start, where they do not overwrite it. */
  lemma StartKept(a: seq<bv8>, b: seq<bv8>, version: nat, start: nat)
    requires TRAMPOLINE <= |b| <= |a| && |b| >= HeaderEnd(version, start)
    requires version <= 1 && StartsAt(a, version, start) && (Reaches(a, version, start) <==> StartOk(start, version))
    requires forall k :: 0x4c <= k < HeaderEnd(version, start) && !(0x52 <= k < TRAMPOLINE) ==> a[k] == b[k]
    ensures Reaches(b, version, start) <==> StartOk(start, version)
  {
    hide Le16;
    hide Le24;
    hide Le32;
  }

  lemma ChecksumKept(a: seq<bv8>, b: seq<bv8>, version: nat)
    requires TRAMPOLINE <= |b| <= |a| && |b| - 4 >= ChecksumAt(version) + 2 && ChecksumOk(a, version)
    requires forall k :: 0 <= k < |b| - 4 ==> a[k] == b[k]
    ensures ChecksumOk(b, version)
  {
    hide Le16;
    hide Sum;
    assert a[HEADER..ChecksumAt(version)] == b[HEADER..ChecksumAt(version)];
  }
}
