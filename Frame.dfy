/** Pure encodings used by the driver: the read-command frame built by
    FlashRead, the JEDEC ID decoding of FlashReadID, the LQSPI_CR word
    programmed by QspiCheckRead and the boot-header signature it looks for. */
module QspiFrame {
  import opened QspiTypes

  // ---------------------------------------------------------------------------
  // Command frame (FlashRead, src/qspi.c:605-608)
  // ---------------------------------------------------------------------------

  /** The 24-bit address a device reads from bytes 1..3 of a frame, MSB first. */
  function Address24(b: seq<Byte>): (a: nat)
    requires |b| >= 3
    ensures a < BANK_SIZE
  {
    (b[0] as nat) * 0x1_0000 + (b[1] as nat) * 0x100 + b[2] as nat
  }

  /** The three address bytes of FlashRead: A[23:16], A[15:8], A[7:0]. */
  function AddressBytes(a: nat): (r: seq<Byte>)
    ensures |r| == 3
    ensures Address24(r) == a % BANK_SIZE
  {
    var hi, mid, lo := (a / 0x1_0000) % 0x100, (a / 0x100) % 0x100, a % 0x100;
    SplitAddress(a, hi, mid, lo);
    [hi, mid, lo]
  }

  lemma SplitAddress(a: nat, hi: nat, mid: nat, lo: nat)
    requires hi == (a / 0x1_0000) % 0x100 && mid == (a / 0x100) % 0x100 && lo == a % 0x100
    ensures hi * 0x1_0000 + mid * 0x100 + lo == a % BANK_SIZE
  {
    var q1 := a / 0x100;
    var q2 := q1 / 0x100;
    assert a == q1 * 0x100 + lo;
    assert q1 == q2 * 0x100 + mid;
    assert a / 0x1_0000 == q2 by {
      assert a == q2 * 0x1_0000 + (mid * 0x100 + lo);
      assert 0 <= mid * 0x100 + lo < 0x1_0000;
    }
    var q3 := q2 / 0x100;
    assert q2 == q3 * 0x100 + hi;
    assert a == q3 * BANK_SIZE + (hi * 0x1_0000 + mid * 0x100 + lo);
    assert 0 <= hi * 0x1_0000 + mid * 0x100 + lo < BANK_SIZE;
  }

  /** The 4-byte prefix FlashRead puts in WriteBuffer: command, then address. */
  function ReadFrame(cmd: Byte, a: nat): (f: seq<Byte>)
    ensures |f| == DATA_OFFSET && f[COMMAND_OFFSET] == cmd
    ensures Address24(f[1..]) == a % BANK_SIZE
  {
    [cmd] + AddressBytes(a)
  }

  /** Decoding the address bytes and encoding them again gives the same bytes:
      the frame loses nothing of a 24-bit address. */
  lemma AddressBytesOfAddress24(b: seq<Byte>)
    requires |b| == 3
    ensures AddressBytes(Address24(b)) == b
  {
    var a := Address24(b);
    assert a % BANK_SIZE == a;
    var r := AddressBytes(a);
    assert a == ((b[0] as nat) * 0x100 + b[1] as nat) * 0x100 + b[2] as nat;
    assert r[2] == b[2];
    assert a / 0x100 == (b[0] as nat) * 0x100 + b[1] as nat;
    assert r[1] == b[1];
    assert a / 0x1_0000 == b[0] by {
      assert a == (b[0] as nat) * 0x1_0000 + ((b[1] as nat) * 0x100 + b[2] as nat);
    }
  }

  /** Two addresses give the same frame exactly when they agree in their low 24 bits. */
  lemma ReadFrameInjective(cmd: Byte, a: nat, b: nat)
    ensures ReadFrame(cmd, a) == ReadFrame(cmd, b) <==> a % BANK_SIZE == b % BANK_SIZE
  {
    if a % BANK_SIZE == b % BANK_SIZE {
      AddressBytesOfAddress24(AddressBytes(a));
      AddressBytesOfAddress24(AddressBytes(b));
    } else {
      assert Address24(ReadFrame(cmd, a)[1..]) != Address24(ReadFrame(cmd, b)[1..]);
    }
  }

  // ---------------------------------------------------------------------------
  // JEDEC ID decoding (FlashReadID, src/qspi.c:547-578)
  // ---------------------------------------------------------------------------

  /** The flash make named by the first JEDEC ID byte, if the driver knows it. */
  function MakeOfId(code: Byte): (m: Option<nat>)
    ensures m.Some? <==> code in {MICRON_ID, SPANSION_ID, WINBOND_ID}
    ensures m.Some? ==> m.value == code
  {
    if code == MICRON_ID then Some(MICRON_ID)
    else if code == SPANSION_ID then Some(SPANSION_ID)
    else if code == WINBOND_ID then Some(WINBOND_ID)
    else None
  }

  /** The device capacity in bytes named by the third JEDEC ID byte, if known. */
  function SizeOfId(code: Byte): (s: Option<nat>)
  {
    if code == FLASH_SIZE_ID_128M then Some(FLASH_SIZE_128M)
    else if code == FLASH_SIZE_ID_256M then Some(FLASH_SIZE_256M)
    else if code == FLASH_SIZE_ID_512M then Some(FLASH_SIZE_512M)
    else if code == FLASH_SIZE_ID_1G then Some(FLASH_SIZE_1G)
    else None
  }

  /** The capacity code of a device size, the inverse of SizeOfId. */
  function IdOfSize(size: nat): (c: Option<Byte>)
  {
    if size == FLASH_SIZE_128M then Some(FLASH_SIZE_ID_128M)
    else if size == FLASH_SIZE_256M then Some(FLASH_SIZE_ID_256M)
    else if size == FLASH_SIZE_512M then Some(FLASH_SIZE_ID_512M)
    else if size == FLASH_SIZE_1G then Some(FLASH_SIZE_ID_1G)
    else None
  }

  /** A device size the driver can identify. */
  predicate KnownSize(size: nat)
  {
    size in {FLASH_SIZE_128M, FLASH_SIZE_256M, FLASH_SIZE_512M, FLASH_SIZE_1G}
  }

  /** Every recognised code names a whole number of banks, at most 1 Gbit,
      and decoding is inverted by IdOfSize. */
  lemma SizeOfIdRoundTrip(code: Byte)
    ensures SizeOfId(code).Some? ==> IdOfSize(SizeOfId(code).value) == Some(code)
    ensures SizeOfId(code).Some? ==> KnownSize(SizeOfId(code).value)
    ensures SizeOfId(code).Some? ==> SizeOfId(code).value % BANK_SIZE == 0
    ensures SizeOfId(code).None? <==> code !in {0x18, 0x19, 0x20, 0x21}
  {
  }

  /** Every size the driver can identify has exactly one code. */
  lemma IdOfSizeRoundTrip(size: nat)
    ensures IdOfSize(size).Some? <==> KnownSize(size)
    ensures IdOfSize(size).Some? ==> SizeOfId(IdOfSize(size).value) == Some(size)
  {
  }

  // ---------------------------------------------------------------------------
  // LQSPI_CR word (QspiCheckRead, src/qspi.c:256-259)
  // ---------------------------------------------------------------------------

  /** `reg & 0xfffff800 | cmd | (dummy & 3) << 8`. */
  function ReadConfigWord(reg: bv32, cmd: Byte, dummy: Byte): (w: bv32)
    ensures w & 0xFF == cmd as bv32
    ensures (w >> 8) & 0x3 == (dummy % 4) as bv32
    ensures w & 0x400 == 0
    ensures w & 0xFFFF_F800 == reg & 0xFFFF_F800
  {
    ReadConfigWordBits(reg, cmd as bv32, dummy as bv32);
    (reg & 0xFFFF_F800) | cmd as bv32 | ((dummy as bv32 & 0x3) << 8)
  }

  lemma ReadConfigWordBits(reg: bv32, c: bv32, d: bv32)
    requires c < 0x100 && d < 0x100
    ensures var w := (reg & 0xFFFF_F800) | c | ((d & 0x3) << 8);
      && w & 0xFF == c
      && (w >> 8) & 0x3 == d & 0x3
      && w & 0x400 == 0
      && w & 0xFFFF_F800 == reg & 0xFFFF_F800
  {
  }

  // ---------------------------------------------------------------------------
  // Boot-header signature (QspiCheckRead, src/qspi.c:271-289)
  // ---------------------------------------------------------------------------

  const BRANCH_TO_SELF: nat := 0xEAFF_FFFE
  const WIDTH_DETECTION: nat := 0xAA99_5566
  const IMAGE_IDENTIFICATION: nat := 0x584C_4E58

  /** Word `w` of a byte buffer read as a little-endian u32. */
  function WordLE(b: seq<Byte>, w: nat): (v: nat)
    requires 4 * w + 4 <= |b|
    ensures v < U32_MODULUS
  {
    b[4 * w] as nat + (b[4 * w + 1] as nat) * 0x100 + (b[4 * w + 2] as nat) * 0x1_0000
      + (b[4 * w + 3] as nat) * 0x100_0000
  }

  /** The four little-endian bytes of a u32. */
  function BytesLE(v: nat): (r: seq<Byte>)
    requires v < U32_MODULUS
    ensures |r| == 4 && WordLE(r, 0) == v
  {
    var r := [v % 0x100, (v / 0x100) % 0x100, (v / 0x1_0000) % 0x100, (v / 0x100_0000) % 0x100];
    BytesLESplit(v);
    r
  }

  lemma BytesLESplit(v: nat)
    requires v < U32_MODULUS
    ensures v % 0x100 + ((v / 0x100) % 0x100) * 0x100 + ((v / 0x1_0000) % 0x100) * 0x1_0000
            + ((v / 0x100_0000) % 0x100) * 0x100_0000 == v
  {
    var q1 := v / 0x100;
    var q2 := q1 / 0x100;
    var q3 := q2 / 0x100;
    assert v == q1 * 0x100 + v % 0x100;
    assert q1 == q2 * 0x100 + q1 % 0x100;
    assert q2 == q3 * 0x100 + q2 % 0x100;
    assert q3 < 0x100;
    assert v / 0x1_0000 == q2 by {
      assert v == q2 * 0x1_0000 + ((q1 % 0x100) * 0x100 + v % 0x100);
    }
    assert v / 0x100_0000 == q3 by {
      assert v == q3 * 0x100_0000 + ((q2 % 0x100) * 0x1_0000 + (q1 % 0x100) * 0x100 + v % 0x100);
    }
  }

  /** Words 4..9 of the first 128 bytes read from flash offset 0 are the
      BootROM header's four branch-to-self vectors, then the width-detection
      word and the 'XNLX' image identification. */
  predicate IsBootHeader(b: seq<Byte>)
  {
    && |b| >= 40
    && WordLE(b, 4) == BRANCH_TO_SELF
    && WordLE(b, 5) == BRANCH_TO_SELF
    && WordLE(b, 6) == BRANCH_TO_SELF
    && WordLE(b, 7) == BRANCH_TO_SELF
    && WordLE(b, 8) == WIDTH_DETECTION
    && WordLE(b, 9) == IMAGE_IDENTIFICATION
  }

  /** The 24 signature bytes, in flash order, that IsBootHeader looks for at offset 16. */
  function SignatureBytes(): (r: seq<Byte>)
    ensures |r| == 24
  {
    BytesLE(BRANCH_TO_SELF) + BytesLE(BRANCH_TO_SELF) + BytesLE(BRANCH_TO_SELF)
      + BytesLE(BRANCH_TO_SELF) + BytesLE(WIDTH_DETECTION) + BytesLE(IMAGE_IDENTIFICATION)
  }

  /** Little-endian words are determined by, and determine, their bytes. */
  lemma WordLEInjective(b: seq<Byte>, c: seq<Byte>)
    requires |b| == 4 && |c| == 4
    ensures WordLE(b, 0) == WordLE(c, 0) <==> b == c
  {
    if WordLE(b, 0) == WordLE(c, 0) {
      WordLEBytes(b);
      WordLEBytes(c);
    }
  }

  /** The bytes of a little-endian word are recovered by BytesLE. */
  lemma WordLEBytes(b: seq<Byte>)
    requires |b| == 4
    ensures b == BytesLE(WordLE(b, 0))
  {
    var v := WordLE(b, 0);
    var t1 := (b[1] as nat) + 0x100 * ((b[2] as nat) + 0x100 * (b[3] as nat));
    var t2 := (b[2] as nat) + 0x100 * (b[3] as nat);
    assert v == b[0] as nat + 0x100 * t1;
    DivMod256(v, t1, b[0]);
    assert t1 == b[1] as nat + 0x100 * t2;
    DivMod256(t1, t2, b[1]);
    DivMod256(t2, b[3], b[2]);
    assert v / 0x1_0000 == t2 by {
      assert v == t2 * 0x1_0000 + ((b[1] as nat) * 0x100 + b[0] as nat);
    }
    assert v / 0x100_0000 == b[3] by {
      assert v == (b[3] as nat) * 0x100_0000 + ((b[2] as nat) * 0x1_0000 + (b[1] as nat) * 0x100 + b[0] as nat);
    }
    DivMod256(b[3], 0, b[3]);
  }

  lemma DivMod256(v: nat, q: nat, r: nat)
    requires v == r + 0x100 * q && r < 0x100
    ensures v / 0x100 == q && v % 0x100 == r
  {
  }

  /** A word of a buffer has a given value exactly when its four bytes are that value's bytes. */
  lemma WordAt(b: seq<Byte>, w: nat, v: nat)
    requires 4 * w + 4 <= |b| && v < U32_MODULUS
    ensures WordLE(b, w) == v <==> b[4 * w .. 4 * w + 4] == BytesLE(v)
  {
    assert WordLE(b, w) == WordLE(b[4 * w .. 4 * w + 4], 0);
    WordLEInjective(b[4 * w .. 4 * w + 4], BytesLE(v));
  }

  /** The signature test looks at bytes 16..39 and nothing else: it holds
      exactly when they are the signature bytes. */
  lemma BootHeaderIsSignature(b: seq<Byte>)
    requires |b| >= 40
    ensures IsBootHeader(b) <==> b[16..40] == SignatureBytes()
  {
    var x, y, z := BytesLE(BRANCH_TO_SELF), BytesLE(WIDTH_DETECTION), BytesLE(IMAGE_IDENTIFICATION);
    WordAt(b, 4, BRANCH_TO_SELF);
    WordAt(b, 5, BRANCH_TO_SELF);
    WordAt(b, 6, BRANCH_TO_SELF);
    WordAt(b, 7, BRANCH_TO_SELF);
    WordAt(b, 8, WIDTH_DETECTION);
    WordAt(b, 9, IMAGE_IDENTIFICATION);
    var s, sig := b[16..40], SignatureBytes();
    assert s == b[16..20] + b[20..24] + b[24..28] + b[28..32] + b[32..36] + b[36..40];
    assert sig == x + x + x + x + y + z;
    if s == sig {
      assert b[16..20] == s[0..4] == sig[0..4] == x;
      assert b[20..24] == s[4..8] == sig[4..8] == x;
      assert b[24..28] == s[8..12] == sig[8..12] == x;
      assert b[28..32] == s[12..16] == sig[12..16] == x;
      assert b[32..36] == s[16..20] == sig[16..20] == y;
      assert b[36..40] == s[20..24] == sig[20..24] == z;
    }
  }
}
