/** Constants, value types and hardware parameters shared by the model of the
    Zynq FSBL QSPI NOR read driver (src/qspi.c).

    The values of FLASH_SIZE_16MB, BANKMASK, the vendor identifiers and the
    JEDEC size codes live in qspi.h, which is not part of this model; the
    values below are the ones this model takes for them. */
module QspiTypes {

  /** One 8-bit value, as held by the driver's `u8` buffers. */
  type Byte = b: int | 0 <= b < 256

  datatype Option<T> = None | Some(value: T)

  /** Every failure of the driver is the single XST_FAILURE value. */
  datatype Status = Success | Failure

  /** XPAR_PS7_QSPI_0_QSPI_MODE: how the flash devices are wired. */
  datatype Topology = Single | DualParallel | DualStacked

  // Buffer geometry (src/qspi.c:113-139, 196-197).
  const COMMAND_OFFSET: nat := 0
  const DATA_OFFSET: nat := 4
  const OVERHEAD_SIZE: nat := 4
  const DUMMY_MAX_SIZE: nat := 8
  const DATA_SIZE: nat := 4096
  const READ_BUFFER_SIZE: nat := DATA_SIZE + DATA_OFFSET + DUMMY_MAX_SIZE
  const WRITE_BUFFER_SIZE: nat := DATA_OFFSET + DUMMY_MAX_SIZE
  const RD_ID_SIZE: nat := 4
  const BANK_SEL_SIZE: nat := 2
  const WRITE_ENABLE_CMD_SIZE: nat := 1

  // Flash commands (src/qspi.c:99-111).
  const SINGLE_READ_CMD: Byte := 0x03
  const FAST_READ_CMD: Byte := 0x0B
  const DUAL_READ_CMD: Byte := 0x3B
  const QUAD_READ_CMD: Byte := 0x6B
  const READ_ID_CMD: Byte := 0x9F
  const WRITE_ENABLE_CMD: Byte := 0x06
  const BANK_REG_RD: Byte := 0x16
  const BANK_REG_WR: Byte := 0x17
  const EXTADD_REG_RD: Byte := 0xC8
  const EXTADD_REG_WR: Byte := 0xC5

  /** FLASH_SIZE_16MB: the size of one bank, the window a 3-byte address reaches. */
  const BANK_SIZE: nat := 0x100_0000

  // Vendor identifiers (first JEDEC ID byte) and capacities (third JEDEC ID byte).
  const MICRON_ID: nat := 0x20
  const SPANSION_ID: nat := 0x01
  const WINBOND_ID: nat := 0xEF
  const FLASH_SIZE_ID_128M: Byte := 0x18
  const FLASH_SIZE_ID_256M: Byte := 0x19
  const FLASH_SIZE_ID_512M: Byte := 0x20
  const FLASH_SIZE_ID_1G: Byte := 0x21
  const FLASH_SIZE_128M: nat := 0x100_0000
  const FLASH_SIZE_256M: nat := 0x200_0000
  const FLASH_SIZE_512M: nat := 0x400_0000
  const FLASH_SIZE_1G: nat := 0x800_0000

  /** The largest total flash the driver can identify: two 1 Gbit devices. */
  const MAX_TOTAL_SIZE: nat := 2 * FLASH_SIZE_1G

  const U32_MODULUS: nat := 0x1_0000_0000

  /** XQSPIPS_LQSPI_CR_U_PAGE_MASK (xqspips_hw.h is not part of this model):
      the LQSPI_CR bit that routes manual transfers to the upper device. */
  const U_PAGE_MASK: bv32 := 0x1000_0000
  /** DUMMY_SIZE (src/qspi.c:120). */
  const DUMMY_SIZE: Byte := 1

  /** LQSPI_CR with U_PAGE set, and with it cleared. */
  function SetPage(cr: bv32): bv32
  {
    cr | U_PAGE_MASK
  }

  function ClearPage(cr: bv32): bv32
  {
    cr & !U_PAGE_MASK
  }

  /** `Address & BANKMASK`: the base of the 16 MiB bank holding `a`. */
  function BankBase(a: nat): nat
  {
    (a / BANK_SIZE) * BANK_SIZE
  }

  /** The byte at offset `i` of a flash image; offsets past its end read as erased. */
  function At(image: seq<Byte>, i: nat): Byte
  {
    if i < |image| then image[i] else 0xFF
  }

  /** Facts about BankBase that the planner's proofs use. */
  lemma BankBaseBounds(a: nat)
    ensures BankBase(a) <= a < BankBase(a) + BANK_SIZE
    ensures BankBase(a) % BANK_SIZE == 0
    ensures a - BankBase(a) == a % BANK_SIZE
  {
  }

  /** Every offset between a bank's base and its end lies in that bank. */
  lemma SameBank(a: nat, b: nat)
    requires BankBase(a) <= b < BankBase(a) + BANK_SIZE
    ensures BankBase(b) == BankBase(a)
    ensures b / BANK_SIZE == a / BANK_SIZE
  {
    BankBaseBounds(a);
    var q := a / BANK_SIZE;
    assert q * BANK_SIZE <= b < q * BANK_SIZE + BANK_SIZE;
    DivUnique(b, q);
  }

  lemma DivUnique(b: nat, q: nat)
    requires q * BANK_SIZE <= b < q * BANK_SIZE + BANK_SIZE
    ensures b / BANK_SIZE == q
  {
    var r := b - q * BANK_SIZE;
    assert 0 <= r < BANK_SIZE;
    assert b == q * BANK_SIZE + r;
  }
}
