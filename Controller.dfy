/** The QSPI controller and the flash devices behind it, as far as the read
    driver in src/qspi.c observes them: XQspiPs_PolledTransfer,
    XQspiPs_GetLqspiConfigReg / XQspiPs_SetLqspiConfigReg, and flash devices
    that answer READ ID, the bank register commands and the read commands.

    The XQspiPs driver itself is not part of this model; this module gives
    its transfers a device model so that the driver's proofs can speak about
    the bytes it reads. A transfer may fail (XQspiPs_PolledTransfer returns
    an error); a failed transfer changes no device state and leaves the
    receive buffer's contents unspecified. */
module QspiBus {
  import opened QspiTypes
  import opened QspiFrame

  /** One XQspiPs_PolledTransfer call: the command and address bytes sent
      (at most the first four), the byte count, and whether it succeeded. */
  datatype Transfer = Transfer(head: seq<Byte>, count: nat, ok: bool)

  /** The read commands the driver issues in FlashRead. */
  predicate IsReadCmd(cmd: Byte)
  {
    cmd == SINGLE_READ_CMD || cmd == FAST_READ_CMD || cmd == DUAL_READ_CMD || cmd == QUAD_READ_CMD
  }

  /** Dummy bytes a device clocks between the address and the data: none for
      READ (0x03), one for the fast, dual-output and quad-output reads. */
  function StandardDummy(cmd: Byte): nat
  {
    if cmd == SINGLE_READ_CMD then 0 else 1
  }

  /** The first bytes of what is sent, as many as the devices interpret. */
  function Head(frame: seq<Byte>, count: nat): (h: seq<Byte>)
    ensures |h| <= 4 && |h| <= count && |h| <= |frame| && h == frame[..|h|]
    ensures count >= 4 && |frame| >= 4 ==> |h| == 4
    ensures count >= 2 && |frame| >= 2 ==> |h| >= 2
  {
    var n := if count < 4 then count else 4;
    if n <= |frame| then frame[..n] else frame
  }

  /** Byte `j` of the data phase of a read at 3-byte address `a24` while the
      device's bank register holds `bank`. A 3-byte address wraps inside its
      16 MiB bank. One device holds `deviceSize` bytes; the flash image is
      the logical contents: stacked, the upper device holds the second half;
      parallel, device address `d` holds logical bytes 2d and 2d+1. Offsets
      past the end of a device read as erased. */
  function DeviceByte(conn: Topology, deviceSize: nat, image: seq<Byte>, upper: bool, bank: nat, a24: nat, j: nat): Byte
  {
    if conn == DualParallel then
      var d := bank * BANK_SIZE + (a24 + j / 2) % BANK_SIZE;
      if d < deviceSize then At(image, 2 * d + j % 2) else 0xFF
    else
      var d := bank * BANK_SIZE + (a24 + j) % BANK_SIZE;
      var base := if conn == DualStacked && upper then deviceSize else 0;
      if d < deviceSize then At(image, base + d) else 0xFF
  }

  /** The logical offset of byte `j` of a read at device address `addr`. */
  function LogicalOffset(conn: Topology, deviceSize: nat, upper: bool, addr: nat, j: nat): nat
  {
    if conn == DualParallel then 2 * addr + j
    else if conn == DualStacked && upper then deviceSize + addr + j
    else addr + j
  }

  /** A read that stays inside the bank its address is in, with the bank
      register holding that bank, returns the flash image at the matching
      logical offsets. */
  lemma DeviceByteInBank(conn: Topology, deviceSize: nat, image: seq<Byte>, upper: bool, addr: nat, j: nat)
    requires conn != DualParallel ==> addr % BANK_SIZE + j < BANK_SIZE && addr + j < deviceSize
    requires conn == DualParallel ==> addr % BANK_SIZE + j / 2 < BANK_SIZE && addr + j / 2 < deviceSize
    ensures DeviceByte(conn, deviceSize, image, upper, addr / BANK_SIZE, addr % BANK_SIZE, j)
      == At(image, LogicalOffset(conn, deviceSize, upper, addr, j))
  {
    var bank := addr / BANK_SIZE;
    assert bank * BANK_SIZE + addr % BANK_SIZE == addr;
    if conn == DualParallel {
      assert (addr % BANK_SIZE + j / 2) % BANK_SIZE == addr % BANK_SIZE + j / 2;
      assert 2 * (addr + j / 2) + j % 2 == 2 * addr + j;
    } else {
      assert (addr % BANK_SIZE + j) % BANK_SIZE == addr % BANK_SIZE + j;
    }
  }

  /** Reading past the end of a bank without changing the bank register
      wraps to the start of the same bank: the reason the driver cuts its
      reads at bank boundaries. */
  lemma DeviceByteWraps(conn: Topology, deviceSize: nat, image: seq<Byte>, upper: bool, bank: nat, j: nat)
    requires conn == Single && j < BANK_SIZE
    ensures DeviceByte(conn, deviceSize, image, upper, bank, BANK_SIZE - 1, j + 1)
      == DeviceByte(conn, deviceSize, image, upper, bank, 0, j)
  {
    assert (BANK_SIZE - 1 + (j + 1)) % BANK_SIZE == j % BANK_SIZE by {
      assert BANK_SIZE - 1 + (j + 1) == BANK_SIZE + j;
    }
  }

  /** The controller with the devices attached to it. */
  class Controller {
    /** XPAR_PS7_QSPI_0_QSPI_MODE. */
    const connection: Topology
    /** The capacity of one device in bytes. */
    const deviceSize: nat
    /** The logical flash contents. */
    const image: seq<Byte>
    /** The three JEDEC ID bytes the devices answer READ ID with. */
    const jedecId: seq<Byte>
    /** The bank register (Micron extended address register, Spansion bank
        address register) of the lower device, or of both devices in
        dual-parallel, where both receive every command. */
    var lowerBank: Byte
    /** The bank register of the upper device when stacked. */
    var upperBank: Byte
    /** XQSPIPS_LQSPI_CR. */
    var lqspiCr: bv32
    /** Every transfer, in order. */
    ghost var log: seq<Transfer>

    constructor (connection: Topology, deviceSize: nat, image: seq<Byte>, jedecId: seq<Byte>)
      ensures this.connection == connection && this.deviceSize == deviceSize
      ensures this.image == image && this.jedecId == jedecId
      ensures lowerBank == 0 && upperBank == 0 && lqspiCr == 0 && log == []
    {
      this.connection := connection;
      this.deviceSize := deviceSize;
      this.image := image;
      this.jedecId := jedecId;
      lowerBank := 0;
      upperBank := 0;
      lqspiCr := 0;
      log := [];
    }

    /** U_PAGE routes manual transfers to the upper device. */
    predicate UpperPage()
      reads this`lqspiCr
    {
      lqspiCr & U_PAGE_MASK != 0
    }

    /** Manual transfers reach the upper device. */
    predicate OnUpper()
      reads this`lqspiCr
    {
      connection == DualStacked && UpperPage()
    }

    /** The bank register of the device(s) a manual transfer reaches. */
    function CurrentBank(): Byte
      reads this
    {
      if OnUpper() then upperBank else lowerBank
    }

    /** The bank registers after a successful transfer starting with `head`:
        the two bank-register writes set the register of the device(s) the
        transfer reaches; nothing else changes a bank register. */
    function BanksAfter(head: seq<Byte>): (r: (Byte, Byte))
      reads this
      ensures !(|head| >= 2 && (head[0] == EXTADD_REG_WR || head[0] == BANK_REG_WR)) ==> r == (lowerBank, upperBank)
      ensures |head| >= 2 && (head[0] == EXTADD_REG_WR || head[0] == BANK_REG_WR) ==>
        (if OnUpper() then r == (lowerBank, head[1]) else r == (head[1], upperBank))
    {
      if |head| >= 2 && (head[0] == EXTADD_REG_WR || head[0] == BANK_REG_WR) then
        if OnUpper() then (lowerBank, head[1]) else (head[1], upperBank)
      else (lowerBank, upperBank)
    }

    /** Whether the devices drive byte `i` of the response to a transfer
        starting with `head`: the ID bytes of READ ID, the register byte of a
        bank register read, and the data phase of a read. The other bytes
        are whatever the controller samples and are left unspecified. */
    predicate Driven(head: seq<Byte>, i: nat)
    {
      && |head| > 0
      && (head[0] == READ_ID_CMD ==> 1 <= i <= 3)
      && (head[0] == EXTADD_REG_RD || head[0] == BANK_REG_RD ==> i == 1)
      && (IsReadCmd(head[0]) ==> |head| >= 4 && i >= DATA_OFFSET + StandardDummy(head[0]))
      && (head[0] == READ_ID_CMD || head[0] == EXTADD_REG_RD || head[0] == BANK_REG_RD || IsReadCmd(head[0]))
    }

    /** Byte `i` of what the devices return to a transfer starting with `head`. */
    function Response(head: seq<Byte>, i: nat): Byte
      reads this
    {
      if |head| == 0 then 0
      else if head[0] == READ_ID_CMD then
        (if 1 <= i <= 3 && i - 1 < |jedecId| then jedecId[i - 1] else 0)
      else if head[0] == EXTADD_REG_RD || head[0] == BANK_REG_RD then
        (if i == 1 then CurrentBank() else 0)
      else if IsReadCmd(head[0]) && |head| >= 4 && i >= DATA_OFFSET + StandardDummy(head[0]) then
        DeviceByte(connection, deviceSize, image, UpperPage(), CurrentBank(), Address24(head[1..]),
                   i - DATA_OFFSET - StandardDummy(head[0]))
      else 0
    }

    /** XQspiPs_PolledTransfer with no receive buffer. */
    method Send(frame: array<Byte>, count: nat) returns (ok: bool)
      modifies this
      ensures log == old(log) + [Transfer(Head(frame[..], count), count, ok)]
      ensures lqspiCr == old(lqspiCr)
      ensures (lowerBank, upperBank) == if ok then old(BanksAfter(Head(frame[..], count))) else old((lowerBank, upperBank))
    {
      var head := Head(frame[..], count);
      ok :| true;
      if ok {
        var banks := BanksAfter(head);
        lowerBank, upperBank := banks.0, banks.1;
      }
      log := log + [Transfer(head, count, ok)];
    }

    /** XQspiPs_PolledTransfer into a receive buffer. */
    method Exchange(frame: array<Byte>, recv: array<Byte>, count: nat) returns (ok: bool)
      requires count <= recv.Length && frame != recv
      modifies this, recv
      ensures log == old(log) + [Transfer(Head(frame[..], count), count, ok)]
      ensures lqspiCr == old(lqspiCr)
      ensures (lowerBank, upperBank) == if ok then old(BanksAfter(Head(frame[..], count))) else old((lowerBank, upperBank))
      ensures ok ==> forall i :: 0 <= i < count && Driven(Head(frame[..], count), i) ==>
        recv[i] == old(Response(Head(frame[..], count), i))
      ensures recv[count..] == old(recv[count..])
    {
      var head := Head(frame[..], count);
      ok :| true;
      if ok {
        for i := 0 to count
          invariant unchanged(this)
          invariant recv[count..] == old(recv[count..])
          invariant forall m :: 0 <= m < i ==> recv[m] == Response(head, m)
        {
          recv[i] := Response(head, i);
        }
        var banks := BanksAfter(head);
        lowerBank, upperBank := banks.0, banks.1;
      }
      log := log + [Transfer(head, count, ok)];
    }

    /** What the linear window at FlashReadBaseAddress + `offset` shows. */
    function LinearByte(offset: nat): Byte
    {
      At(image, offset)
    }

    /** XQspiPs_SetLqspiConfigReg. */
    method SetLqspiConfigReg(v: bv32)
      modifies this`lqspiCr
      ensures lqspiCr == v
    {
      lqspiCr := v;
    }
  }
}
