/** The FSBL QSPI read driver of src/qspi.c: its globals as the fields of
    one driver object, and FlashReadID, FlashRead, SendBankSelect,
    QspiAccess, QspiCheckRead and InitQspi as its methods. */
module QspiDriver {
  import opened QspiTypes
  import opened QspiFrame
  import opened QspiBus
  import opened Planner

  /** Whether every transfer in `ts` succeeded. */
  ghost predicate AllOk(ts: seq<Transfer>)
  {
    forall i :: 0 <= i < |ts| ==> ts[i].ok
  }

  /** `b` is `a` with transfers appended. */
  ghost predicate Extends(a: seq<Transfer>, b: seq<Transfer>)
  {
    |a| <= |b| && b[..|a|] == a
  }

  lemma ExtendsTrans(a: seq<Transfer>, b: seq<Transfer>, c: seq<Transfer>)
    requires Extends(a, b) && Extends(b, c)
    ensures Extends(a, c)
    ensures c[|a|..] == b[|a|..] + c[|b|..]
  {
    assert c[..|b|] == b;
    assert c[..|a|] == c[..|b|][..|a|];
    assert c[|a|..] == c[|a|..|b|] + c[|b|..];
  }

  lemma {:induction false} AllOkSplit(a: seq<Transfer>, b: seq<Transfer>)
    ensures AllOk(a + b) <==> AllOk(a) && AllOk(b)
  {
    if AllOk(a) && AllOk(b) {
      forall i | 0 <= i < |a + b| ensures (a + b)[i].ok {
        if i >= |a| {
          assert (a + b)[i] == b[i - |a|];
        }
      }
    }
    if AllOk(a + b) {
      forall i | 0 <= i < |a| ensures a[i].ok {
        assert (a + b)[i] == a[i];
      }
      forall i | 0 <= i < |b| ensures b[i].ok {
        assert (a + b)[|a| + i] == b[i];
      }
    }
  }

  /** The transfers `sent` follow `frames` in order, each one only after the
      previous one succeeded, and stop early only at a failure. */
  ghost predicate SentAsPlanned(sent: seq<Transfer>, frames: seq<seq<Byte>>)
  {
    && |sent| <= |frames|
    && (forall i :: 0 <= i < |sent| ==> sent[i].head == frames[i] && sent[i].count == |frames[i]|)
    && (forall i :: 0 <= i < |sent| - 1 ==> sent[i].ok)
    && (|sent| < |frames| ==> |sent| > 0 && !sent[|sent| - 1].ok)
  }

  /** The transfers SendBankSelect makes for each flash make (src/qspi.c:850-921):
      Micron write-enables, writes the extended address register and reads
      it back; Spansion writes the bank register and reads it back; other
      makes are sent nothing. */
  function SelectFrames(make: nat, bank: Byte): (fs: seq<seq<Byte>>)
    ensures make != MICRON_ID && make != SPANSION_ID <==> fs == []
  {
    if make == MICRON_ID then [[WRITE_ENABLE_CMD], [EXTADD_REG_WR, bank], [EXTADD_REG_RD, 0]]
    else if make == SPANSION_ID then [[BANK_REG_WR, bank], [BANK_REG_RD, 0]]
    else []
  }

  /** QspiFlashSize after InitQspi's doubling (src/qspi.c:466, 476): two
      devices of `deviceSize` unless there is a single one. */
  function TotalSize(conn: Topology, deviceSize: nat): nat
  {
    if conn == Single then deviceSize else 2 * deviceSize
  }

  /** Where the data of an access from `src` starts in the flash image: in
      dual-parallel the source address is halved, so an odd one is read
      from the even byte below it (src/qspi.c:670-672). */
  function AccessStart(conn: Topology, src: nat): (s: nat)
    ensures s <= src && src - s <= 1
    ensures conn != DualParallel ==> s == src
  {
    if conn == DualParallel then 2 * (src / 2) else src
  }

  /** The length the linear path copies: rounded up to whole words
      (src/qspi.c:654-656). */
  function WordAlign(len: nat): (r: nat)
    ensures r % 4 == 0 && len <= r < len + 4
  {
    if len % 4 != 0 then len + (4 - len % 4) else len
  }

  /** memcpy of `n` bytes from `src[from..]` to `dst[at..]`. */
  method CopyBytes(dst: array<Byte>, at: nat, src: array<Byte>, from: nat, n: nat)
    requires dst != src && at + n <= dst.Length && from + n <= src.Length
    modifies dst
    ensures forall m :: 0 <= m < dst.Length ==> dst[m] == if at <= m < at + n then src[from + (m - at)] else old(dst[m])
  {
    for i := 0 to n
      invariant forall m :: 0 <= m < dst.Length ==> dst[m] == if at <= m < at + i then src[from + (m - at)] else old(dst[m])
    {
      dst[at + i] := src[from + i];
    }
  }

  /** A read of a coherent plan lies wholly inside a device. */
  lemma ChunkFits(cfg: Cfg, k: Cursor, deviceSize: nat, flashSize: nat)
    requires cfg.half == flashSize / 2 && flashSize == TotalSize(cfg.conn, deviceSize)
    requires Coherent(cfg, k) && k.remaining > 0
    requires Logical(cfg, k) + k.remaining <= flashSize
    ensures cfg.conn != DualParallel ==> NextChunk(cfg, k).addr + NextChunk(cfg, k).len <= deviceSize
    ensures cfg.conn == DualParallel ==> 2 * NextChunk(cfg, k).addr + NextChunk(cfg, k).len <= 2 * deviceSize
    ensures NextChunk(cfg, k).addr < deviceSize
  {
    AdvanceLogical(cfg, k);
  }

  /** Byte `j` of a read of a coherent plan, with the bank register holding
      the bank of its address, is the flash image at the cursor's logical
      position plus `j`. */
  lemma ChunkReadsImage(cfg: Cfg, k: Cursor, deviceSize: nat, image: seq<Byte>, flashSize: nat, upper: bool, j: nat)
    requires cfg.half == flashSize / 2 && flashSize == TotalSize(cfg.conn, deviceSize)
    requires Coherent(cfg, k) && k.remaining > 0
    requires Logical(cfg, k) + k.remaining <= flashSize
    requires cfg.conn == DualStacked ==> upper == NextChunk(cfg, k).upper
    requires j < NextChunk(cfg, k).len
    ensures DeviceByte(cfg.conn, deviceSize, image, upper, NextChunk(cfg, k).addr / BANK_SIZE,
                       NextChunk(cfg, k).addr % BANK_SIZE, j)
      == At(image, Logical(cfg, k) + j)
  {
    var ch := NextChunk(cfg, k);
    AdvanceLogical(cfg, k);
    ChunkFits(cfg, k, deviceSize, flashSize);
    BankBaseBounds(ch.addr);
    DeviceByteInBank(cfg.conn, deviceSize, image, upper, ch.addr, j);
  }

  /** What the manual loop keeps while every transfer succeeds: the cursor
      is coherent, the bank registers `cur` (of the device the cursor is on)
      and `upperReg` agree with the bank switch flag, U_PAGE (`page`) agrees
      with the cursor, and the first `at` destination bytes hold the image
      from `start`. */
  ghost predicate Tracks(cfg: Cfg, k: Cursor, cur: nat, upperReg: nat, page: bool, image: seq<Byte>,
                         d: seq<Byte>, at: nat, start: nat)
  {
    && Coherent(cfg, k)
    && BankInv(cfg, k, cur, upperReg)
    && (cfg.conn == DualStacked ==> page == k.upper)
    && (k.remaining > 0 ==> Logical(cfg, k) == start + at)
    && at <= |d|
    && (forall i :: 0 <= i < at ==> d[i] == At(image, start + i))
  }

  /** One iteration keeps Tracks: when its read is served from the bank
      registers the bank select leaves (`cur1`, `upper1`) and lands in the
      destination, the destination holds the image one chunk further on. */
  lemma TracksStep(cfg: Cfg, k: Cursor, deviceSize: nat, flashSize: nat, image: seq<Byte>,
                   cur0: nat, up0: nat, page0: bool, d0: seq<Byte>, at: nat, start: nat,
                   cur1: nat, up1: nat, page1: bool, d1: seq<Byte>)
    requires k.remaining > 0 && cfg.half == flashSize / 2 && flashSize == TotalSize(cfg.conn, deviceSize)
    requires start + at + k.remaining <= flashSize && at + k.remaining <= |d0|
    requires Tracks(cfg, k, cur0, up0, page0, image, d0, at, start)
    requires cur1 == ReadBank(NextChunk(cfg, k), cur0, up0)
    requires !NextChunk(cfg, k).upper ==> up1 == up0
    requires cfg.conn == DualStacked ==> page1 == NextChunk(cfg, k).upper
    requires |d1| == |d0|
    requires forall m :: 0 <= m < |d1| && !(at <= m < at + NextChunk(cfg, k).len) ==> d1[m] == d0[m]
    requires forall m :: at <= m < at + NextChunk(cfg, k).len ==>
      d1[m] == DeviceByte(cfg.conn, deviceSize, image, page1, cur1, NextChunk(cfg, k).addr % BANK_SIZE, m - at)
    ensures Tracks(cfg, Advance(cfg, k), cur1, up1, page1, image, d1, at + NextChunk(cfg, k).len, start)
  {
    var ch := NextChunk(cfg, k);
    BankInvStep(cfg, k, cur0, up0);
    AdvanceLogical(cfg, k);
    forall i | at <= i < at + ch.len
      ensures d1[i] == At(image, start + i)
    {
      ChunkReadsImage(cfg, k, deviceSize, image, flashSize, page1, i - at);
    }
  }

  /** The loop state QspiAccess's manual path starts from (src/qspi.c:642-672). */
  function StartCursor(conn: Topology, src: nat, len: nat): Cursor
  {
    Cursor(if conn == DualParallel then src / 2 else src, len, true, false)
  }

  /** Every operation of a successful manual QspiAccess, in order. */
  function AccessPlan(conn: Topology, flashSize: nat, src: nat, len: nat): seq<Op>
  {
    Flatten(Chunks(Cfg(conn, flashSize / 2), StartCursor(conn, src, len))) + ExitOps(conn)
  }

  /** A failed manual QspiAccess: the plan up to a bank select, which failed. */
  ghost predicate FailedAt(ops: seq<Op>, plan: seq<Op>)
  {
    exists n :: 0 <= n < |plan| && plan[n].Select? && ops == plan[..n] + [Select(plan[n].bank, false)]
  }

  /** The operations of an iteration whose bank select fails. */
  function FailedChunkPrefix(ch: Chunk): seq<Op>
  {
    if ch.toUpper then [Page(true), SlaveSelect] else []
  }

  function FailedChunkOps(ch: Chunk): seq<Op>
    requires ch.select.Some?
  {
    FailedChunkPrefix(ch) + [Select(ch.select.value, false)]
  }

  lemma FailedChunkSplit(ch: Chunk)
    requires ch.select.Some?
    ensures ChunkOps(ch) == FailedChunkPrefix(ch) + [Select(ch.select.value, true)] + [Read(ch.addr, ch.len)]
    ensures forall i :: 0 <= i < |FailedChunkOps(ch)| ==> !FailedChunkOps(ch)[i].Read?
  {
  }

  lemma FailedAtWitness(plan: seq<Op>, pre: seq<Op>, b: Byte, rest: seq<Op>)
    requires plan == pre + [Select(b, true)] + rest
    ensures FailedAt(pre + [Select(b, false)], plan)
  {
    var n := |pre|;
    assert plan[..n] == pre;
    assert plan[n] == Select(b, true);
  }

  lemma ReadBytesNoRead(done: seq<Op>, extra: seq<Op>)
    requires forall i :: 0 <= i < |extra| ==> !extra[i].Read?
    ensures ReadBytes(done + extra) == ReadBytes(done)
  {
    ReadBytesAppend(done, extra);
    NoReadBytes(extra);
  }

  lemma {:induction false} NoReadBytes(ops: seq<Op>)
    requires forall i :: 0 <= i < |ops| ==> !ops[i].Read?
    ensures ReadBytes(ops) == 0
  {
    if ops != [] {
      NoReadBytes(ops[1..]);
    }
  }

  /** `x` is `y`, possibly with U_PAGE set. */
  predicate PagedFrom(x: bv32, y: bv32)
  {
    x == y || x == SetPage(y)
  }

  /** Setting U_PAGE twice is setting it once. */
  lemma PagedTrans(a: bv32, b: bv32, c: bv32)
    requires PagedFrom(b, a) && PagedFrom(c, b)
    ensures PagedFrom(c, a)
  {
    assert (a | U_PAGE_MASK) | U_PAGE_MASK == a | U_PAGE_MASK;
  }

  /** Clearing U_PAGE undoes setting it. */
  lemma PagedClear(x: bv32, y: bv32)
    requires PagedFrom(x, y)
    ensures ClearPage(x) == ClearPage(y)
  {
    assert (y | U_PAGE_MASK) & !U_PAGE_MASK == y & !U_PAGE_MASK;
  }

  lemma AppendAssoc(a: seq<Op>, b: seq<Op>, c: seq<Op>)
    ensures a + b + c == a + (b + c)
  {
  }

  /** What the operations `ops` of an access say about its plan: they copy
      `copied` bytes, all of the plan on success, and on failure they are the
      plan up to a bank select that failed. */
  ghost predicate Outcome(ops: seq<Op>, plan: seq<Op>, status: Status, copied: nat)
  {
    && copied == ReadBytes(ops)
    && (status == Success ==> ops == plan)
    && (status == Failure ==> FailedAt(ops, plan))
  }

  /** The plan of an access after one more successful iteration. */
  lemma PlanStep(cfg: Cfg, k0: Cursor, k: Cursor, done: seq<Op>)
    requires k.remaining > 0 && Flatten(Chunks(cfg, k0)) == done + Flatten(Chunks(cfg, k))
    ensures Flatten(Chunks(cfg, k0)) == (done + ChunkOps(NextChunk(cfg, k))) + Flatten(Chunks(cfg, Advance(cfg, k)))
    ensures ReadBytes(done + ChunkOps(NextChunk(cfg, k))) == ReadBytes(done) + NextChunk(cfg, k).len
  {
    var c, r := ChunkOps(NextChunk(cfg, k)), Flatten(Chunks(cfg, Advance(cfg, k)));
    ChunksUnfold(cfg, k);
    AppendAssoc(done, c, r);
    ChunkOpsReadBytes(NextChunk(cfg, k));
    ReadBytesAppend(done, c);
  }

  /** A bank select that fails inside an iteration ends the access at that select. */
  lemma PlanFailsInChunk(cfg: Cfg, k0: Cursor, k: Cursor, done: seq<Op>, conn: Topology)
    requires k.remaining > 0 && NextChunk(cfg, k).select.Some?
    requires Flatten(Chunks(cfg, k0)) == done + Flatten(Chunks(cfg, k))
    ensures FailedAt(done + FailedChunkOps(NextChunk(cfg, k)), Flatten(Chunks(cfg, k0)) + ExitOps(conn))
    ensures ReadBytes(done + FailedChunkOps(NextChunk(cfg, k))) == ReadBytes(done)
  {
    var ch := NextChunk(cfg, k);
    var pre, sel, rd := FailedChunkPrefix(ch), Select(ch.select.value, true), Read(ch.addr, ch.len);
    var r, e := Flatten(Chunks(cfg, Advance(cfg, k))), ExitOps(conn);
    ChunksUnfold(cfg, k);
    FailedChunkSplit(ch);
    Regroup(done, pre, sel, rd, r, e);
    FailedAtWitness(Flatten(Chunks(cfg, k0)) + e, done + pre, ch.select.value, [rd] + r + e);
    AppendAssoc(done, pre, [Select(ch.select.value, false)]);
    ReadBytesNoRead(done, FailedChunkOps(ch));
  }

  lemma Regroup(done: seq<Op>, pre: seq<Op>, sel: Op, rd: Op, r: seq<Op>, e: seq<Op>)
    ensures done + (pre + [sel] + [rd] + r) + e == (done + pre) + [sel] + ([rd] + r + e)
  {
  }

  /** The exit sequence reads nothing; a failure of its bank select ends the access there. */
  lemma PlanExit(plan: seq<Op>, conn: Topology)
    ensures FailedAt(plan + [Select(0, false)], plan + ExitOps(conn))
    ensures ReadBytes(plan + [Select(0, false)]) == ReadBytes(plan)
    ensures ReadBytes(plan + ExitOps(conn)) == ReadBytes(plan)
  {
    FailedAtWitness(plan + ExitOps(conn), plan, 0, ExitOps(conn)[1..]);
    ReadBytesNoRead(plan, [Select(0, false)]);
    ReadBytesNoRead(plan, ExitOps(conn));
  }

  /** The stacked exit on a concrete access: 16 bytes across the midpoint of
      two 32 MiB devices select bank 1 of the lower device, then move to the
      upper device; the closing bank reset comes before U_PAGE is cleared, so
      it reaches only the upper device and nothing after it sets the lower
      device back to bank 0 (src/qspi.c:804, 811-824). */
  lemma StackedResetMissesLower()
    ensures AccessPlan(DualStacked, 4 * BANK_SIZE, 2 * BANK_SIZE - 8, 16)
      == [Select(1, true), Read(2 * BANK_SIZE - 8, 8), Page(true), SlaveSelect, Read(0, 8),
          Select(0, true), Page(false), SlaveSelect]
  {
    StackedAcrossMidpoint();
    var c1, c2 := Chunk(false, false, Some(1), 2 * BANK_SIZE - 8, 8, true), Chunk(true, true, None, 0, 8, false);
    assert Flatten([c1, c2]) == ChunkOps(c1) + ChunkOps(c2) by {
      assert [c1, c2][1..] == [c2];
      assert Flatten([c2]) == ChunkOps(c2) + Flatten([]);
    }
  }

  /** XQspiCmdTest: a read command and its dummy byte count (src/qspi.c:173-176). */
  datatype CmdTest = CmdTest(cmd: Byte, dummy: Byte)

  /** QspiCmdTestArray (src/qspi.c:213-216). */
  const CMD_TEST_TABLE: seq<CmdTest> := [CmdTest(0x6B, 1), CmdTest(0x3B, 1), CmdTest(0x03, 0), CmdTest(0xFF, 0xFF)]

  /** The end marker of the table: a command or a dummy count of 0xff. */
  predicate IsSentinel(e: CmdTest)
  {
    e.cmd == 0xFF || e.dummy == 0xFF
  }

  /** Where QspiCheckRead's search over `table` stops, given the verdicts
      of the entries it tried: it tried a prefix of the table holding no
      sentinel, at most 1000 entries, and, when `correctExit`, none but the
      last had the boot header; it stopped at the bound, at a sentinel, or
      (when `correctExit`) just after an entry that had the boot header. */
  predicate ScanStopped(table: seq<CmdTest>, correctExit: bool, verdicts: seq<bool>)
  {
    && |verdicts| <= |table| && |verdicts| <= 1000
    && (forall j :: 0 <= j < |verdicts| ==> !IsSentinel(table[j]))
    && (forall j :: 0 <= j < |verdicts| - 1 ==> !(correctExit && verdicts[j]))
    && (|verdicts| < |table| && |verdicts| < 1000 ==>
          IsSentinel(table[|verdicts|]) || (correctExit && |verdicts| > 0 && verdicts[|verdicts| - 1]))
  }

  /** Every entry before the sentinel is a read command with the dummy count
      the devices use for it. */
  lemma TableEntriesServe(j: nat)
    requires j < |CMD_TEST_TABLE| && !IsSentinel(CMD_TEST_TABLE[j])
    ensures IsReadCmd(CMD_TEST_TABLE[j].cmd) && CMD_TEST_TABLE[j].dummy == StandardDummy(CMD_TEST_TABLE[j].cmd)
    ensures CMD_TEST_TABLE[j].dummy <= DUMMY_MAX_SIZE
  {
  }

  /** On the shipped table the search tries all three commands when it does
      not stop at a match, and otherwise stops at the first match, trying
      at least one command. */
  lemma DefaultTableScan(correctExit: bool, verdicts: seq<bool>)
    requires ScanStopped(CMD_TEST_TABLE, correctExit, verdicts)
    ensures 1 <= |verdicts| <= 3
    ensures !correctExit ==> |verdicts| == 3
    ensures correctExit ==> (|verdicts| < 3 ==> verdicts[|verdicts| - 1])
    ensures correctExit ==> forall j :: 0 <= j < |verdicts| - 1 ==> !verdicts[j]
  {
    assert !IsSentinel(CMD_TEST_TABLE[0]) && !IsSentinel(CMD_TEST_TABLE[1]) && !IsSentinel(CMD_TEST_TABLE[2]);
    assert IsSentinel(CMD_TEST_TABLE[3]);
  }

  /** The first `n` bytes of the flash image. */
  function ImagePrefix(image: seq<Byte>, n: nat): (r: seq<Byte>)
    ensures |r| == n && forall i :: 0 <= i < n ==> r[i] == At(image, i)
  {
    seq(n, i requires 0 <= i < n => At(image, i))
  }

  /** What a manual access fixes when it starts: the planner configuration,
      the first cursor, the length, the trace, destination contents, transfer
      log and LQSPI_CR it found, whether it is a request the devices can
      serve, and the logical offset it starts from. */
  datatype Access = Access(cfg: Cfg, k0: Cursor, len: nat, t0: seq<Op>, d0: seq<Byte>,
                           log0: seq<Transfer>, cr0: bv32, good: bool, start: nat)

  /** The driver: its buffers, the flash make and size it has identified,
      the read command and dummy count FlashRead uses, LinearBootDeviceFlag,
      and the controller it drives. `trace` records the operations of
      QspiAccess in the order the source issues them. */
  class Qspi {
    const bus: Controller
    /** ReadBuffer and WriteBuffer (src/qspi.c:196-197). */
    const readBuffer: array<Byte>
    const writeBuffer: array<Byte>
    /** QspiFlashSize and QspiFlashMake. */
    var flashSize: nat
    var flashMake: nat
    /** gu8_qspi_read_cmd and gu8_qspi_dummy_byte. */
    var readCmd: Byte
    var dummy: Byte
    /** LinearBootDeviceFlag == 1. */
    var linearBoot: bool
    ghost var trace: seq<Op>

    ghost predicate Valid()
      reads this
    {
      && readBuffer.Length == READ_BUFFER_SIZE
      && writeBuffer.Length == WRITE_BUFFER_SIZE
      && readBuffer != writeBuffer
      && dummy <= DUMMY_MAX_SIZE
      && |bus.jedecId| == 3
    }

    /** The driver's globals at reset (src/qspi.c:187-200); LinearBootDeviceFlag
        is defined elsewhere and taken to start clear. */
    constructor (bus: Controller)
      requires |bus.jedecId| == 3
      ensures Valid() && this.bus == bus && fresh(readBuffer) && fresh(writeBuffer)
      ensures flashSize == 0 && flashMake == 0 && !linearBoot && trace == []
      ensures readCmd == QUAD_READ_CMD && dummy == DUMMY_SIZE
    {
      this.bus := bus;
      readBuffer := new Byte[READ_BUFFER_SIZE];
      writeBuffer := new Byte[WRITE_BUFFER_SIZE];
      flashSize := 0;
      flashMake := 0;
      readCmd := QUAD_READ_CMD;
      dummy := DUMMY_SIZE;
      linearBoot := false;
      trace := [];
    }

    /** The configuration under which the manual path can return the flash
        image: QspiFlashSize is the total of the attached devices, each at
        most 1 Gbit; stacked devices are whole banks; the read command and
        dummy count agree with the devices; and bank switching is available
        whenever a device is larger than one bank. */
    ghost predicate ReadsCorrectly()
      reads this`readCmd, this`dummy, this`flashSize, this`flashMake
    {
      && IsReadCmd(readCmd) && dummy == StandardDummy(readCmd)
      && bus.deviceSize <= FLASH_SIZE_1G
      && flashSize == TotalSize(bus.connection, bus.deviceSize)
      && (bus.connection == DualStacked ==> bus.deviceSize % BANK_SIZE == 0)
      && (flashMake == MICRON_ID || flashMake == SPANSION_ID || bus.deviceSize <= BANK_SIZE)
    }

    /** ReadsCorrectly, with the devices at bank 0 and the lower page
        selected (the upper bank register only exists when stacked). */
    ghost predicate Consistent()
      reads this`readCmd, this`dummy, this`flashSize, this`flashMake, bus`lowerBank, bus`upperBank, bus`lqspiCr
    {
      && ReadsCorrectly() && bus.lowerBank == 0 && !bus.UpperPage()
      && (bus.connection == DualStacked ==> bus.upperBank == 0)
    }

    /** Tracks, of the controller's state and the destination. */
    ghost predicate Tracking(cfg: Cfg, k: Cursor, dest: array<Byte>, at: nat, start: nat)
      reads this, bus, dest
    {
      Tracks(cfg, k, bus.CurrentBank(), bus.upperBank, bus.UpperPage(), bus.image, dest[..], at, start)
    }

    /** The manual loop's invariant: the cursor `k` is where the plan has got
        to after the operations `done`, which copied the first `at` bytes;
        the rest of the destination is untouched; only transfers were
        added; LQSPI_CR differs at most in U_PAGE and `reg` is a value it
        held; and while every transfer succeeded, Tracking and LowerKept hold. */
    ghost predicate LoopInv(a: Access, k: Cursor, at: nat, done: seq<Op>, reg: bv32, dest: array<Byte>)
      reads this, bus, dest
    {
      && Valid() && dest != readBuffer && dest != writeBuffer
      && a.cfg == Cfg(bus.connection, flashSize / 2)
      && (a.good ==> ReadsCorrectly() && a.start + a.len <= flashSize)
      && a.len <= dest.Length && |a.d0| == dest.Length
      && at + k.remaining == a.len
      && Flatten(Chunks(a.cfg, a.k0)) == done + Flatten(Chunks(a.cfg, k))
      && trace == a.t0 + done
      && ReadBytes(done) == at
      && dest[at..] == a.d0[at..]
      && Extends(a.log0, bus.log)
      && PagedFrom(bus.lqspiCr, a.cr0) && (bus.connection != DualStacked ==> bus.lqspiCr == a.cr0)
      && (bus.connection == DualStacked && at > 0 ==> PagedFrom(reg, a.cr0))
      && (a.good && AllOk(bus.log[|a.log0|..]) ==> Tracking(a.cfg, k, dest, at, a.start) && LowerKept(a, k))
    }

    /** A stacked access that starts at or above the midpoint stays on the
        upper device, so the lower device keeps bank 0 throughout. */
    ghost predicate LowerKept(a: Access, k: Cursor)
      reads bus`lowerBank
    {
      a.cfg.conn == DualStacked && a.k0.addr >= a.cfg.half ==> bus.lowerBank == 0 && (k.upper || k.addr >= a.cfg.half)
    }

    /** The state the manual loop leaves when a bank select failed: the
        operations `done` are the plan up to that select, the first `at`
        bytes were copied, and some transfer failed (or the make has no
        bank select and the stale read-back did not match). */
    ghost predicate Stopped(a: Access, at: nat, done: seq<Op>, dest: array<Byte>)
      reads this, bus, dest
    {
      && Valid()
      && at <= a.len && a.len <= dest.Length && |a.d0| == dest.Length
      && FailedAt(done, Flatten(Chunks(a.cfg, a.k0)) + ExitOps(bus.connection))
      && trace == a.t0 + done
      && ReadBytes(done) == at
      && dest[at..] == a.d0[at..]
      && Extends(a.log0, bus.log)
      && PagedFrom(bus.lqspiCr, a.cr0) && (bus.connection != DualStacked ==> bus.lqspiCr == a.cr0)
      && !(a.good && AllOk(bus.log[|a.log0|..]))
      && !(AllOk(bus.log[|a.log0|..]) && (flashMake == MICRON_ID || flashMake == SPANSION_ID))
    }

    /** FlashReadID (src/qspi.c:520-581): READ ID, then the make from the
        first ID byte and the size from the third; an unknown code leaves
        the previous value. */
    method FlashReadID() returns (status: Status)
      requires Valid()
      modifies this`flashMake, this`flashSize, writeBuffer, readBuffer, bus
      ensures Valid()
      ensures writeBuffer[..] == [READ_ID_CMD, 0, 0, 0] + old(writeBuffer[RD_ID_SIZE..])
      ensures bus.log == old(bus.log) + [Transfer([READ_ID_CMD, 0, 0, 0], RD_ID_SIZE, status == Success)]
      ensures bus.lowerBank == old(bus.lowerBank) && bus.upperBank == old(bus.upperBank) && bus.lqspiCr == old(bus.lqspiCr)
      ensures readBuffer[RD_ID_SIZE..] == old(readBuffer[RD_ID_SIZE..])
      ensures status == Success ==> readBuffer[1..RD_ID_SIZE] == bus.jedecId
      ensures status == Success ==>
        flashMake == (match MakeOfId(bus.jedecId[0]) case Some(m) => m case None => old(flashMake))
      ensures status == Success ==>
        flashSize == (match SizeOfId(bus.jedecId[2]) case Some(s) => s case None => old(flashSize))
      ensures status == Failure ==> flashMake == old(flashMake) && flashSize == old(flashSize)
    {
      writeBuffer[0] := READ_ID_CMD;
      writeBuffer[1] := 0;
      writeBuffer[2] := 0;
      writeBuffer[3] := 0;
      assert writeBuffer[..4] == [READ_ID_CMD, 0, 0, 0];
      assert writeBuffer[..] == writeBuffer[..4] + writeBuffer[4..];
      var ok := bus.Exchange(writeBuffer, readBuffer, RD_ID_SIZE);
      if !ok {
        return Failure;
      }
      var head := [READ_ID_CMD, 0, 0, 0];
      assert bus.Driven(head, 1) && bus.Driven(head, 2) && bus.Driven(head, 3);
      assert readBuffer[1..RD_ID_SIZE] == [readBuffer[1], readBuffer[2], readBuffer[3]];
      match MakeOfId(readBuffer[1]) {
        case Some(m) => flashMake := m;
        case None =>
      }
      match SizeOfId(readBuffer[3]) {
        case Some(s) => flashSize := s;
        case None =>
      }
      return Success;
    }

    /** FlashRead (src/qspi.c:598-619): the read command and 3-byte address,
        then ByteCount + dummy data bytes. The transfer's status is dropped;
        `ok` exposes it to the proofs only. */
    method FlashRead(address: nat, byteCount: nat) returns (ghost ok: bool)
      requires Valid() && byteCount + dummy + OVERHEAD_SIZE <= READ_BUFFER_SIZE
      modifies this`trace, bus, writeBuffer, readBuffer
      ensures Valid()
      ensures trace == old(trace) + [Read(address, byteCount)]
      ensures writeBuffer[..] == ReadFrame(readCmd, address) + old(writeBuffer[DATA_OFFSET..])
      ensures bus.log == old(bus.log) + [Transfer(ReadFrame(readCmd, address), byteCount + dummy + OVERHEAD_SIZE, ok)]
      ensures bus.lqspiCr == old(bus.lqspiCr)
      ensures (bus.lowerBank, bus.upperBank) ==
        if ok then old(bus.BanksAfter(ReadFrame(readCmd, address))) else old((bus.lowerBank, bus.upperBank))
      ensures IsReadCmd(readCmd) ==> bus.lowerBank == old(bus.lowerBank) && bus.upperBank == old(bus.upperBank)
      ensures ok && IsReadCmd(readCmd) && dummy == StandardDummy(readCmd) ==>
        forall j :: 0 <= j < byteCount ==>
          readBuffer[DATA_OFFSET + dummy + j]
            == DeviceByte(bus.connection, bus.deviceSize, bus.image, bus.UpperPage(), bus.CurrentBank(), address % BANK_SIZE, j)
      ensures readBuffer[byteCount + dummy + OVERHEAD_SIZE..] == old(readBuffer[byteCount + dummy + OVERHEAD_SIZE..])
    {
      var frame := ReadFrame(readCmd, address);
      writeBuffer[0] := frame[0];
      writeBuffer[1] := frame[1];
      writeBuffer[2] := frame[2];
      writeBuffer[3] := frame[3];
      assert writeBuffer[..4] == frame;
      assert writeBuffer[..] == writeBuffer[..4] + writeBuffer[4..];
      var count := byteCount + dummy + OVERHEAD_SIZE;
      ghost var bank0, page0 := bus.CurrentBank(), bus.UpperPage();
      ok := bus.Exchange(writeBuffer, readBuffer, count);
      trace := trace + [Read(address, byteCount)];
      if ok && IsReadCmd(readCmd) && dummy == StandardDummy(readCmd) {
        assert Head(writeBuffer[..], count) == frame;
        forall j | 0 <= j < byteCount
          ensures readBuffer[DATA_OFFSET + dummy + j]
            == DeviceByte(bus.connection, bus.deviceSize, bus.image, bus.UpperPage(), bus.CurrentBank(), address % BANK_SIZE, j)
        {
          assert bus.Driven(frame, DATA_OFFSET + dummy + j);
          assert frame[1..] == AddressBytes(address);
        }
      }
    }

    /** One bank-register command of at most two bytes, placed at the start
        of WriteBuffer and sent, into ReadBuffer when `receive` holds and
        with no receive buffer otherwise. */
    method SendCommand(frame: seq<Byte>, receive: bool) returns (ok: bool)
      requires Valid() && 1 <= |frame| <= BANK_SEL_SIZE
      modifies bus, writeBuffer, readBuffer
      ensures Valid()
      ensures writeBuffer[..|frame|] == frame && writeBuffer[BANK_SEL_SIZE..] == old(writeBuffer[BANK_SEL_SIZE..])
      ensures bus.log == old(bus.log) + [Transfer(frame, |frame|, ok)]
      ensures bus.lqspiCr == old(bus.lqspiCr)
      ensures (bus.lowerBank, bus.upperBank) == if ok then old(bus.BanksAfter(frame)) else old((bus.lowerBank, bus.upperBank))
      ensures receive && ok && |frame| == BANK_SEL_SIZE && bus.Driven(frame, 1) ==> readBuffer[1] == old(bus.Response(frame, 1))
      ensures !receive ==> readBuffer[..] == old(readBuffer[..])
      ensures readBuffer[BANK_SEL_SIZE..] == old(readBuffer[BANK_SEL_SIZE..])
    {
      writeBuffer[0] := frame[0];
      if |frame| == 2 {
        writeBuffer[1] := frame[1];
      }
      assert writeBuffer[..|frame|] == frame;
      assert Head(writeBuffer[..], |frame|) == frame;
      if receive {
        ok := bus.Exchange(writeBuffer, readBuffer, |frame|);
      } else {
        ok := bus.Send(writeBuffer, |frame|);
      }
    }

    /** SendBankSelect (src/qspi.c:843-930): the make's bank-select transfers,
        stopping at the first failure; success when the register read back
        (for other makes: whatever ReadBuffer[1] already held) is `bank`. */
    method SendBankSelect(bank: Byte) returns (status: Status)
      requires Valid()
      modifies this`trace, bus, writeBuffer, readBuffer
      ensures Valid()
      ensures trace == old(trace) + [Select(bank, status == Success)]
      ensures bus.lqspiCr == old(bus.lqspiCr)
      ensures Extends(old(bus.log), bus.log)
      ensures SentAsPlanned(bus.log[|old(bus.log)|..], SelectFrames(flashMake, bank))
      ensures status == Success <==>
        |bus.log| - |old(bus.log)| == |SelectFrames(flashMake, bank)| && AllOk(bus.log[|old(bus.log)|..]) && readBuffer[1] == bank
      ensures AllOk(bus.log[|old(bus.log)|..]) && (flashMake == MICRON_ID || flashMake == SPANSION_ID) ==>
        status == Success && (bus.lowerBank, bus.upperBank) == old(bus.BanksAfter([EXTADD_REG_WR, bank]))
      ensures (bus.lowerBank, bus.upperBank) == old((bus.lowerBank, bus.upperBank))
        || (bus.lowerBank, bus.upperBank) == old(bus.BanksAfter([EXTADD_REG_WR, bank]))
      ensures (flashMake == MICRON_ID || flashMake == SPANSION_ID) ==> |bus.log| > |old(bus.log)|
      ensures (flashMake == MICRON_ID || flashMake == SPANSION_ID) && status == Failure ==> !bus.log[|bus.log| - 1].ok
      ensures SelectFrames(flashMake, bank) == [] ==> readBuffer[..] == old(readBuffer[..])
      ensures readBuffer[BANK_SEL_SIZE..] == old(readBuffer[BANK_SEL_SIZE..])
      ensures writeBuffer[BANK_SEL_SIZE..] == old(writeBuffer[BANK_SEL_SIZE..])
    {
      var ok := true;
      ghost var sent: seq<Transfer> := [];
      if flashMake == MICRON_ID {
        ok, sent := MicronBankSelect(bank);
      } else if flashMake == SPANSION_ID {
        ok, sent := SpansionBankSelect(bank);
      }
      assert bus.log[|old(bus.log)|..] == sent;
      status := if ok && readBuffer[1] == bank then Success else Failure;
      trace := trace + [Select(bank, status == Success)];
    }

    /** The Micron branch of SendBankSelect (src/qspi.c:850-873, 908-921):
        WREN, write the extended address register, read it back. */
    method MicronBankSelect(bank: Byte) returns (ok: bool, ghost sent: seq<Transfer>)
      requires Valid()
      modifies bus, writeBuffer, readBuffer
      ensures Valid()
      ensures bus.log == old(bus.log) + sent && bus.lqspiCr == old(bus.lqspiCr)
      ensures SentAsPlanned(sent, SelectFrames(MICRON_ID, bank))
      ensures ok <==> |sent| == 3 && AllOk(sent)
      ensures AllOk(sent) ==> ok
      ensures ok ==> readBuffer[1] == bank && (bus.lowerBank, bus.upperBank) == old(bus.BanksAfter([EXTADD_REG_WR, bank]))
      ensures (bus.lowerBank, bus.upperBank) == old((bus.lowerBank, bus.upperBank))
        || (bus.lowerBank, bus.upperBank) == old(bus.BanksAfter([EXTADD_REG_WR, bank]))
      ensures readBuffer[BANK_SEL_SIZE..] == old(readBuffer[BANK_SEL_SIZE..])
      ensures writeBuffer[BANK_SEL_SIZE..] == old(writeBuffer[BANK_SEL_SIZE..])
    {
      ok := SendCommand([WRITE_ENABLE_CMD], false);
      sent := [Transfer([WRITE_ENABLE_CMD], 1, ok)];
      if !ok {
        return;
      }
      assert AllOk(sent);
      ok := SendCommand([EXTADD_REG_WR, bank], false);
      AllOkSplit(sent, [Transfer([EXTADD_REG_WR, bank], 2, ok)]);
      sent := sent + [Transfer([EXTADD_REG_WR, bank], 2, ok)];
      assert sent[1].ok == ok;
      if !ok {
        return;
      }
      assert AllOk(sent);
      assert bus.CurrentBank() == bank;
      assert bus.Driven([EXTADD_REG_RD, 0], 1);
      ok := SendCommand([EXTADD_REG_RD, 0], true);
      AllOkSplit(sent, [Transfer([EXTADD_REG_RD, 0], 2, ok)]);
      sent := sent + [Transfer([EXTADD_REG_RD, 0], 2, ok)];
      assert sent[2].ok == ok;
    }

    /** The Spansion branch of SendBankSelect (src/qspi.c:875-906): write the
        bank address register, read it back. */
    method SpansionBankSelect(bank: Byte) returns (ok: bool, ghost sent: seq<Transfer>)
      requires Valid()
      modifies bus, writeBuffer, readBuffer
      ensures Valid()
      ensures bus.log == old(bus.log) + sent && bus.lqspiCr == old(bus.lqspiCr)
      ensures SentAsPlanned(sent, SelectFrames(SPANSION_ID, bank))
      ensures ok <==> |sent| == 2 && AllOk(sent)
      ensures AllOk(sent) ==> ok
      ensures ok ==> readBuffer[1] == bank && (bus.lowerBank, bus.upperBank) == old(bus.BanksAfter([EXTADD_REG_WR, bank]))
      ensures (bus.lowerBank, bus.upperBank) == old((bus.lowerBank, bus.upperBank))
        || (bus.lowerBank, bus.upperBank) == old(bus.BanksAfter([EXTADD_REG_WR, bank]))
      ensures readBuffer[BANK_SEL_SIZE..] == old(readBuffer[BANK_SEL_SIZE..])
      ensures writeBuffer[BANK_SEL_SIZE..] == old(writeBuffer[BANK_SEL_SIZE..])
    {
      ok := SendCommand([BANK_REG_WR, bank], false);
      sent := [Transfer([BANK_REG_WR, bank], 2, ok)];
      if !ok {
        return;
      }
      assert AllOk(sent);
      assert bus.CurrentBank() == bank;
      assert bus.Driven([BANK_REG_RD, 0], 1);
      ok := SendCommand([BANK_REG_RD, 0], true);
      AllOkSplit(sent, [Transfer([BANK_REG_RD, 0], 2, ok)]);
      sent := sent + [Transfer([BANK_REG_RD, 0], 2, ok)];
      assert sent[1].ok == ok;
    }

    /** The linear path of QspiAccess (src/qspi.c:650-660): the length is
        rounded up to whole words and copied from the linear window. */
    method LinearAccess(src: nat, dest: array<Byte>, len: nat) returns (copied: nat)
      requires dest.Length >= WordAlign(len)
      modifies dest
      ensures copied == WordAlign(len)
      ensures forall i :: 0 <= i < dest.Length ==> dest[i] == if i < copied then bus.LinearByte(src + i) else old(dest[i])
    {
      var length := len;
      if length % 4 != 0 {
        length := length + (4 - length % 4);
      }
      for i := 0 to length
        invariant forall m :: 0 <= m < dest.Length ==> dest[m] == if m < i then bus.LinearByte(src + m) else old(dest[m])
      {
        dest[i] := bus.LinearByte(src + i);
      }
      copied := length;
    }

    /** The dual-stacked device selection of one iteration (src/qspi.c:688-714):
        at or above the midpoint, set U_PAGE, move the address into the upper
        device and assert its chip select. Returns the address and the
        LQSPI_CR value read before the change. */
    method SelectDevice(addr: nat) returns (naddr: nat, reg: bv32)
      modifies this`trace, bus`lqspiCr
      ensures reg == old(bus.lqspiCr)
      ensures addr >= flashSize / 2 ==>
        naddr == addr - flashSize / 2 && bus.lqspiCr == SetPage(reg) && trace == old(trace) + [Page(true), SlaveSelect]
      ensures addr < flashSize / 2 ==> naddr == addr && bus.lqspiCr == reg && trace == old(trace)
    {
      reg := bus.lqspiCr;
      naddr := addr;
      if addr >= flashSize / 2 {
        bus.SetLqspiConfigReg(SetPage(reg));
        naddr := addr - flashSize / 2;
        trace := trace + [Page(true), SlaveSelect];
      }
    }

    /** FlashRead of one chunk, then the memcpy of its data from ReadBuffer to
        the destination (src/qspi.c:764-782). */
    method ReadChunk(addr: nat, length: nat, dest: array<Byte>, at: nat) returns (ghost ok: bool)
      requires Valid() && dest != readBuffer && dest != writeBuffer
      requires length <= DATA_SIZE && at + length <= dest.Length
      modifies this`trace, bus, readBuffer, writeBuffer, dest
      ensures Valid()
      ensures trace == old(trace) + [Read(addr, length)]
      ensures bus.log == old(bus.log) + [Transfer(ReadFrame(readCmd, addr), length + dummy + OVERHEAD_SIZE, ok)]
      ensures bus.lqspiCr == old(bus.lqspiCr)
      ensures (bus.lowerBank, bus.upperBank) ==
        if ok then old(bus.BanksAfter(ReadFrame(readCmd, addr))) else old((bus.lowerBank, bus.upperBank))
      ensures IsReadCmd(readCmd) ==> bus.lowerBank == old(bus.lowerBank) && bus.upperBank == old(bus.upperBank)
      ensures forall m :: 0 <= m < dest.Length && !(at <= m < at + length) ==> dest[m] == old(dest[m])
      ensures forall m :: at <= m < at + length ==> dest[m] == readBuffer[DATA_OFFSET + dummy + (m - at)]
      ensures ok && IsReadCmd(readCmd) && dummy == StandardDummy(readCmd) ==>
        forall m :: at <= m < at + length ==>
          dest[m] == DeviceByte(bus.connection, bus.deviceSize, bus.image, bus.UpperPage(), bus.CurrentBank(), addr % BANK_SIZE, m - at)
    {
      ok := FlashRead(addr, length);
      CopyBytes(dest, at, readBuffer, DATA_OFFSET + dummy, length);
    }

    /** The first half of one iteration of the manual read loop
        (src/qspi.c:674-738): when stacked, the chip-select switch at the
        midpoint; then, with the bank switch flag set and the address at or
        above 16 MiB, SendBankSelect. `selected` is Failure when
        SendBankSelect failed, which ends the access. */
    method EnterChunk(ghost cfg: Cfg, ghost k: Cursor, addr: nat, armed: bool, reg0: bv32, ghost good: bool)
      returns (selected: Status, naddr: nat, narmed: bool, reg: bv32)
      requires Valid()
      requires cfg == Cfg(bus.connection, flashSize / 2) && k.addr == addr && k.armed == armed && k.remaining > 0
      requires good ==> ReadsCorrectly() && NextChunk(cfg, k).addr < bus.deviceSize
      requires good && bus.connection == DualStacked ==> bus.UpperPage() == k.upper
      modifies this`trace, bus, readBuffer, writeBuffer
      ensures Valid() && Extends(old(bus.log), bus.log)
      ensures selected == Success ==>
        && naddr == NextChunk(cfg, k).addr
        && narmed == (if NextChunk(cfg, k).select.Some? then false else armed)
        && trace == old(trace) + FailedChunkPrefix(NextChunk(cfg, k))
             + (if NextChunk(cfg, k).select.Some? then [Select(NextChunk(cfg, k).select.value, true)] else [])
      ensures selected == Failure ==>
        NextChunk(cfg, k).select.Some? && trace == old(trace) + FailedChunkOps(NextChunk(cfg, k))
      ensures selected == Failure ==>
        !(AllOk(bus.log[|old(bus.log)|..]) && (flashMake == MICRON_ID || flashMake == SPANSION_ID))
      ensures bus.connection == DualStacked ==> reg == old(bus.lqspiCr)
      ensures bus.connection != DualStacked ==> reg == reg0 && bus.lqspiCr == old(bus.lqspiCr)
      ensures PagedFrom(bus.lqspiCr, old(bus.lqspiCr))
      ensures bus.connection == DualStacked && NextChunk(cfg, k).toUpper ==> bus.lqspiCr == SetPage(old(bus.lqspiCr))
      ensures bus.connection == DualStacked && !NextChunk(cfg, k).toUpper ==> bus.lqspiCr == old(bus.lqspiCr)
      ensures good && AllOk(bus.log[|old(bus.log)|..]) ==>
        && selected == Success
        && bus.CurrentBank() == ReadBank(NextChunk(cfg, k), old(bus.CurrentBank()), old(bus.upperBank))
        && (!NextChunk(cfg, k).upper ==> bus.upperBank == old(bus.upperBank))
        && (bus.connection == DualStacked && NextChunk(cfg, k).upper ==> bus.lowerBank == old(bus.lowerBank))
    {
      var conn := bus.connection;
      ghost var ch := NextChunk(cfg, k);
      ghost var log0 := bus.log;
      naddr, narmed, reg := addr, armed, reg0;

      // Dual stacked: switch to the upper device at the midpoint.
      if conn == DualStacked {
        naddr, reg := SelectDevice(naddr);
      }
      selected := Success;
      if naddr >= BANK_SIZE && narmed {
        var st := SendBankSelect((naddr / BANK_SIZE) % 256);
        if st == Failure {
          selected := Failure;
          return;
        }
        narmed := false;
      }
    }

    /** The second half of one iteration of the manual read loop
        (src/qspi.c:740-797): trim the read at the end of the bank, read it
        with FlashRead and copy it out, and move the cursor on. */
    method ReadStep(ghost cfg: Cfg, ghost k: Cursor, addr: nat, remaining: nat, armed: bool,
                    dest: array<Byte>, at: nat)
      returns (naddr: nat, nremaining: nat, narmed: bool, ghost ok: bool)
      requires Valid() && dest != readBuffer && dest != writeBuffer && at + remaining <= dest.Length
      requires cfg == Cfg(bus.connection, flashSize / 2) && k.remaining == remaining > 0
      requires addr == NextChunk(cfg, k).addr && armed == (if NextChunk(cfg, k).select.Some? then false else k.armed)
      modifies this`trace, bus, readBuffer, writeBuffer, dest
      ensures Valid()
      ensures trace == old(trace) + [Read(addr, NextChunk(cfg, k).len)]
      ensures bus.log == old(bus.log) + [Transfer(ReadFrame(readCmd, addr), NextChunk(cfg, k).len + dummy + OVERHEAD_SIZE, ok)]
      ensures bus.lqspiCr == old(bus.lqspiCr)
      ensures IsReadCmd(readCmd) ==> bus.lowerBank == old(bus.lowerBank) && bus.upperBank == old(bus.upperBank)
      ensures Advance(cfg, k) == Cursor(naddr, nremaining, narmed, Advance(cfg, k).upper)
      ensures forall m :: 0 <= m < dest.Length && !(at <= m < at + NextChunk(cfg, k).len) ==> dest[m] == old(dest[m])
      ensures ok && IsReadCmd(readCmd) && dummy == StandardDummy(readCmd) ==>
        forall m :: at <= m < at + NextChunk(cfg, k).len ==>
          dest[m] == DeviceByte(bus.connection, bus.deviceSize, bus.image, bus.UpperPage(), bus.CurrentBank(), addr % BANK_SIZE, m - at)
    {
      var conn := bus.connection;
      var length: nat := if remaining > DATA_SIZE then DATA_SIZE else remaining;
      narmed := armed;
      if conn == DualParallel {
        if BankBase(addr) != BankBase(addr + length / 2) {
          length := (BankBase(addr) + BANK_SIZE - addr) * 2;
          narmed := true;
        }
      } else {
        if BankBase(addr) != BankBase(addr + length) {
          length := BankBase(addr) + BANK_SIZE - addr;
          narmed := true;
        }
      }
      assert length == NextChunk(cfg, k).len;
      ok := ReadChunk(addr, length, dest, at);
      nremaining := remaining - length;
      if conn == DualParallel {
        naddr := addr + length / 2;
      } else {
        naddr := addr + length;
      }
    }

    /** The work of one iteration of the manual read loop (src/qspi.c:674-797).
        `selected` is Failure when SendBankSelect failed, which ends the access. */
    method ReadNextChunk(ghost cfg: Cfg, ghost k: Cursor, addr: nat, remaining: nat, armed: bool, reg0: bv32,
                      dest: array<Byte>, at: nat, ghost good: bool, ghost start: nat, ghost log0: seq<Transfer>)
      returns (selected: Status, naddr: nat, nremaining: nat, narmed: bool, reg: bv32, ghost ops: seq<Op>)
      requires Valid() && dest != readBuffer && dest != writeBuffer && at + remaining <= dest.Length
      requires cfg == Cfg(bus.connection, flashSize / 2) && k == Cursor(addr, remaining, armed, k.upper) && remaining > 0
      requires good ==> ReadsCorrectly() && start + at + remaining <= flashSize
      requires Extends(log0, bus.log)
      requires good && AllOk(bus.log[|log0|..]) ==> Tracking(cfg, k, dest, at, start)
      modifies this`trace, bus, readBuffer, writeBuffer, dest
      ensures Valid() && Extends(log0, bus.log)
      ensures trace == old(trace) + ops
      ensures selected == Success ==>
        && ops == ChunkOps(NextChunk(cfg, k))
        && Advance(cfg, k) == Cursor(naddr, nremaining, narmed, Advance(cfg, k).upper)
      ensures selected == Failure ==>
        NextChunk(cfg, k).select.Some? && ops == FailedChunkOps(NextChunk(cfg, k))
      ensures selected == Failure ==>
        !(AllOk(bus.log[|log0|..]) && (flashMake == MICRON_ID || flashMake == SPANSION_ID))
      ensures selected == Success ==> forall m :: 0 <= m < dest.Length && !(at <= m < at + NextChunk(cfg, k).len) ==> dest[m] == old(dest[m])
      ensures selected == Failure ==> forall m :: 0 <= m < dest.Length ==> dest[m] == old(dest[m])
      ensures bus.connection == DualStacked ==> reg == old(bus.lqspiCr)
      ensures bus.connection != DualStacked ==> reg == reg0 && bus.lqspiCr == old(bus.lqspiCr)
      ensures PagedFrom(bus.lqspiCr, old(bus.lqspiCr))
      ensures good && AllOk(bus.log[|log0|..]) ==>
        selected == Success && Tracking(cfg, Advance(cfg, k), dest, at + NextChunk(cfg, k).len, start)
      ensures AllOk(bus.log[|log0|..]) ==> AllOk(old(bus.log)[|log0|..])
      ensures good && AllOk(bus.log[|log0|..]) && bus.connection == DualStacked && NextChunk(cfg, k).upper ==>
        bus.lowerBank == old(bus.lowerBank)
    {
      ghost var ch := NextChunk(cfg, k);
      ghost var g0 := good && AllOk(bus.log[|log0|..]);
      ghost var cur0, up0, page0, d0 := bus.CurrentBank(), bus.upperBank, bus.UpperPage(), dest[..];
      ghost var logSel := bus.log;
      ghost var entered := g0;
      if g0 {
        ChunkFits(cfg, k, bus.deviceSize, flashSize);
      }
      nremaining := remaining;
      selected, naddr, narmed, reg := EnterChunk(cfg, k, addr, armed, reg0, entered);
      ExtendsTrans(log0, logSel, bus.log);
      AllOkSplit(logSel[|log0|..], bus.log[|logSel|..]);
      if selected == Failure {
        ops := FailedChunkOps(ch);
        return;
      }
      ghost var logRead := bus.log;
      ghost var ok;
      naddr, nremaining, narmed, ok := ReadStep(cfg, k, naddr, remaining, narmed, dest, at);
      assert bus.log[|logRead|..] == [bus.log[|logRead|]] && bus.log[|logRead|].ok == ok;
      ExtendsTrans(log0, logRead, bus.log);
      AllOkSplit(logRead[|log0|..], bus.log[|logRead|..]);
      ops := ChunkOps(ch);
      assert trace == old(trace) + ops by {
        if ch.select.Some? {
          FailedChunkSplit(ch);
        }
      }
      ghost var g2 := good && AllOk(bus.log[|log0|..]);
      if g2 {
        assert g0 && ok;
        TracksStep(cfg, k, bus.deviceSize, flashSize, bus.image, cur0, up0, page0, d0, at, start,
                   bus.CurrentBank(), bus.upperBank, bus.UpperPage(), dest[..]);
      }
    }

    /** The manual path of QspiAccess (src/qspi.c:661-825). `endUpper`
        says whether the exit's bank reset went to the upper device. */
    method ManualAccess(src: nat, dest: array<Byte>, len: nat)
      returns (status: Status, ghost copied: nat, ghost ops: seq<Op>, ghost endUpper: bool)
      requires Valid() && dest != readBuffer && dest != writeBuffer && len <= dest.Length
      modifies this`trace, bus, readBuffer, writeBuffer, dest
      ensures Valid()
      ensures Extends(old(bus.log), bus.log)
      ensures trace == old(trace) + ops
      ensures copied <= len && forall i :: copied <= i < dest.Length ==> dest[i] == old(dest[i])
      ensures Outcome(ops, AccessPlan(bus.connection, flashSize, src, len), status, copied)
      ensures status == Success ==> copied == len
      ensures old(Consistent()) && src + len <= flashSize && AllOk(bus.log[|old(bus.log)|..]) ==>
        && (forall i :: 0 <= i < copied ==> dest[i] == At(bus.image, AccessStart(bus.connection, src) + i))
        && (flashMake == MICRON_ID || flashMake == SPANSION_ID ==> status == Success)
      ensures bus.connection != DualStacked ==> bus.lqspiCr == old(bus.lqspiCr)
      ensures bus.connection == DualStacked && status == Success && len > 0 ==>
        bus.lqspiCr == ClearPage(old(bus.lqspiCr))
      ensures status == Failure ==> PagedFrom(bus.lqspiCr, old(bus.lqspiCr))
      ensures endUpper ==> bus.connection == DualStacked
      ensures AllOk(bus.log[|old(bus.log)|..]) && (flashMake == MICRON_ID || flashMake == SPANSION_ID) ==>
        status == Success && if endUpper then bus.upperBank == 0 else bus.lowerBank == 0
      ensures old(Consistent()) && src + len <= flashSize && AllOk(bus.log[|old(bus.log)|..]) ==>
        (endUpper <==> bus.connection == DualStacked && len > 0 && src + len > flashSize / 2)
      ensures old(Consistent()) && src + len <= flashSize && AllOk(bus.log[|old(bus.log)|..])
              && (flashMake == MICRON_ID || flashMake == SPANSION_ID) && (!endUpper || src >= flashSize / 2) ==>
        Consistent()
    {
      var conn := bus.connection;
      ghost var cfg := Cfg(conn, flashSize / 2);
      ghost var k0 := StartCursor(conn, src, len);
      ghost var good := Consistent() && src + len <= flashSize;
      ghost var a := Access(cfg, k0, len, trace, dest[..], bus.log, bus.lqspiCr, good, AccessStart(conn, src));
      assert AccessPlan(conn, flashSize, src, len) == Flatten(Chunks(cfg, k0)) + ExitOps(conn);

      var addr: nat := src;
      if conn == DualParallel {
        addr := addr / 2;
      }
      ManualStart(a, src, addr, len, dest);
      status, copied, ops, endUpper := RunManual(a, addr, len, dest);
      if good && len > 0 && conn == DualStacked {
        assert flashSize / 2 == bus.deviceSize;
        FinalUpper(cfg, k0);
      }
    }

    /** LoopInv holds when the manual path starts. */
    lemma ManualStart(a: Access, src: nat, addr: nat, len: nat, dest: array<Byte>)
      requires Valid() && dest != readBuffer && dest != writeBuffer && len <= dest.Length
      requires a == Access(Cfg(bus.connection, flashSize / 2), StartCursor(bus.connection, src, len), len, trace, dest[..],
                           bus.log, bus.lqspiCr, Consistent() && src + len <= flashSize, AccessStart(bus.connection, src))
      requires addr == a.k0.addr
      ensures a.k0 == Cursor(addr, len, true, false)
      ensures LoopInv(a, a.k0, 0, [], 0, dest)
    {
      BankInvInit(a.cfg, addr, len);
      assert bus.log[|a.log0|..] == [];
    }

    /** The manual path from its first cursor: the loop, then the exit sequence. */
    method RunManual(ghost a: Access, addr: nat, len: nat, dest: array<Byte>)
      returns (status: Status, ghost copied: nat, ghost ops: seq<Op>, ghost endUpper: bool)
      requires a.k0 == Cursor(addr, len, true, false) && a.len == len
      requires LoopInv(a, a.k0, 0, [], 0, dest)
      requires a.good ==> a.cr0 & U_PAGE_MASK == 0
      modifies this`trace, bus, readBuffer, writeBuffer, dest
      ensures Valid() && Extends(a.log0, bus.log)
      ensures trace == a.t0 + ops
      ensures copied <= len && forall i :: copied <= i < dest.Length ==> dest[i] == a.d0[i]
      ensures Outcome(ops, Flatten(Chunks(a.cfg, a.k0)) + ExitOps(bus.connection), status, copied)
      ensures status == Success ==> copied == len
      ensures a.good && AllOk(bus.log[|a.log0|..]) ==>
        && (forall i :: 0 <= i < copied ==> dest[i] == At(bus.image, a.start + i))
        && (flashMake == MICRON_ID || flashMake == SPANSION_ID ==> status == Success)
      ensures bus.connection != DualStacked ==> bus.lqspiCr == a.cr0
      ensures bus.connection == DualStacked && status == Success && len > 0 ==> bus.lqspiCr == ClearPage(a.cr0)
      ensures status == Failure ==> PagedFrom(bus.lqspiCr, a.cr0)
      ensures endUpper ==> bus.connection == DualStacked
      ensures AllOk(bus.log[|a.log0|..]) && (flashMake == MICRON_ID || flashMake == SPANSION_ID) ==>
        status == Success && if endUpper then bus.upperBank == 0 else bus.lowerBank == 0
      ensures a.good && AllOk(bus.log[|a.log0|..]) ==>
        (endUpper <==> bus.connection == DualStacked && Final(a.cfg, a.k0).upper)
      ensures a.good && AllOk(bus.log[|a.log0|..]) && (flashMake == MICRON_ID || flashMake == SPANSION_ID)
              && (!endUpper || a.k0.addr >= a.cfg.half) ==>
        Consistent()
    {
      var lqspiCrReg: bv32;
      var at: nat;
      ghost var k;
      ghost var done: seq<Op>;
      status, lqspiCrReg, at, k, done := ManualLoop(a, addr, len, dest);
      copied, ops, endUpper := at, done, false;
      assert forall i :: at <= i < dest.Length ==> dest[i] == dest[at..][i - at];
      if status == Failure {
        return;
      }
      status, ops, endUpper := FinishManual(a, k, at, done, lqspiCrReg, dest);
    }

    /** One iteration of the manual read loop (src/qspi.c:674-797), with the
        plan bookkeeping: it keeps LoopInv and moves the cursor on, or stops
        at a failed bank select. */
    method ManualStep(ghost a: Access, ghost k: Cursor, addr: nat, remaining: nat, armed: bool, reg0: bv32,
                      dest: array<Byte>, at: nat, ghost done: seq<Op>)
      returns (selected: Status, naddr: nat, nremaining: nat, narmed: bool, reg: bv32, nat': nat,
               ghost k': Cursor, ghost done': seq<Op>)
      requires LoopInv(a, k, at, done, reg0, dest)
      requires k == Cursor(addr, remaining, armed, k.upper) && remaining > 0
      modifies this`trace, bus, readBuffer, writeBuffer, dest
      ensures selected == Success ==>
        && k' == Advance(a.cfg, k)
        && k' == Cursor(naddr, nremaining, narmed, k'.upper) && nremaining < remaining
        && LoopInv(a, k', nat', done', reg, dest)
      ensures selected == Failure ==> Stopped(a, nat', done', dest)
    {
      ghost var cfg, k0 := a.cfg, a.k0;
      ghost var cr1 := bus.lqspiCr;
      ghost var ops;
      ghost var dPre := dest[..];
      selected, naddr, nremaining, narmed, reg, ops :=
        ReadNextChunk(cfg, k, addr, remaining, armed, reg0, dest, at, a.good, a.start, a.log0);
      PagedTrans(a.cr0, cr1, bus.lqspiCr);
      AppendAssoc(a.t0, done, ops);
      if selected == Failure {
        PlanFailsInChunk(cfg, k0, k, done, bus.connection);
        nat', k', done' := at, k, done + ops;
        assert dest[..] == dPre;
        return;
      }
      PlanStep(cfg, k0, k, done);
      nat' := at + (remaining - nremaining);
      k', done' := Advance(cfg, k), done + ops;
      assert nat' == at + NextChunk(cfg, k).len && ReadBytes(done') == nat';
      assert dest[nat'..] == dPre[nat'..];
    }

    /** The `while (LengthBytes > 0)` loop of the manual path
        (src/qspi.c:674-797), from the cursor at `addr0` with the bank switch
        flag set. On success it has issued the whole plan of chunks, ending
        at the cursor `k`; on failure it stopped at a failed bank select.
        `lqspiCrReg` is the LQSPI_CR value the last iteration read. */
    method ManualLoop(ghost a: Access, addr0: nat, len: nat, dest: array<Byte>)
      returns (status: Status, lqspiCrReg: bv32, at: nat, ghost k: Cursor, ghost done: seq<Op>)
      requires a.k0 == Cursor(addr0, len, true, false) && a.len == len
      requires LoopInv(a, a.k0, 0, [], 0, dest)
      modifies this`trace, bus, readBuffer, writeBuffer, dest
      ensures status == Success ==> k.remaining == 0 && LoopInv(a, k, at, done, lqspiCrReg, dest)
      ensures status == Success ==> k == Final(a.cfg, a.k0)
      ensures status == Failure ==> Stopped(a, at, done, dest)
    {
      k, done := a.k0, [];
      var addr, remaining, armed := addr0, len, true;
      // LqspiCrReg is only assigned inside the loop; the model starts it at 0.
      lqspiCrReg := 0;
      at := 0;
      while remaining > 0
        invariant k == Cursor(addr, remaining, armed, k.upper)
        invariant LoopInv(a, k, at, done, lqspiCrReg, dest)
        invariant Final(a.cfg, k) == Final(a.cfg, a.k0)
        decreases remaining
      {
        status, addr, remaining, armed, lqspiCrReg, at, k, done :=
          ManualStep(a, k, addr, remaining, armed, lqspiCrReg, dest, at, done);
        if status == Failure {
          return;
        }
      }
      status := Success;
    }

    /** The manual path after a loop that issued every chunk: the exit
        sequence completes the plan, or its bank select fails. */
    method FinishManual(ghost a: Access, ghost k: Cursor, at: nat, ghost done: seq<Op>, reg: bv32, dest: array<Byte>)
      returns (status: Status, ghost ops: seq<Op>, ghost endUpper: bool)
      requires LoopInv(a, k, at, done, reg, dest) && k.remaining == 0 && k == Final(a.cfg, a.k0)
      requires a.good ==> a.cr0 & U_PAGE_MASK == 0
      modifies this`trace, bus, readBuffer, writeBuffer
      ensures Valid() && Extends(a.log0, bus.log)
      ensures trace == a.t0 + ops
      ensures at == a.len
      ensures Outcome(ops, Flatten(Chunks(a.cfg, a.k0)) + ExitOps(bus.connection), status, at)
      ensures a.good && AllOk(bus.log[|a.log0|..]) ==>
        && (forall i :: 0 <= i < at ==> dest[i] == At(bus.image, a.start + i))
        && (flashMake == MICRON_ID || flashMake == SPANSION_ID ==> status == Success)
      ensures bus.connection != DualStacked ==> bus.lqspiCr == a.cr0
      ensures bus.connection == DualStacked && status == Success && a.len > 0 ==> bus.lqspiCr == ClearPage(a.cr0)
      ensures status == Failure ==> PagedFrom(bus.lqspiCr, a.cr0)
      ensures endUpper ==> bus.connection == DualStacked
      ensures AllOk(bus.log[|a.log0|..]) && (flashMake == MICRON_ID || flashMake == SPANSION_ID) ==>
        status == Success && if endUpper then bus.upperBank == 0 else bus.lowerBank == 0
      ensures a.good && AllOk(bus.log[|a.log0|..]) ==>
        (endUpper <==> bus.connection == DualStacked && Final(a.cfg, a.k0).upper)
      ensures a.good && AllOk(bus.log[|a.log0|..]) && (flashMake == MICRON_ID || flashMake == SPANSION_ID)
              && (!endUpper || a.k0.addr >= a.cfg.half) ==>
        Consistent()
    {
      ghost var logLoop := bus.log;
      ghost var gotImage := a.good && AllOk(logLoop[|a.log0|..]);
      assert gotImage ==> forall i :: 0 <= i < at ==> dest[i] == At(bus.image, a.start + i);
      assert Flatten(Chunks(a.cfg, a.k0)) == done by {
        assert Chunks(a.cfg, k) == [];
      }
      PlanExit(done, bus.connection);
      ghost var exit;
      ghost var lower := bus.lowerBank;
      assert gotImage ==> LowerKept(a, k);
      status, exit, endUpper := FinishAccess(reg, a, k);
      AppendAssoc(a.t0, done, exit);
      ops := done + exit;
    }

    /** The end of the manual path (src/qspi.c:799-825): select bank 0 again,
        and when stacked clear U_PAGE in the LqspiCrReg value `reg` read by
        the last iteration and assert the chip select. A failed bank select
        returns at once. `a` is the access and `k` the cursor the loop ended
        at; `endUpper` is whether the bank reset goes to the upper device. */
    method FinishAccess(reg: bv32, ghost a: Access, ghost k: Cursor)
      returns (status: Status, ghost exit: seq<Op>, ghost endUpper: bool)
      requires Valid() && Extends(a.log0, bus.log)
      requires a.cfg == Cfg(bus.connection, flashSize / 2) && k == Final(a.cfg, a.k0)
      requires a.good ==> ReadsCorrectly() && a.cr0 & U_PAGE_MASK == 0
      requires PagedFrom(bus.lqspiCr, a.cr0) && (bus.connection != DualStacked ==> bus.lqspiCr == a.cr0)
      requires bus.connection == DualStacked && a.len > 0 ==> PagedFrom(reg, a.cr0)
      requires a.good && AllOk(bus.log[|a.log0|..]) && bus.connection == DualStacked ==>
        bus.UpperPage() == k.upper && (!k.upper ==> bus.upperBank == 0)
      modifies this`trace, bus, readBuffer, writeBuffer
      ensures Valid() && Extends(old(bus.log), bus.log) && Extends(a.log0, bus.log)
      ensures AllOk(bus.log[|a.log0|..]) ==> AllOk(old(bus.log)[|a.log0|..])
      ensures trace == old(trace) + exit
      ensures exit == if status == Success then ExitOps(bus.connection) else [Select(0, false)]
      ensures bus.connection != DualStacked ==> bus.lqspiCr == a.cr0
      ensures bus.connection == DualStacked && status == Success && a.len > 0 ==> bus.lqspiCr == ClearPage(a.cr0)
      ensures status == Failure ==> PagedFrom(bus.lqspiCr, a.cr0)
      ensures AllOk(bus.log[|old(bus.log)|..]) && (flashMake == MICRON_ID || flashMake == SPANSION_ID) ==>
        && status == Success
        && if old(bus.OnUpper()) then bus.lowerBank == old(bus.lowerBank) && bus.upperBank == 0
           else bus.lowerBank == 0 && bus.upperBank == old(bus.upperBank)
      ensures endUpper == old(bus.OnUpper())
      ensures endUpper ==> bus.connection == DualStacked
      ensures AllOk(bus.log[|a.log0|..]) && (flashMake == MICRON_ID || flashMake == SPANSION_ID) ==>
        status == Success && if endUpper then bus.upperBank == 0 else bus.lowerBank == 0
      ensures a.good && AllOk(bus.log[|a.log0|..]) ==>
        (endUpper <==> bus.connection == DualStacked && Final(a.cfg, a.k0).upper)
      ensures a.good && AllOk(bus.log[|a.log0|..]) && (flashMake == MICRON_ID || flashMake == SPANSION_ID) && !endUpper ==>
        Consistent()
      ensures a.good && AllOk(bus.log[|a.log0|..]) && (flashMake == MICRON_ID || flashMake == SPANSION_ID) && endUpper
              && old(bus.lowerBank) == 0 ==>
        Consistent()
    {
      ghost var logLoop := bus.log;
      ghost var settled := a.good && AllOk(bus.log[|a.log0|..]);
      endUpper := bus.OnUpper();
      status := SendBankSelect(0);
      ExtendsTrans(a.log0, logLoop, bus.log);
      AllOkSplit(logLoop[|a.log0|..], bus.log[|logLoop|..]);
      if status == Failure {
        exit := [Select(0, false)];
        return;
      }
      exit := [Select(0, true)];
      if bus.connection == DualStacked {
        if a.len > 0 {
          PagedClear(reg, a.cr0);
        }
        bus.SetLqspiConfigReg(ClearPage(reg));
        assert ClearPage(reg) & U_PAGE_MASK == 0;
        trace := trace + [Page(false), SlaveSelect];
        exit := exit + [Page(false), SlaveSelect];
      }
    }

    /** QspiAccess (src/qspi.c:638-828): with LinearBootDeviceFlag set, one
        copy from the linear window; otherwise the manual path. `endUpper`
        says whether the manual exit's bank reset went to the upper device. */
    method QspiAccess(src: nat, dest: array<Byte>, len: nat)
      returns (status: Status, ghost copied: nat, ghost ops: seq<Op>, ghost endUpper: bool)
      requires Valid() && dest != readBuffer && dest != writeBuffer
      requires dest.Length >= if linearBoot then WordAlign(len) else len
      modifies this`trace, bus, readBuffer, writeBuffer, dest
      ensures Valid() && Extends(old(bus.log), bus.log)
      ensures trace == old(trace) + ops
      ensures linearBoot ==>
        && status == Success && copied == WordAlign(len) && ops == []
        && bus.log == old(bus.log) && bus.lqspiCr == old(bus.lqspiCr)
        && bus.lowerBank == old(bus.lowerBank) && bus.upperBank == old(bus.upperBank)
        && forall i :: 0 <= i < dest.Length ==> dest[i] == if i < copied then At(bus.image, src + i) else old(dest[i])
      ensures !linearBoot ==>
        && copied <= len && (forall i :: copied <= i < dest.Length ==> dest[i] == old(dest[i]))
        && Outcome(ops, AccessPlan(bus.connection, flashSize, src, len), status, copied)
        && (status == Success ==> copied == len)
        && (old(Consistent()) && src + len <= flashSize && AllOk(bus.log[|old(bus.log)|..]) ==>
              && (forall i :: 0 <= i < copied ==> dest[i] == At(bus.image, AccessStart(bus.connection, src) + i))
              && (flashMake == MICRON_ID || flashMake == SPANSION_ID ==> status == Success))
        && (bus.connection != DualStacked ==> bus.lqspiCr == old(bus.lqspiCr))
        && (bus.connection == DualStacked && status == Success && len > 0 ==> bus.lqspiCr == ClearPage(old(bus.lqspiCr)))
        && (status == Failure ==> PagedFrom(bus.lqspiCr, old(bus.lqspiCr)))
        && (endUpper ==> bus.connection == DualStacked)
        && (AllOk(bus.log[|old(bus.log)|..]) && (flashMake == MICRON_ID || flashMake == SPANSION_ID) ==>
              status == Success && if endUpper then bus.upperBank == 0 else bus.lowerBank == 0)
        && (old(Consistent()) && src + len <= flashSize && AllOk(bus.log[|old(bus.log)|..]) ==>
              (endUpper <==> bus.connection == DualStacked && len > 0 && src + len > flashSize / 2))
        && (old(Consistent()) && src + len <= flashSize && AllOk(bus.log[|old(bus.log)|..])
            && (flashMake == MICRON_ID || flashMake == SPANSION_ID) && (!endUpper || src >= flashSize / 2) ==>
              Consistent())
    {
      if linearBoot {
        copied := LinearAccess(src, dest, len);
        ops, status, endUpper := [], Success, false;
        return;
      }
      status, copied, ops, endUpper := ManualAccess(src, dest, len);
    }

    /** The topology decision of InitQspi (src/qspi.c:383-482): single and
        dual-parallel use linear mode when QspiFlashSize, still the size of
        one device, is at most 16 MiB; dual-parallel and dual-stacked then
        double QspiFlashSize to the total of both devices. */
    method ConfigureTopology()
      modifies this`linearBoot, this`flashSize
      ensures flashSize == TotalSize(bus.connection, old(flashSize))
      ensures linearBoot == (old(linearBoot) || (bus.connection != DualStacked && old(flashSize) <= BANK_SIZE))
    {
      match bus.connection {
        case Single =>
          if flashSize <= BANK_SIZE {
            linearBoot := true;
          }
        case DualParallel =>
          if flashSize <= BANK_SIZE {
            linearBoot := true;
          }
          flashSize := 2 * flashSize;
        case DualStacked =>
          flashSize := 2 * flashSize;
      }
    }

    /** QspiCheckRead (src/qspi.c:236-297): for each table entry up to the
        sentinel, install its command and dummy count, program them into
        LQSPI_CR, read 128 bytes from flash offset 0 into a local buffer and
        test them for the boot header; with `correctExit`, stop at the first
        entry that passes. `stale` is what the uninitialised buffer holds;
        `verdicts` records each entry's test. */
    method QspiCheckRead(correctExit: bool, stale: seq<Byte>) returns (status: Status, ghost verdicts: seq<bool>)
      requires Valid() && |stale| == 256
      modifies this`readCmd, this`dummy, this`trace, bus, readBuffer, writeBuffer
      ensures Valid() && status == Success
      ensures ScanStopped(CMD_TEST_TABLE, correctExit, verdicts)
      ensures 0 < |verdicts| && readCmd == CMD_TEST_TABLE[|verdicts| - 1].cmd && dummy == CMD_TEST_TABLE[|verdicts| - 1].dummy
      ensures IsReadCmd(readCmd) && dummy == StandardDummy(readCmd)
      ensures linearBoot ==> forall j :: 0 <= j < |verdicts| ==>
        verdicts[j] == IsBootHeader(ImagePrefix(bus.image, 128))
    {
      var buffer := new Byte[256](i => if 0 <= i < |stale| then stale[i] else 0);
      verdicts := [];
      var loop := 0;
      while loop < 1000 && loop < |CMD_TEST_TABLE|
        invariant Valid() && loop == |verdicts| <= |CMD_TEST_TABLE|
        invariant buffer != readBuffer && buffer != writeBuffer && buffer.Length == 256
        invariant forall j :: 0 <= j < loop ==> !IsSentinel(CMD_TEST_TABLE[j])
        invariant forall j :: 0 <= j < loop ==> !(correctExit && verdicts[j])
        invariant 0 < loop ==> readCmd == CMD_TEST_TABLE[loop - 1].cmd && dummy == CMD_TEST_TABLE[loop - 1].dummy
        invariant linearBoot ==> forall j :: 0 <= j < loop ==> verdicts[j] == IsBootHeader(ImagePrefix(bus.image, 128))
        decreases |CMD_TEST_TABLE| - loop
      {
        var entry := CMD_TEST_TABLE[loop];
        if IsSentinel(entry) {
          break;
        }
        TableEntriesServe(loop);
        var verdict := TryCommand(entry, buffer);
        verdicts := verdicts + [verdict];
        loop := loop + 1;
        if verdict && correctExit {
          break;
        }
      }
      TableEntriesServe(loop - 1);
      status := Success;
    }

    /** One entry of QspiCheckRead's search (src/qspi.c:254-290): install
        the command and dummy count, program LQSPI_CR, read 128 bytes from
        flash offset 0 and test them for the boot header. */
    method TryCommand(entry: CmdTest, buffer: array<Byte>) returns (verdict: bool)
      requires Valid() && buffer != readBuffer && buffer != writeBuffer && buffer.Length == 256
      requires entry.dummy <= DUMMY_MAX_SIZE
      modifies this`readCmd, this`dummy, this`trace, bus, readBuffer, writeBuffer, buffer
      ensures Valid() && readCmd == entry.cmd && dummy == entry.dummy
      ensures verdict == IsBootHeader(buffer[..128])
      ensures linearBoot ==> verdict == IsBootHeader(ImagePrefix(bus.image, 128))
    {
      readCmd, dummy := entry.cmd, entry.dummy;
      bus.SetLqspiConfigReg(ReadConfigWord(bus.lqspiCr, readCmd, dummy));
      var _, _, _, _ := QspiAccess(0, buffer, 128);
      verdict := IsBootHeader(buffer[..128]);
      if linearBoot {
        assert buffer[..128] == ImagePrefix(bus.image, 128);
      }
    }

    /** The part of InitQspi this model keeps (src/qspi.c:317-502): read the
        flash ID (a failure is reported and ignored), decide the topology
        and linear mode, and run the table search twice, first over the
        whole table and then stopping at the first match. `deviceSize` is
        QspiFlashSize after FlashReadID, the size of one device. */
    method InitQspi(stale0: seq<Byte>, stale1: seq<Byte>) returns (status: Status, ghost idOk: bool, ghost deviceSize: nat)
      requires Valid() && |stale0| == 256 && |stale1| == 256
      modifies this`flashMake, this`flashSize, this`linearBoot, this`readCmd, this`dummy, this`trace
      modifies bus, readBuffer, writeBuffer
      ensures Valid() && status == Success
      ensures deviceSize == if idOk && SizeOfId(bus.jedecId[2]).Some? then SizeOfId(bus.jedecId[2]).value else old(flashSize)
      ensures flashMake == if idOk && MakeOfId(bus.jedecId[0]).Some? then MakeOfId(bus.jedecId[0]).value else old(flashMake)
      ensures flashSize == TotalSize(bus.connection, deviceSize)
      ensures linearBoot == (old(linearBoot) || (bus.connection != DualStacked && deviceSize <= BANK_SIZE))
      ensures IsReadCmd(readCmd) && dummy == StandardDummy(readCmd)
      ensures idOk && SizeOfId(bus.jedecId[2]) == Some(bus.deviceSize)
              && (flashMake == MICRON_ID || flashMake == SPANSION_ID || bus.deviceSize <= BANK_SIZE) ==>
        ReadsCorrectly()
    {
      var id := FlashReadID();
      idOk := id == Success;
      deviceSize := flashSize;
      ConfigureTopology();
      var _, _ := QspiCheckRead(false, stale0);
      var _, _ := QspiCheckRead(true, stale1);
      if idOk && SizeOfId(bus.jedecId[2]) == Some(bus.deviceSize) {
        SizeOfIdRoundTrip(bus.jedecId[2]);
      }
      status := Success;
    }
  }
}
