/** The chunk planner of QspiAccess's manual path (src/qspi.c:661-799) as
    pure functions: NextChunk is one pass of the `while (LengthBytes > 0)`
    loop body, Advance the loop state after it, Chunks the whole sequence
    of reads the loop issues and Flatten the driver operations they stand
    for. Lemmas below state what the loop promises about that sequence. */
module Planner {
  import opened QspiTypes

  /** The parts of the driver's configuration the loop looks at. */
  datatype Cfg = Cfg(
    conn: Topology,   // XPAR_PS7_QSPI_0_QSPI_MODE
    half: nat         // QspiFlashSize / 2, the first address of the upper device when stacked
  )

  /** The loop state at the top of one iteration: `SourceAddress`,
      `LengthBytes`, `BankSwitchFlag == 1`, and whether U_PAGE is set. */
  datatype Cursor = Cursor(addr: nat, remaining: nat, armed: bool, upper: bool)

  /** What one iteration does: whether it switches to the upper device,
      the U_PAGE state of its read, the bank it selects (if any), and the
      device address, length and bank trim of its read. */
  datatype Chunk = Chunk(toUpper: bool, upper: bool, select: Option<Byte>, addr: nat, len: nat, cut: bool)

  /** The driver operations the model traces: a U_PAGE change, a chip-select
      assertion, a SendBankSelect call with its outcome, and a FlashRead. */
  datatype Op = Page(upper: bool) | SlaveSelect | Select(bank: Byte, ok: bool) | Read(addr: nat, len: nat)

  /** A chunk is at most DATA_SIZE bytes (src/qspi.c:678-682). */
  function CapLength(remaining: nat): (len: nat)
    ensures len <= DATA_SIZE && len <= remaining
    ensures len == remaining || len == DATA_SIZE
    ensures remaining > 0 ==> len > 0
  {
    if remaining > DATA_SIZE then DATA_SIZE else remaining
  }

  /** Crossing into another bank is the same as reaching the end of this one. */
  lemma LeavesBankIff(a: nat, b: nat)
    requires a <= b
    ensures BankBase(b) != BankBase(a) <==> b >= BankBase(a) + BANK_SIZE
  {
    BankBaseBounds(a);
    BankBaseBounds(b);
    if b < BankBase(a) + BANK_SIZE {
      SameBank(a, b);
    }
  }

  /** The bank trim (src/qspi.c:738-759), applied to a capped length `len`
      at device address `addr`. Returns the trimmed length and whether the
      chunk was cut, which re-arms BankSwitchFlag. */
  function BankCut(conn: Topology, addr: nat, len: nat): (r: (nat, bool))
    requires len > 0
    ensures 0 < r.0 <= len
    ensures !r.1 ==> r.0 == len
    ensures conn != DualParallel ==> (r.1 <==> addr + len >= BankBase(addr) + BANK_SIZE)
    ensures conn != DualParallel ==> addr + r.0 <= BankBase(addr) + BANK_SIZE
    ensures conn != DualParallel && r.1 ==> addr + r.0 == BankBase(addr) + BANK_SIZE
    ensures conn == DualParallel ==> (r.1 <==> addr + len / 2 >= BankBase(addr) + BANK_SIZE)
    ensures conn == DualParallel ==> addr + (r.0 + 1) / 2 <= BankBase(addr) + BANK_SIZE
    ensures conn == DualParallel && r.1 ==> r.0 % 2 == 0 && addr + r.0 / 2 == BankBase(addr) + BANK_SIZE
  {
    BankBaseBounds(addr);
    var base := BankBase(addr);
    if conn == DualParallel then
      LeavesBankIff(addr, addr + len / 2);
      if base != BankBase(addr + len / 2) then ((base + BANK_SIZE - addr) * 2, true) else (len, false)
    else
      LeavesBankIff(addr, addr + len);
      if base != BankBase(addr + len) then (base + BANK_SIZE - addr, true) else (len, false)
  }

  /** One iteration of the manual read loop, up to the FlashRead it issues. */
  function NextChunk(cfg: Cfg, k: Cursor): (ch: Chunk)
    requires k.remaining > 0
    ensures 0 < ch.len <= DATA_SIZE && ch.len <= k.remaining
    ensures ch.toUpper <==> cfg.conn == DualStacked && k.addr >= cfg.half
    ensures ch.addr == if ch.toUpper then k.addr - cfg.half else k.addr
    ensures ch.upper == (k.upper || ch.toUpper)
    ensures ch.select.Some? <==> ch.addr >= BANK_SIZE && k.armed
    ensures ch.select.Some? ==> ch.select.value == (ch.addr / BANK_SIZE) % 256
    ensures cfg.conn != DualParallel ==> ch.addr + ch.len <= BankBase(ch.addr) + BANK_SIZE
    ensures cfg.conn == DualParallel ==> ch.addr + (ch.len + 1) / 2 <= BankBase(ch.addr) + BANK_SIZE
    ensures !ch.cut ==> ch.len == CapLength(k.remaining)
  {
    var len := CapLength(k.remaining);
    var toUpper := cfg.conn == DualStacked && k.addr >= cfg.half;
    var addr := if toUpper then k.addr - cfg.half else k.addr;
    var select := if addr >= BANK_SIZE && k.armed then Some((addr / BANK_SIZE) % 256) else None;
    var (trimmed, cut) := BankCut(cfg.conn, addr, len);
    Chunk(toUpper, k.upper || toUpper, select, addr, trimmed, cut)
  }

  /** The loop state after one iteration (src/qspi.c:731, 751, 757, 787-796). */
  function Advance(cfg: Cfg, k: Cursor): Cursor
    requires k.remaining > 0
  {
    var ch := NextChunk(cfg, k);
    var armed := if ch.cut then true else if ch.select.Some? then false else k.armed;
    var step := if cfg.conn == DualParallel then ch.len / 2 else ch.len;
    Cursor(ch.addr + step, k.remaining - ch.len, armed, ch.upper)
  }

  /** Every read the loop issues from cursor `k` until LengthBytes is 0. */
  function Chunks(cfg: Cfg, k: Cursor): seq<Chunk>
    decreases k.remaining
  {
    if k.remaining == 0 then [] else [NextChunk(cfg, k)] + Chunks(cfg, Advance(cfg, k))
  }

  /** The loop state once LengthBytes is 0. */
  function Final(cfg: Cfg, k: Cursor): (f: Cursor)
    decreases k.remaining
  {
    if k.remaining == 0 then k else Final(cfg, Advance(cfg, k))
  }

  /** The driver operations of one iteration, in the order the source issues them. */
  function ChunkOps(ch: Chunk): seq<Op>
  {
    (if ch.toUpper then [Page(true), SlaveSelect] else [])
      + (if ch.select.Some? then [Select(ch.select.value, true)] else [])
      + [Read(ch.addr, ch.len)]
  }

  function Flatten(chs: seq<Chunk>): seq<Op>
  {
    if chs == [] then [] else ChunkOps(chs[0]) + Flatten(chs[1..])
  }

  /** The operations after the loop when the bank reset succeeds (src/qspi.c:804-824). */
  function ExitOps(conn: Topology): seq<Op>
  {
    [Select(0, true)] + (if conn == DualStacked then [Page(false), SlaveSelect] else [])
  }

  /** Bytes copied by a sequence of chunks. */
  function Total(chs: seq<Chunk>): nat
  {
    if chs == [] then 0 else chs[0].len + Total(chs[1..])
  }

  /** Bytes copied by the reads among a sequence of operations. */
  function ReadBytes(ops: seq<Op>): nat
  {
    if ops == [] then 0 else (if ops[0].Read? then ops[0].len else 0) + ReadBytes(ops[1..])
  }

  // ---------------------------------------------------------------------------
  // Sequence bookkeeping
  // ---------------------------------------------------------------------------

  lemma {:induction false} FlattenAppend(a: seq<Chunk>, b: seq<Chunk>)
    ensures Flatten(a + b) == Flatten(a) + Flatten(b)
  {
    if a == [] {
      assert a + b == b;
    } else {
      assert (a + b)[1..] == a[1..] + b;
      FlattenAppend(a[1..], b);
    }
  }

  lemma {:induction false} TotalAppend(a: seq<Chunk>, b: seq<Chunk>)
    ensures Total(a + b) == Total(a) + Total(b)
  {
    if a == [] {
      assert a + b == b;
    } else {
      assert (a + b)[1..] == a[1..] + b;
      TotalAppend(a[1..], b);
    }
  }

  lemma {:induction false} ReadBytesAppend(a: seq<Op>, b: seq<Op>)
    ensures ReadBytes(a + b) == ReadBytes(a) + ReadBytes(b)
  {
    if a == [] {
      assert a + b == b;
    } else {
      assert (a + b)[1..] == a[1..] + b;
      ReadBytesAppend(a[1..], b);
    }
  }

  lemma ChunkOpsReadBytes(ch: Chunk)
    ensures ReadBytes(ChunkOps(ch)) == ch.len
  {
    var pre := (if ch.toUpper then [Page(true), SlaveSelect] else [])
      + (if ch.select.Some? then [Select(ch.select.value, true)] else []);
    assert ChunkOps(ch) == pre + [Read(ch.addr, ch.len)];
    ReadBytesAppend(pre, [Read(ch.addr, ch.len)]);
    assert ReadBytes(pre) == 0 by {
      if ch.toUpper {
        ReadBytesAppend([Page(true), SlaveSelect], if ch.select.Some? then [Select(ch.select.value, true)] else []);
      }
    }
  }

  /** The operations of a chunk sequence copy exactly the chunks' bytes. */
  lemma {:induction false} FlattenReadBytes(chs: seq<Chunk>)
    ensures ReadBytes(Flatten(chs)) == Total(chs)
  {
    if chs != [] {
      FlattenReadBytes(chs[1..]);
      ReadBytesAppend(ChunkOps(chs[0]), Flatten(chs[1..]));
      ChunkOpsReadBytes(chs[0]);
    }
  }

  // ---------------------------------------------------------------------------
  // Properties of the plan
  // ---------------------------------------------------------------------------

  /** The loop copies exactly the requested number of bytes: the chunk
      lengths add up to LengthBytes. */
  lemma {:induction false} ChunksCover(cfg: Cfg, k: Cursor)
    ensures Total(Chunks(cfg, k)) == k.remaining
    decreases k.remaining
  {
    if k.remaining > 0 {
      ChunksCover(cfg, Advance(cfg, k));
    }
  }

  /** Unfolding the plan one iteration at a time. */
  lemma ChunksUnfold(cfg: Cfg, k: Cursor)
    requires k.remaining > 0
    ensures Chunks(cfg, k) == [NextChunk(cfg, k)] + Chunks(cfg, Advance(cfg, k))
    ensures Flatten(Chunks(cfg, k)) == ChunkOps(NextChunk(cfg, k)) + Flatten(Chunks(cfg, Advance(cfg, k)))
  {
    var rest := Chunks(cfg, Advance(cfg, k));
    assert ([NextChunk(cfg, k)] + rest)[1..] == rest;
  }

  /** Every chunk of the plan is between 1 and DATA_SIZE bytes, so each
      iteration makes progress and fits ReadBuffer. */
  lemma {:induction false} ChunksBounded(cfg: Cfg, k: Cursor, i: nat)
    requires i < |Chunks(cfg, k)|
    ensures 0 < Chunks(cfg, k)[i].len <= DATA_SIZE
    decreases k.remaining
  {
    if i > 0 {
      ChunksUnfold(cfg, k);
      ChunksBounded(cfg, Advance(cfg, k), i - 1);
    }
  }

  /** Only the last chunk of a dual-parallel plan can have odd length. */
  lemma OddIsLast(cfg: Cfg, k: Cursor)
    requires k.remaining > 0 && cfg.conn == DualParallel
    ensures NextChunk(cfg, k).len % 2 == 1 ==> Advance(cfg, k).remaining == 0
  {
    var ch := NextChunk(cfg, k);
    BankBaseBounds(ch.addr);
  }

  // ---------------------------------------------------------------------------
  // Address translation
  // ---------------------------------------------------------------------------

  /** The logical flash offset of the cursor's next byte: the per-device
      address doubled in dual-parallel, offset by the lower device's size
      on the upper device when stacked. */
  function Logical(cfg: Cfg, k: Cursor): nat
  {
    match cfg.conn
    case Single => k.addr
    case DualParallel => 2 * k.addr
    case DualStacked => if k.upper then k.addr + cfg.half else k.addr
  }

  /** The logical offset of the first byte a chunk reads. */
  function ChunkStart(cfg: Cfg, ch: Chunk): nat
  {
    match cfg.conn
    case Single => ch.addr
    case DualParallel => 2 * ch.addr
    case DualStacked => if ch.upper then ch.addr + cfg.half else ch.addr
  }

  /** The cursor states the loop can reach for a request that lies inside
      the flash and below 2^28 (so no u32 arithmetic wraps): when stacked
      the devices hold whole banks, the request ends inside the device the
      cursor is on, and the upper switch only happens once. */
  ghost predicate Coherent(cfg: Cfg, k: Cursor)
  {
    && k.addr + k.remaining <= MAX_TOTAL_SIZE
    && (cfg.conn == DualStacked ==>
          && cfg.half % BANK_SIZE == 0
          && (k.upper ==> k.addr + k.remaining <= cfg.half)
          && (!k.upper ==> k.addr + k.remaining <= 2 * cfg.half))
  }

  /** One iteration reads from where the cursor points, keeps the cursor
      coherent, and moves the logical position on by the chunk's length. */
  lemma AdvanceLogical(cfg: Cfg, k: Cursor)
    requires k.remaining > 0 && Coherent(cfg, k)
    ensures ChunkStart(cfg, NextChunk(cfg, k)) == Logical(cfg, k)
    ensures Coherent(cfg, Advance(cfg, k))
    ensures Advance(cfg, k).remaining > 0 ==>
      Logical(cfg, Advance(cfg, k)) == Logical(cfg, k) + NextChunk(cfg, k).len
    ensures cfg.conn == DualStacked && !NextChunk(cfg, k).upper ==>
      NextChunk(cfg, k).addr + NextChunk(cfg, k).len <= cfg.half
  {
    var ch := NextChunk(cfg, k);
    if cfg.conn == DualParallel {
      OddIsLast(cfg, k);
    }
    if cfg.conn == DualStacked {
      if !ch.upper {
        BankBaseBounds(ch.addr);
        assert BankBase(ch.addr) + BANK_SIZE <= cfg.half by {
          BankEndBelow(ch.addr, cfg.half);
        }
      }
    }
  }

  /** A bank that starts below a bank-aligned limit ends at or below it. */
  lemma BankEndBelow(a: nat, limit: nat)
    requires limit % BANK_SIZE == 0 && a < limit
    ensures BankBase(a) + BANK_SIZE <= limit
  {
    var q, m := a / BANK_SIZE, limit / BANK_SIZE;
    assert limit == m * BANK_SIZE;
    assert q < m;
  }

  /** Round trip: the chunks of coherent request, laid end to end, read the
      logical range [Logical(k), Logical(k) + remaining), each chunk starting
      where the previous one ended. */
  lemma {:induction false} ChunksContiguous(cfg: Cfg, k: Cursor, i: nat)
    requires Coherent(cfg, k) && i < |Chunks(cfg, k)|
    ensures ChunkStart(cfg, Chunks(cfg, k)[i]) == Logical(cfg, k) + Total(Chunks(cfg, k)[..i])
    decreases k.remaining
  {
    ChunksUnfold(cfg, k);
    AdvanceLogical(cfg, k);
    var chs := Chunks(cfg, k);
    if i > 0 {
      var n := Advance(cfg, k);
      var rest := Chunks(cfg, n);
      assert rest == chs[1..];
      ChunksContiguous(cfg, n, i - 1);
      assert chs[..i] == [chs[0]] + rest[..i - 1];
      assert Total(chs[..i]) == chs[0].len + Total(rest[..i - 1]) by {
        assert (chs[..i])[1..] == rest[..i - 1];
      }
    } else {
      assert chs[..0] == [];
    }
  }

  // ---------------------------------------------------------------------------
  // Bank selection
  // ---------------------------------------------------------------------------

  /** The relation between BankSwitchFlag and the bank registers that the
      loop keeps: with the flag clear, the device on the cursor's chip
      select has the cursor's bank selected; with the flag set and the
      cursor in bank 0, it has bank 0. `cur` is the bank register of the
      device the cursor is on, `upperReg` the upper device's when stacked
      and still on the lower one (where the next stacked switch arrives
      with the flag set). */
  ghost predicate BankInv(cfg: Cfg, k: Cursor, cur: nat, upperReg: nat)
  {
    && (!k.armed ==> cur == k.addr / BANK_SIZE)
    && (k.armed && k.addr < BANK_SIZE ==> cur == 0)
    && (cfg.conn == DualStacked && !k.upper ==> upperReg == 0 && (k.addr >= cfg.half ==> k.armed))
  }

  /** The BankInv an access starts from: flag set, registers at bank 0. */
  lemma BankInvInit(cfg: Cfg, addr: nat, len: nat)
    ensures BankInv(cfg, Cursor(addr, len, true, false), 0, 0)
  {
  }

  /** The bank a chunk's read is served from: the bank it selects, else the
      register of the device it is on. */
  function ReadBank(ch: Chunk, cur: nat, upperReg: nat): nat
  {
    if ch.select.Some? then ch.select.value else if ch.toUpper then upperReg else cur
  }

  /** Bank selection is sound: every read of a coherent plan that starts
      from BankInv is served from the 16 MiB bank its address lies in, and
      BankInv holds again for the next iteration. A select is issued only
      when the address is at or above 16 MiB and the flag is set, and it
      selects SourceAddress / 16 MiB. */
  lemma BankInvStep(cfg: Cfg, k: Cursor, cur: nat, upperReg: nat)
    requires k.remaining > 0 && Coherent(cfg, k) && BankInv(cfg, k, cur, upperReg)
    ensures ReadBank(NextChunk(cfg, k), cur, upperReg) == NextChunk(cfg, k).addr / BANK_SIZE
    ensures BankInv(cfg, Advance(cfg, k), ReadBank(NextChunk(cfg, k), cur, upperReg), upperReg)
  {
    var ch := NextChunk(cfg, k);
    var n := Advance(cfg, k);
    assert ch.addr < MAX_TOTAL_SIZE;
    var bank := ReadBank(ch, cur, upperReg);
    assert bank == ch.addr / BANK_SIZE;
    BankBaseBounds(ch.addr);
    if !n.armed {
      assert !ch.cut;
      if cfg.conn == DualParallel {
        SameBank(ch.addr, n.addr);
      } else {
        SameBank(ch.addr, n.addr);
      }
    }
    if n.armed && n.addr < BANK_SIZE {
      assert !ch.cut;
    }
    if cfg.conn == DualStacked && !n.upper && n.addr >= cfg.half {
      AdvanceLogical(cfg, k);
      assert ch.cut by {
        BankEndBelow(ch.addr, cfg.half);
      }
    }
  }

  /** Once on the upper device, the loop stays there. */
  lemma {:induction false} FinalStaysUpper(cfg: Cfg, k: Cursor)
    requires k.upper
    ensures Final(cfg, k).upper
    decreases k.remaining
  {
    if k.remaining > 0 {
      FinalStaysUpper(cfg, Advance(cfg, k));
    }
  }

  /** Stacked, a non-empty access that starts on the lower device ends on
      the upper one exactly when it reaches past the midpoint: no chunk on
      the lower device crosses it (src/qspi.c:688-714, 738-759). */
  lemma {:induction false} FinalUpper(cfg: Cfg, k: Cursor)
    requires cfg.conn == DualStacked && cfg.half % BANK_SIZE == 0
    requires !k.upper && k.remaining > 0
    ensures Final(cfg, k).upper <==> k.addr + k.remaining > cfg.half
    decreases k.remaining
  {
    var ch, n := NextChunk(cfg, k), Advance(cfg, k);
    if k.addr >= cfg.half {
      FinalStaysUpper(cfg, n);
    } else {
      BankEndBelow(k.addr, cfg.half);
      assert ch.addr + ch.len <= cfg.half;
      assert n.addr + n.remaining == k.addr + k.remaining;
      if n.remaining > 0 {
        FinalUpper(cfg, n);
      }
    }
  }

  // ---------------------------------------------------------------------------
  // Worked scenarios
  // ---------------------------------------------------------------------------

  /** 20 bytes from 16 MiB - 10 on a single device: two chunks of 10 bytes,
      the second after selecting bank 1. */
  lemma CrossingOneBank()
    ensures Chunks(Cfg(Single, 0), Cursor(BANK_SIZE - 10, 20, true, false))
      == [Chunk(false, false, None, BANK_SIZE - 10, 10, true),
          Chunk(false, false, Some(1), BANK_SIZE, 10, false)]
  {
    var cfg, k := Cfg(Single, 0), Cursor(BANK_SIZE - 10, 20, true, false);
    ChunksUnfold(cfg, k);
    var k1 := Advance(cfg, k);
    assert k1 == Cursor(BANK_SIZE, 10, true, false);
    ChunksUnfold(cfg, k1);
    assert Advance(cfg, k1).remaining == 0;
  }

  /** Two parallel 32 MiB devices: the logical range [16 MiB - 4, 16 MiB + 4)
      is per-device [8 MiB - 2, 8 MiB + 2), one chunk and no bank select. */
  lemma ParallelMidBank()
    ensures Chunks(Cfg(DualParallel, 2 * BANK_SIZE), Cursor((BANK_SIZE - 4) / 2, 8, true, false))
      == [Chunk(false, false, None, BANK_SIZE / 2 - 2, 8, false)]
  {
    var cfg, k := Cfg(DualParallel, 2 * BANK_SIZE), Cursor((BANK_SIZE - 4) / 2, 8, true, false);
    ChunksUnfold(cfg, k);
    assert Advance(cfg, k).remaining == 0;
  }

  /** Two stacked 32 MiB devices, 16 bytes across the midpoint: the lower
      device is read from bank 1, then the loop switches to the upper
      device and reads its bank 0 without a select. */
  lemma StackedAcrossMidpoint()
    ensures Chunks(Cfg(DualStacked, 2 * BANK_SIZE), Cursor(2 * BANK_SIZE - 8, 16, true, false))
      == [Chunk(false, false, Some(1), 2 * BANK_SIZE - 8, 8, true),
          Chunk(true, true, None, 0, 8, false)]
  {
    var cfg, k := Cfg(DualStacked, 2 * BANK_SIZE), Cursor(2 * BANK_SIZE - 8, 16, true, false);
    var k1 := Cursor(2 * BANK_SIZE, 8, true, false);
    assert BankBase(2 * BANK_SIZE - 8) == BANK_SIZE;
    assert NextChunk(cfg, k) == Chunk(false, false, Some(1), 2 * BANK_SIZE - 8, 8, true);
    assert Advance(cfg, k) == k1;
    assert NextChunk(cfg, k1) == Chunk(true, true, None, 0, 8, false);
    ChunksUnfold(cfg, k);
    ChunksUnfold(cfg, k1);
    assert Advance(cfg, k1).remaining == 0;
  }
}
