# QSPI NOR read driver of the Zynq FSBL, modelled in Dafny

This project models the read path of the first-stage boot loader's QSPI
driver, `src/qspi.c`. The driver copies boot images out of serial NOR flash.
The model covers:

- **`QspiAccess`.** The linear path is one word-rounded copy out of the
  memory-mapped window. The manual path is a `while` loop that:
  - cuts the request into chunks of at most 4096 bytes that stay inside one
    16 MiB bank;
  - switches to the upper device when the flash is dual-stacked;
  - issues `SendBankSelect` under the `BankSwitchFlag` guard;
  - reads each chunk with `FlashRead` and `memcpy`s it out of `ReadBuffer`;
  - selects bank 0 again on exit.
- **`FlashRead`, `SendBankSelect` and `FlashReadID`**, over the global
  `ReadBuffer` and `WriteBuffer`.
- **The topology decision of `InitQspi`.** This is the choice of linear mode
  and the doubling of `QspiFlashSize`.
- **`QspiCheckRead`.** This is the search of the command table for a read
  command that returns the BootROM header.

Modules:

| file | module | contents |
|---|---|---|
| `Types.dfy` | `QspiTypes` | constants, `Byte`, `Status`, `Topology`, bank arithmetic |
| `Frame.dfy` | `QspiFrame` | pure encodings: the read-command frame, the JEDEC ID codes, the LQSPI_CR word of `QspiCheckRead`, the boot-header signature |
| `Planner.dfy` | `Planner` | one pass of the manual loop as the pure function `NextChunk`/`Advance`; the whole plan `Chunks`; lemmas about that plan |
| `Controller.dfy` | `QspiBus` | the controller and the flash behind it, seen from the driver (see below) |
| `Qspi.dfy` | `QspiDriver` | the driver's globals as the class `Qspi`, and its functions as methods |

The controller model provides:

- `XQspiPs_PolledTransfer`: a transfer that may fail.
- Per-device bank registers.
- LQSPI_CR, including its U_PAGE bit.
- The flash image.
- A ghost log of every transfer.

The driver class holds `ReadBuffer` and `WriteBuffer` as arrays. It also
holds `QspiFlashSize`, `QspiFlashMake`, the read command and dummy count,
and `LinearBootDeviceFlag`. A ghost `trace` records the operations every
access issues: U_PAGE changes, chip-select assertions, bank selects with
their outcomes, and reads.

Each manual `QspiAccess` is proved against `AccessPlan`, the operations the
pure planner predicts:

- On success it issued exactly that plan.
- On failure it issued the plan up to the bank select that failed, and
  stopped there.
- It copied exactly as many bytes as the reads it issued, and left the
  destination beyond them alone. Where those bytes come from is stated only
  in the case below.
- Suppose the devices start at bank 0 with the lower page selected, the read
  command matches the devices, and every transfer succeeds. Then the
  destination holds the flash image from the requested offset.

Behaviour of the code that the model keeps. Where the driver's description
of itself and its code disagree, the model follows the code:

- `BankSwitchFlag` is re-armed every time a chunk is cut at a bank boundary
  (src/qspi.c:751, 757). No cache remembers the selected bank, so a select is
  issued for every bank at or above 16 MiB that is entered.
- Linear mode is chosen by the size of one device, before the doubling
  (src/qspi.c:392, 429, 466). It is not chosen by the total size.
- A failed `SendBankSelect` returns at once (src/qspi.c:725-729, 804-808).
  After a failure the exit sequence does not run. In dual-stacked mode U_PAGE
  may then be left set: it is set when the failure comes after the switch to
  the upper device. `QspiDriver.Qspi.ManualAccess` states this through
  `PagedFrom` (LQSPI_CR unchanged, or changed only by setting U_PAGE).
- In dual-stacked mode the closing `SendBankSelect(0)` reaches only the
  device currently selected (src/qspi.c:804, 811-824). When an access ends on
  the upper device, the lower device keeps the bank it last had.
  `QspiDriver.Qspi.FinishAccess` and `QspiDriver.Qspi.ManualAccess` state
  this: an access ends on the upper device exactly when it reaches past the
  midpoint, and only the upper bank register is then promised to be 0. The
  starting state is re-established when the access ends on the lower device,
  and also when it starts at or above the midpoint: such an access sets
  U_PAGE before any select, so the lower device keeps bank 0 throughout. Only
  an access that crosses the midpoint can leave the lower device at another
  bank. `QspiDriver.StackedResetMissesLower` shows one that leaves it at
  bank 1.
- A `FlashRead` transfer asks for `Length + dummy + 4` bytes. The status it
  returns is discarded (src/qspi.c:610, 617).
- `SendBankSelect` for a make other than Micron or Spansion sends nothing.
  It then compares whatever `ReadBuffer[1]` already holds (src/qspi.c:923).
- In dual-parallel mode an odd source address is halved (src/qspi.c:671), so
  the access reads from the even byte below it. `AccessStart` models this.

Assumptions for the values `qspi.h` and `xqspips_hw.h` define. Those files
are not part of this model.

- `FLASH_SIZE_16MB` = 2^24.
- `SourceAddress & BANKMASK` is the 16 MiB-aligned base of the bank.
- The vendor IDs are Micron 0x20, Spansion 0x01 and Winbond 0xEF.
- The size codes are 0x18, 0x19, 0x20 and 0x21, for 16, 32, 64 and 128 MiB.
- The U_PAGE mask is 0x1000_0000.

## Model

| member | source | states |
|---|---|---|
| QspiTypes.BankBaseBounds | src/qspi.c:738-759 | `SourceAddress & BANKMASK` is a 16 MiB-aligned base at or below the address, less than one bank below it, and the address minus it is the address modulo 16 MiB |
| QspiTypes.SameBank | src/qspi.c:738-759 | every address between a bank's base and its end has that base and that bank index |
| QspiFrame.Address24 | src/qspi.c:605-608 | the address a device decodes from three frame bytes is below 16 MiB |
| QspiFrame.AddressBytes | src/qspi.c:605-608 | the three address bytes decode to the address modulo 2^24 |
| QspiFrame.ReadFrame | src/qspi.c:604-608 | the frame is four bytes, the command first, and its address bytes decode to the address modulo 2^24 |
| QspiFrame.AddressBytesOfAddress24 | src/qspi.c:605-608 | round trip: encoding the decoded address of three bytes gives back those bytes |
| QspiFrame.ReadFrameInjective | src/qspi.c:604-608 | two addresses give the same frame exactly when they agree in their low 24 bits |
| QspiFrame.MakeOfId | src/qspi.c:547-559 | a make is recognised exactly for Micron, Spansion and Winbond, and is the ID byte itself |
| QspiFrame.SizeOfIdRoundTrip | src/qspi.c:566-578 | every recognised size code names a whole number of banks, `IdOfSize` inverts the decoding, and exactly the four codes are recognised |
| QspiFrame.IdOfSizeRoundTrip | src/qspi.c:566-578 | every identifiable size has a code, and the code decodes back to that size |
| QspiFrame.ReadConfigWord | src/qspi.c:256-259 | the LQSPI_CR word keeps bits 31..11 of the old value, has the command in bits 7..0, the dummy count modulo 4 in bits 9..8, and bit 10 clear |
| QspiFrame.BytesLE | src/qspi.c:271-277 | the four little-endian bytes of a u32 read back as that word |
| QspiFrame.WordLEInjective | src/qspi.c:271-277 | two 4-byte groups are equal exactly when their little-endian words are |
| QspiFrame.WordLEBytes | src/qspi.c:271-277 | round trip: the bytes of a word are recovered from its value |
| QspiFrame.WordAt | src/qspi.c:271-277 | a word of the buffer has a value exactly when its four bytes are that value's bytes |
| QspiFrame.BootHeaderIsSignature | src/qspi.c:271-277 | the boot-header test holds exactly when bytes 16..39 are the 24 signature bytes |
| Planner.CapLength | src/qspi.c:678-682 | a chunk is the remaining length capped at 4096, positive when anything remains |
| Planner.LeavesBankIff | src/qspi.c:754 | the bank base changes between two addresses exactly when the later one is at or past the end of the earlier one's bank |
| Planner.BankCut | src/qspi.c:738-759 | the trimmed length is positive and never larger than before; a chunk is cut exactly when it would reach the next bank; a cut chunk ends exactly at the bank end; in dual-parallel mode the test uses half the length and a cut length is twice the per-device remainder |
| Planner.NextChunk | src/qspi.c:674-759 | one iteration: 1 <= Length <= min(LengthBytes, 4096); the upper switch happens exactly when stacked at or above the midpoint, subtracting it; a select is issued exactly when the address is at or above 16 MiB with the flag set, and selects address / 16 MiB truncated to a byte; the read stays inside its bank |
| Planner.ChunksCover | src/qspi.c:674-787 | the chunk lengths add up to LengthBytes, so the loop copies exactly the requested bytes |
| Planner.ChunksBounded | src/qspi.c:678-682 | every chunk is between 1 and 4096 bytes, so each iteration makes progress and fits ReadBuffer |
| Planner.FlattenReadBytes | src/qspi.c:764-787 | the reads of a plan's operations copy exactly the plan's bytes |
| Planner.ChunkOpsReadBytes | src/qspi.c:764-782 | one iteration's operations copy exactly its chunk's bytes |
| Planner.OddIsLast | src/qspi.c:738-752 | in dual-parallel mode only the last chunk can have odd length |
| Planner.AdvanceLogical | src/qspi.c:670-714 | each read starts at the logical offset the cursor stands for; the offset moves on by the chunk length (by half of it on each device in dual-parallel mode, with the midpoint subtracted on the upper device when stacked); the cursor stays coherent |
| Planner.ChunksContiguous | src/qspi.c:782-798 | chunk i starts at the first logical offset plus the lengths of the chunks before it, so the chunks tile the request end to end |
| Planner.BankInvStep | src/qspi.c:720-759 | bank selection is sound: starting from the flag invariant (flag clear ⇒ the device's bank register holds address / 16 MiB), every read is served from its own bank, and the invariant holds again after the iteration |
| Planner.CrossingOneBank | src/qspi.c:738-759 | 20 bytes from 16 MiB − 10 on a single device are two chunks of 10 bytes, the second after selecting bank 1 |
| Planner.ParallelMidBank | src/qspi.c:738-752 | two parallel 32 MiB devices, logical [16 MiB − 4, 16 MiB + 4): one 8-byte chunk at per-device 8 MiB − 2, with no bank select |
| Planner.FinalStaysUpper | src/qspi.c:688-714 | once the loop has moved to the upper device it stays there to the end |
| Planner.FinalUpper | src/qspi.c:688-759 | stacked, a non-empty access that starts on the lower device ends on the upper one exactly when it reaches past the midpoint |
| Planner.StackedAcrossMidpoint | src/qspi.c:688-759 | two stacked 32 MiB devices, 16 bytes across the midpoint: bank 1 of the lower device, then the upper device's bank 0 with no select |
| QspiBus.Head | src/qspi.c:617-618 | the devices see at most the first four bytes sent, and all four on a read frame |
| QspiBus.DeviceByteInBank | src/qspi.c:764-782 | a read inside one bank, with the bank register holding that bank, returns the image at the matching logical offsets |
| QspiBus.DeviceByteWraps | src/qspi.c:738-759 | reading past a bank end without a bank select wraps to the start of the same bank, which is why reads are cut |
| QspiBus.Controller.BanksAfter | src/qspi.c:866-869 | only the two bank-register writes change a bank register, and only that of the device the transfer reaches |
| QspiBus.Controller.Exchange | src/qspi.c:532-533 | a transfer is logged with its outcome; on success the driven response bytes are the devices' answer; nothing past the byte count changes |
| QspiBus.Controller.Send | src/qspi.c:856-857 | a transfer with no receive buffer is logged with its outcome and changes only the bank registers it writes |
| QspiDriver.SelectFrames | src/qspi.c:850-921 | Micron and Spansion have their command sequences; every other make is sent nothing |
| QspiDriver.AccessStart | src/qspi.c:670-672 | the data starts at the source address, or in dual-parallel mode at most one byte below it |
| QspiDriver.WordAlign | src/qspi.c:654-656 | the linear length is the least multiple of 4 at or above the request |
| QspiDriver.CopyBytes | src/qspi.c:782 | `memcpy`: the n bytes land at the offset and nothing else in the destination changes |
| QspiDriver.ChunkFits | src/qspi.c:764 | each read of an in-range request lies inside one device |
| QspiDriver.ChunkReadsImage | src/qspi.c:764-782 | byte j of a read served from its own bank is the image at the cursor's logical offset plus j |
| QspiDriver.TracksStep | src/qspi.c:674-798 | one iteration whose select and read succeed keeps the loop's tracking invariant: bank registers, U_PAGE and the copied prefix of the destination |
| QspiDriver.PlanStep | src/qspi.c:764-798 | after a successful iteration the operations so far are a prefix of the plan that copied one more chunk |
| QspiDriver.PlanFailsInChunk | src/qspi.c:725-729 | a failed select inside an iteration ends the access at that select, with no further bytes copied |
| QspiDriver.PlanExit | src/qspi.c:804-808 | the exit reads nothing; a failure of its select ends the access there |
| QspiDriver.StackedResetMissesLower | src/qspi.c:688-824 | 16 bytes across the midpoint of two stacked 32 MiB devices: bank 1 is selected on the lower device, then the upper device is read, and the closing bank reset comes while the upper device is selected |
| QspiDriver.TableEntriesServe | src/qspi.c:213-216 | every table entry before the sentinel is a read command with the dummy count the devices use for it |
| QspiDriver.DefaultTableScan | src/qspi.c:245-289 | on the shipped table the search tries all three commands without early exit, and with early exit stops at the first match, trying at least one |
| QspiDriver.ImagePrefix | src/qspi.c:264 | the first n bytes of the flash image |
| QspiDriver.Qspi.constructor | src/qspi.c:187-200 | the globals at reset: buffers of 4108 and 12 bytes, quad read with one dummy byte, linear flag clear |
| QspiDriver.Qspi.FlashReadID | src/qspi.c:520-581 | READ ID [0x9F,0,0,0] over 4 bytes; on success the make and size are decoded from the first and third JEDEC ID bytes, an unknown code leaves the global unchanged, and the status is still success; a failed transfer changes neither |
| QspiDriver.Qspi.FlashRead | src/qspi.c:598-619 | sends [cmd, A23..16, A15..8, A7..0] for `ByteCount + dummy + 4` bytes; with a matching read command the data after the prefix is the device data at the address |
| QspiDriver.Qspi.SendCommand | src/qspi.c:866-869 | one bank-register command placed at the start of WriteBuffer and sent; only the register byte of a read-back is specified |
| QspiDriver.Qspi.MicronBankSelect | src/qspi.c:850-873 | WREN, then [0xC5, bank], then a read of [0xC8], stopping at the first failure; success exactly when all three succeed, and then the register reads back `bank` |
| QspiDriver.Qspi.SpansionBankSelect | src/qspi.c:875-906 | [0x17, bank], then a read of [0x16], stopping at the first failure; success exactly when both succeed |
| QspiDriver.Qspi.SendBankSelect | src/qspi.c:843-930 | the make's transfers as planned, stopping at the first failure; success exactly when all were sent and succeeded and `ReadBuffer[1] == bank`; for Micron and Spansion every transfer succeeding implies success with the bank register set, at least one transfer is logged, and a failure means the last logged transfer failed |
| QspiDriver.Qspi.LinearAccess | src/qspi.c:650-660 | copies `WordAlign(len)` bytes from the linear window at the source address |
| QspiDriver.Qspi.SelectDevice | src/qspi.c:688-714 | at or above the midpoint: set U_PAGE, subtract the midpoint, assert chip select; below it nothing changes; returns the LQSPI_CR value read first |
| QspiDriver.Qspi.ReadChunk | src/qspi.c:764-782 | FlashRead of the chunk, then `memcpy`: destination byte `at + j` is `ReadBuffer[4 + dummy + j]` for every byte of the chunk, and no other destination byte changes |
| QspiDriver.Qspi.EnterChunk | src/qspi.c:674-732 | the upper switch and the guarded bank select of one iteration, as the planner predicts; a failed select ends the iteration; with every transfer ok, a chunk on the upper device leaves the lower device's bank alone |
| QspiDriver.Qspi.ReadStep | src/qspi.c:734-798 | the bank trim, FlashRead and copy of one iteration, leaving the loop variables where `Advance` puts them |
| QspiDriver.Qspi.ReadNextChunk | src/qspi.c:674-798 | one whole iteration: either the planned chunk's operations, or its prefix up to a failed select; with every transfer ok the tracking invariant moves one chunk on, and a chunk on the upper device leaves the lower device's bank alone |
| QspiDriver.Qspi.ManualStep | src/qspi.c:674-798 | one iteration keeps the loop invariant and strictly decreases LengthBytes, or stops at a failed select; the invariant includes that a stacked access starting at or above the midpoint keeps the lower device at bank 0 |
| QspiDriver.Qspi.ManualLoop | src/qspi.c:674-799 | the loop ends having issued the whole plan, or issued the plan up to a failed select |
| QspiDriver.Qspi.ManualStart | src/qspi.c:642-672 | the loop invariant holds for the starting cursor (halved address in dual-parallel mode, flag set) |
| QspiDriver.Qspi.RunManual | src/qspi.c:674-825 | the loop followed by the exit sequence; with every transfer ok and a Micron or Spansion make it succeeds and resets the bank of the device the exit reaches; for a consistent in-range access that device is the upper one exactly when stacked and the planned loop ends there, and the starting state is restored when the exit reaches the lower device or the access started at or above the midpoint |
| QspiDriver.Qspi.FinishManual | src/qspi.c:799-825 | after the whole plan, the exit sequence completes it, or its select fails; with every transfer ok and a Micron or Spansion make it succeeds and resets the bank of the device the loop ended on; for a consistent in-range access ending on the lower device, or starting at or above the midpoint, it restores the starting state |
| QspiDriver.Qspi.FinishAccess | src/qspi.c:800-824 | SendBankSelect(0), then when stacked U_PAGE cleared in the saved LqspiCrReg and chip select asserted; only the selected device's bank is reset, the other keeps its bank; for a consistent access of a Micron or Spansion make with every transfer ok the starting state is restored when the exit reaches the lower device, or the upper one while the lower is still at bank 0 |
| QspiDriver.Qspi.ManualAccess | src/qspi.c:661-825 | the operations are the plan on success and the plan up to a failed select on failure; the copied count is the bytes read; the data is the image when the devices start consistent and every transfer succeeds; LQSPI_CR is only changed in U_PAGE, and cleared of it after a stacked success; with every transfer ok the exit ends on the upper device exactly when stacked and past the midpoint, resets that device's bank (Micron or Spansion), and re-establishes the consistent starting state when the access ends on the lower device or starts at or above the midpoint |
| QspiDriver.Qspi.QspiAccess | src/qspi.c:638-828 | the linear path copies the word-rounded length from the window and touches no transfer or register; otherwise all of the manual path's guarantees, including U_PAGE cleared after a stacked success and the bank registers after the exit |
| QspiDriver.Qspi.ConfigureTopology | src/qspi.c:383-482 | linear mode is switched on exactly for single or dual-parallel with a per-device size of at most 16 MiB, and never switched off; the size is doubled for dual-parallel and dual-stacked |
| QspiDriver.Qspi.TryCommand | src/qspi.c:254-290 | installs the entry, programs LQSPI_CR, reads 128 bytes from offset 0 and tests them; in linear mode the verdict depends only on the image |
| QspiDriver.Qspi.QspiCheckRead | src/qspi.c:236-297 | the search stops as ScanStopped describes, never installs the sentinel, leaves a read command with its matching dummy count installed, and returns success |
| QspiDriver.Qspi.InitQspi | src/qspi.c:317-502 | a failed FlashReadID is ignored; the total size is the doubled device size; a read command that matches the devices is installed; with a recognised size code that matches the devices the configuration serves reads correctly |

## Left out

- Controller bring-up in `InitQspi` is not modelled: `XQspiPs_LookupConfig`, `XQspiPs_CfgInitialize` and their failure returns, the options, the prescaler, the enables and `FlashReadBaseAddress`. These are calls into the controller library, which is not part of this model.
- The LQSPI_CR values `InitQspi` programs (src/qspi.c:144-168, 400-481) are not modelled. Their masks come from `xqspips_hw.h`, which is not part of this model. LQSPI_CR is only modelled as far as the U_PAGE bit the read path uses.
- `QspiControllerSet`, `QspiFifoStatusCheck`, `QspiFlashSpansionInit` and `QspiFlashAllStatusShow` are not modelled. They are defined in other files.
- Printing and dumps are not modelled: `xil_printf`, `fsbl_printf`, `dbg_mem_word_dump`, and the raw-data dump block (src/qspi.c:765-777).
- `#if 0` code is not modelled.
- The memory-mapped window is modelled as reading the flash image directly.
- The transfers `XQspiPs_PolledTransfer` makes are nondeterministic in success. Only the response bytes the devices drive are specified, the rest are left open, and how many bytes of `WriteBuffer` the controller reads is not modelled.
- The Micron write-enable latch is not modelled. A bank-register write succeeds whenever its transfer does.
- In dual-parallel mode one bank register stands for the pair of devices, since both receive every command.
- QspiDriver.Qspi.ManualAccess: u32 wrap-around of `SourceAddress + LengthBytes` is not modelled. The data guarantee applies only to requests inside the flash, and the largest identifiable total (2^28) keeps every sum below 2^32.
- QspiDriver.Qspi.ManualAccess: in dual-stacked mode `LqspiCrReg` is only assigned inside the loop. With `LengthBytes == 0` the exit writes an unassigned value. The model starts it at 0 and states nothing about LQSPI_CR for that case.
- QspiDriver.Qspi.ManualAccess: the data guarantee assumes the bank registers are 0 and U_PAGE is clear at entry (`Consistent`; the upper bank register only when stacked). It is stated as weaker than "always the image", because a stacked access that crosses the midpoint can leave the lower device at another bank; every other access that succeeds re-establishes that state, as the contract says.
- QspiDriver.Qspi.ManualAccess: after a failed bank select the bytes already copied stay in the destination; they are not rolled back. The contract states where copied bytes come from only when every transfer succeeded, so for a failed access it gives their number and that the rest of the destination is untouched, not that they are the image. Carrying the image facts through the failed iteration made the loop's proof too large to check within the resource bound.
- QspiDriver.Qspi.QspiAccess: its manual path has exactly the gaps of `QspiDriver.Qspi.ManualAccess` listed above: no u32 wrap-around, nothing said about LQSPI_CR when `LengthBytes == 0`, the lower device's bank after a stacked access across the midpoint, and no data clause for a failed access.
- QspiDriver.Qspi.QspiCheckRead: in the manual path the model does not prove that each verdict reflects the flash image. The banks left by earlier accesses and the transfer outcomes are not tracked across the table search. In linear mode it proves that every verdict is the verdict on the image.
- QspiDriver.Qspi.QspiCheckRead: `u32_read_buffer` is uninitialised in the source. Its previous contents are a parameter.
- `ReadBuffer` dumps and the `gu32_qspi_config_ok_num` array are not modelled. Nothing on the read path uses them.
