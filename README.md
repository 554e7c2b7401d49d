# ch341par_linux demos: flash framing, device classification and slave streams

This project models the logic that the WCH CH347/CH346 Linux demo programs
keep outside the closed vendor library. It is written in Dafny and its
properties are proved.

- **SPI-NOR flash** (module `SpiFlash`):
  - the command frames with their 24-bit big-endian address;
  - the write-enable / command / busy-wait sequence of page program, sector erase and chip erase;
  - the bounded status poll `Flash_Wait`;
  - the JEDEC ID check;
  - `Flash_Block_Read`;
  - the page split of `Flash_Block_Write` and `Flash_Block_Write_Test`;
  - the result checks of `Flash_File_Write` and `Flash_File_Read`.
- **Device identification** (module `DeviceInfo`): `Show_DevMsg` of the CH347 and CH346 demos.
  - The path picks the tty, hidraw or ch34x_pis branch.
  - hidraw: the VID/PID and the physical-location string give the chip and the function set.
  - ch34x_pis: the driver's chip type and 32-bit device ID (vendor in the low half, product in the high half) give them.
  - CH346: the mode byte gives FIFO or SPI.
- **CH346 slave streams** (module `SlaveStream`):
  - The reader pulls 1 MiB reads in 10 MiB rounds, cuts each read into 8192-byte packets and checks the byte rule.
  - In the test copy, the reader also checks a little-endian sequence number at the head of each packet.
  - The demo writer sends 8192-byte chunks of a counting buffer from `bytes_write % MB`.
  - The test writer stamps a running `packindex` into a descending buffer in place.
- **Small helpers** (module `DemoHelpers`):
  - the `timeval` difference with a borrow;
  - the GPIO 'H'/'L' lines;
  - the walking-one GPIO output;
  - the cycling I2C speed mode of the test copy (a class with the global `imode` as its field);
  - the JTAG IDCODE byte order;
  - the EEPROM test pattern.
- **Shared definitions** (module `Bytes`): byte and word types, little-endian words, bits and the counting pattern.

Every call into the vendor library or the kernel becomes an input of the model:
- a success flag per SPI transfer;
- a script of status replies for the busy-wait, where `None` is a failed transfer;
- a record of ioctl and driver answers;
- one `Query` per pass of the reader loop;
- one `WriteOutcome` per slave write.

The endless outer loops run until such a script is used up.

`demo/ch347/ch347_demo.c` and `lib/test_bak/ch347_demo_test.c` share their flash routines, GPIO demos and hidraw branch. These are modelled once: `Flash_Block_Write` (lines 244-285 of the test copy), the GPIO demos (1341-1400) and the hidraw branch (1610-1651) are textually the same logic as the cited lines of the demo. Likewise, the CH346 demo and its test copy share `Show_DevMsg` (lib/test_bak/ch346_demo_test.c:438-468 is the same as demo/ch346/ch346_demo.c:232-278).

## Model

| member | source | states |
|---|---|---|
| Bytes.Pow2Positive | demo/ch347/ch347_demo.c:614 | `1 << n` is never 0 |
| Bytes.SingleBit | demo/ch347/ch347_demo.c:614 | `1 << i` has bit i set and no other bit |
| Bytes.Le32Injective | lib/test_bak/ch346_demo_test.c:209-212 | a 32-bit word read with `le32toh` from four bytes determines those bytes: equal words exactly for equal byte sequences |
| Bytes.FillCounting | demo/ch346/ch346_demo.c:187-188 | after `buf[i] = i` over a byte buffer, the buffer is the counting pattern i mod 256 |
| Bytes.CountingAligned | demo/ch347/ch347_demo.c:266-267 | a window of the counting pattern that starts at a multiple of 256 is again the counting pattern from 0 |
| SpiFlash.AddressBytesValue | demo/ch347/ch347_demo.c:155-157 | the three truncated bytes `A >> 16`, `A >> 8`, `A` carry exactly A mod 2^24 |
| SpiFlash.ReadFrameLayout | demo/ch347/ch347_demo.c:154-157 | the read frame is 4 bytes, opcode 0x03, and addresses A mod 2^24 |
| SpiFlash.ProgramFrameLayout | demo/ch347/ch347_demo.c:391-396 | the page-program frame is len + 4 bytes: opcode 0x02, address A mod 2^24, then exactly the data |
| SpiFlash.SectorEraseFrameLayout | demo/ch347/ch347_demo.c:343-346 | the sector-erase frame, opcode 0x20, addresses A mod 2^24 rounded down to its 4096-byte sector |
| SpiFlash.WaitOutcome | demo/ch347/ch347_demo.c:317-329 | Flash_Wait(r) issues 1 to r + 1 polls, all but the last busy; it is ready exactly when the last poll returned bit 0 clear; otherwise that poll failed or all r + 1 were busy |
| SpiFlash.FlashWait | demo/ch347/ch347_demo.c:307-330 | the do-while poll loop returns the readiness the poll specification gives; it sends one two-byte frame per poll, each starting with CMD_FLASH_RDSR 0x05, and from the second poll on its second byte is the status the previous poll read back |
| SpiFlash.W25xFlashWritePage | demo/ch347/ch347_demo.c:381-409 | it sends the write-enable frame, then the program frame only if that succeeded, then the status polls of the wait only if both succeeded; it succeeds exactly when both transfers succeed and a 1000-retry wait sees the chip ready |
| SpiFlash.FlashSectorErase | demo/ch347/ch347_demo.c:332-356 | it sends the write-enable frame, then the sector-erase frame only if that succeeded, then the status polls of the wait only if both succeeded; it succeeds exactly when both succeed and a 1000-retry wait sees the chip ready |
| SpiFlash.FlashChipErase | demo/ch347/ch347_demo.c:358-379 | it sends the write-enable frame, then the one-byte 0x60 only if that succeeded, then the status polls of the wait only if both succeeded; it succeeds exactly when both succeed and a 100000-retry wait sees the chip ready |
| SpiFlash.FlashIdRead | demo/ch347/ch347_demo.c:115-143 | the frame sent is `[0x9F, 0xFF, 0xFF, 0xFF]`; after a good transfer the ID is `b1<<8 \| b2<<16 \| b3<<24`; the read succeeds exactly when the transfer succeeded and the three ID bytes are neither all 0x00 nor all 0xFF |
| SpiFlash.FlashBlockRead | demo/ch347/ch347_demo.c:145-166 | the 4-byte read frame is written at the buffer start; on success the reply overlays it and its length is returned, on failure 0 is returned |
| SpiFlash.Written | demo/ch347/ch347_demo.c:190-197 | the count of leading full pages written: all of them succeeded, and the next one (if any) failed |
| SpiFlash.WritePages | demo/ch347/ch347_demo.c:179-202 | the paging loop's final FlashAddr is address + 256 × (pages written); its success flag says every page succeeded; its calls are exactly the issued page writes |
| SpiFlash.FlashBlockWrite | demo/ch347/ch347_demo.c:168-217 | a start that is not page aligned returns 0 and writes nothing; otherwise it issues the page writes and returns FlashAddr |
| SpiFlash.IssuedPageSplit | demo/ch347/ch347_demo.c:181-202 | at most ceil(len/256) writes are issued; write j goes to address + 256j (mod 2^32); every full-page write carries 256 bytes |
| SpiFlash.ProgrammedFullPages | demo/ch347/ch347_demo.c:190-197 | the first k full pages program the data bytes [0, 256k) in order |
| SpiFlash.IssuedProgramsPrefix | demo/ch347/ch347_demo.c:198-202 | the issued writes program a prefix of the buffer, and the whole buffer when every write succeeded |
| SpiFlash.IssuedStopsAtFailure | lib/test_bak/ch347_demo_test.c:265-277 | every issued write but the last succeeded; not all writes succeeded exactly when the last issued write failed |
| SpiFlash.BlockWriteReturnIgnoresTail | demo/ch347/ch347_demo.c:198-216 | the return value does not depend on the outcome of the tail write |
| SpiFlash.BlockWriteReturnStopsBeforeTail | demo/ch347/ch347_demo.c:190-212 | with every write successful the return is address + 256 × (len/256), and with a partial page it never equals address + len |
| SpiFlash.FlashBlockWriteTest | demo/ch347/ch347_demo.c:253-291 | the 0x500-byte counting buffer goes out as page writes at 256j, each carrying 0..255; true exactly when all five pages succeeded |
| SpiFlash.SameAsFileSizeMeans | lib/test_bak/ch347_demo_test.c:461-462 | `ret != filesize` with an `int` ret against an `unsigned long long` size holds for equal counts below 2^31 only |
| SpiFlash.FileWriteNeedsWholePages | lib/test_bak/ch347_demo_test.c:397-491 | a reported file-write success means the size is a multiple of 256 below 2^31, fread delivered it all, and every page was written |
| SpiFlash.FileWriteRejectsPartialPage | lib/test_bak/ch347_demo_test.c:461-466 | as written, a file whose size is not a multiple of 256 always reports failure |
| SpiFlash.FileWriteIntendedMeans | lib/test_bak/ch347_demo_test.c:453-466 | with the corrected block-write return, success exactly when the file opened, the erase succeeded, fread was complete, the size is below 2^31 and every page write succeeded |
| SpiFlash.FileReadMeans | lib/test_bak/ch347_demo_test.c:305-395 | file read reports success exactly when both reads were complete and flash and file agree on all filesize bytes |
| SpiFlash.FileReadOfBlockRead | lib/test_bak/ch347_demo_test.c:345-366 | after a successful whole-buffer `Flash_Block_Read` from address 0 the compared buffer is the library's reply, so the file read succeeds exactly when that reply is the file; a failed library read fails the file read |
| DeviceInfo.ChipCodes | lib/aarch64/dynamic/ch347_lib.h:37-44 | the CHIP_TYPE values 0..4 name the five chips one to one; no other value names a chip |
| DeviceInfo.ContainsMeans | demo/ch347/ch347_demo.c:709-712 | `strstr(s, pat) != NULL` holds exactly when pat occurs at some offset of s |
| DeviceInfo.SplitId | demo/ch347/ch347_demo.c:803-804 | vendor and product are the low and high 16-bit halves: vendor + 65536 × product is the device ID |
| DeviceInfo.SplitIdOfJoin | demo/ch346/ch346_demo.c:259-260 | splitting the ID made of a vendor and a product gives them back |
| DeviceInfo.TtyIsUart | demo/ch347/ch347_demo.c:709-711 | a tty path succeeds with function UART and nothing else changed |
| DeviceInfo.HidClassification | lib/test_bak/ch347_demo_test.c:1610-1651 | hidraw as written: which queries make it fail; an unknown VID/PID succeeds with the record untouched; 0x55dc is CH347T and 0x55e5 CH347F; UART exactly for "input0" (or "input2" on CH347F), SPI+I2C+GPIO otherwise |
| DeviceInfo.PisClassification | demo/ch347/ch347_demo.c:774-817 | ch34x_pis: success exactly when all queries succeed and the chip is not CH341; the chip and ID are recorded; products 0x55db, 0x55dd, 0x55de/0x55e7 select their function set, any other leaves it unchanged |
| DeviceInfo.HidAsWrittenFindings | demo/ch347/ch347_demo.c:732-773 | an unknown HID device is accepted, and a CH347F non-UART interface is recorded SPI+I2C+GPIO, so the JTAG menu is refused |
| DeviceInfo.HidIntendedClassification | demo/ch347/ch347_demo.c:712-773 | corrected hidraw: success exactly for a CH347 whose queries all succeeded; JTAG offered exactly on a CH347F non-UART interface |
| DeviceInfo.Ch346Classification | demo/ch346/ch346_demo.c:224-283 | only a ch34x_pis path is queried; success exactly for a CH346C whose queries all succeeded; FIFO exactly for mode byte 0, SPI otherwise |
| SlaveStream.ReadBeforeBufferDecides | demo/ch346/ch346_demo.c:106-110 | the verdict as written depends on `cBuffer[-1]`: the same good packet passes or fails depending on the byte before the buffer |
| SlaveStream.AsWrittenAgrees | demo/ch346/ch346_demo.c:106-131 | the as-written and corrected rules agree when the packet starts at 0 or continues the byte before |
| SlaveStream.CountingWindowOk | demo/ch346/ch346_demo.c:187-188 | every window of the counting pattern passes both byte rules |
| SlaveStream.CheckPacket | demo/ch346/ch346_demo.c:106-131 | the byte loop accepts a packet exactly when every byte from the second on is its predecessor + 1 (int arithmetic) or 0 |
| SlaveStream.CheckPacketSkip | lib/test_bak/ch346_demo_test.c:229-244 | the test byte loop accepts exactly when the rule holds at every j with j mod 512 ≥ 5 |
| SlaveStream.NumPacketsMeans | demo/ch346/ch346_demo.c:103 | packet k is checked exactly when 8192k < perlen |
| SlaveStream.PacketsInBuffer | demo/ch346/ch346_demo.c:103-105 | every packet copied from a read of at most 1 MiB lies in the 1 MiB buffer |
| SlaveStream.CopyPacket | demo/ch346/ch346_demo.c:104-105 | `cBuffer` holds packet i/8192 of the read buffer |
| SlaveStream.CheckRead | demo/ch346/ch346_demo.c:103-133 | a read is accepted exactly when every packet at an offset below perlen passes the byte rule |
| SlaveStream.CheckReadSeq | lib/test_bak/ch346_demo_test.c:204-275 | a read is accepted exactly when packet k carries sequence number start + k (little-endian, mod 2^32) and passes the skipping rule; the next expected number then advances by the packet count |
| SlaveStream.NextMeans | demo/ch346/ch346_demo.c:87-138 | one pass halts exactly at a failed query, a failed read or a failed check; below 1 MiB buffered it only waits; otherwise bytes_read grows by perlen |
| SlaveStream.SlaveRead | demo/ch346/ch346_demo.c:84-139 | the nested reader loops compute the reader run of the script; the demo variant uses the corrected byte rule from j = 1, not the j = 0 loop as written (see Findings) |
| SlaveStream.RunStops | demo/ch346/ch346_demo.c:88-101 | the reader stops only at the end of the script or at the entry that failed its query, failed its read or failed the check; every earlier library call succeeded |
| SlaveStream.RunRounds | demo/ch346/ch346_demo.c:87 | each completed round was paid for by 10 MiB of delivered reads |
| SlaveStream.CountingReadOk | demo/ch346/ch346_demo.c:103-131 | a read of whole counting packets passes the demo check |
| SlaveStream.DemoAcceptsCountingStream | demo/ch346/ch346_demo.c:84-139 | fed whole packets of the counting pattern, the demo reader never stops with a data error |
| SlaveStream.DemoOffsetsShape | demo/ch346/ch346_demo.c:190-203 | the demo writer starts at offset 0; a good write moves it on by 8192 mod 1 MiB and a failed or short one restarts at 0; every chunk is 8192-aligned inside the buffer |
| SlaveStream.SlaveWriteDemo | demo/ch346/ch346_demo.c:170-222 | the writer's offsets follow that rule, one per write, and every chunk sent is the counting pattern 0..8191 mod 256 |
| SlaveStream.TakeChunk | demo/ch346/ch346_demo.c:196 | a chunk from an 8192-aligned offset of the counting buffer is the counting pattern |
| SlaveStream.TestWrites | lib/test_bak/ch346_demo_test.c:376-388 | the test writer issues writes up to and including the first failed or short one |
| SlaveStream.SlaveWriteTest | lib/test_bak/ch346_demo_test.c:339-409 | write k goes from slot k mod 128 and carries packindex k + 1 followed by the descending pattern; it stops after the first failed write |
| SlaveStream.FillDescending | lib/test_bak/ch346_demo_test.c:364-365 | the second fill leaves `0xff - (i mod 256)` in every byte |
| SlaveStream.Stamp | lib/test_bak/ch346_demo_test.c:378 | the `memcpy` of packindex replaces exactly the 4 bytes at the offset with its little-endian bytes |
| SlaveStream.StampKeepsTails | lib/test_bak/ch346_demo_test.c:378-379 | stamping a slot's head keeps the descending pattern at every non-head byte |
| SlaveStream.StampChunk | lib/test_bak/ch346_demo_test.c:378-382 | a freshly stamped slot is the test chunk, and the buffer keeps its invariant |
| SlaveStream.StampedSlot | lib/test_bak/ch346_demo_test.c:376-382 | a slot with stamp k + 1 over the descending buffer is test chunk k |
| SlaveStream.TestWriterAgainstTestReader | lib/test_bak/ch346_demo_test.c:351-365 | the test writer's first chunk carries 1 where the test reader expects 0, and no test chunk passes either byte rule |
| DemoHelpers.Elapsed | lib/test_bak/ch347_demo_test.c:356-362 | the borrowed difference denotes t2 − t1 in microseconds, and its microseconds stay in [0, 10^6) |
| DemoHelpers.ElapsedUnique | demo/ch346/ch346_demo.c:142-148 | the borrowed difference is the only normal `timeval` for t2 − t1 |
| DemoHelpers.Levels | lib/test_bak/ch347_demo_test.c:1356-1361 | the level line has one character per pin: 'H' exactly for a set bit, 'L' otherwise |
| DemoHelpers.LevelsRoundTrip | lib/test_bak/ch347_demo_test.c:1357-1360 | a level line gives back the value it shows |
| DemoHelpers.GpioLevelsInjective | demo/ch347/ch347_demo.c:590-595 | different pin states show different lines |
| DemoHelpers.ShowGpioInput | demo/ch347/ch347_demo.c:575-598 | a failed read shows nothing; otherwise character i is 'H' exactly when bit i of iData is set |
| DemoHelpers.GpioWalk | demo/ch347/ch347_demo.c:600-634 | all pins low first; step i writes `1 << i`, stops at the first failed set, and prints 'H' at column i only; a completed walk ends by writing 0 |
| DemoHelpers.Pow2Byte | demo/ch347/ch347_demo.c:614 | `1 << i` for a pin number fits the byte `iSetDataOut` |
| DemoHelpers.I2cModeCounter.constructor | lib/test_bak/ch347_demo_test.c:144 | the mode counter starts at 0 |
| DemoHelpers.I2cModeCounter.Init | lib/test_bak/ch347_demo_test.c:146-185 | each call uses the current mode, advances it mod 8 so it stays in 0..7, and succeeds exactly when the three library calls succeed |
| DemoHelpers.InitCalls | lib/test_bak/ch347_demo_test.c:152-154 | successive calls use the modes 0, 1, …, 7, 0, 1, … |
| DemoHelpers.ShowIdcode | demo/ch347/ch347_demo.c:551-573 | the printed bytes are `retue[3 - i]`: the IDCODE shifted out LSB first, shown MSB first |
| DemoHelpers.EepromWrite | demo/ch347/ch347_demo.c:440-470 | one 256-byte write of 0..255 to a 24C02 from address 0; the library outcome is the result |

## Left out

- The vendor library and the kernel are not part of this model. Every `CH347*`, `CH346*`, `CH34x*` call and the `HIDIOCGRAW*` ioctls appear only through their outcomes, which are inputs. Their internal behaviour, including whether `CH346_Slave_ReadData` honours `perlen`, is assumed through `WellFormed` and the `Query` record.
- Threads (`pthread_create`/`pthread_join`) and the 'w' menu case falling through to 'r' are left out: this is concurrency, and each thread body is modelled sequentially.
- Float timing and speeds (`UseT`, `speed_read`, `speed_write`, `difftime`), `printf`, `perror`, `sleep`/`usleep`, `time`/`ctime` and the signal handlers are left out: they are output or timing only.
- The menu loops on `scanf`/`getchar` are left out as user interface. This includes where the JTAG demo is offered; `DeviceInfo.JtagMenu` states only which function sets reach it.
- File I/O is left out: `fopen`, `fread` and `get_file_size` appear as an open flag, the bytes fread delivered and `filesize`.
- `Flash_File_Read_Test` is left out: it compares a buffer that is never filled and uses an uninitialised total.
- The `rand()`-driven pressure tests and the UART, JTAG and EEPROM demo library calls are left out: they only forward to the library. The EEPROM hex dump after the write is printing only.
- The demo's `CH347_I2C_Init` is left out: it passes the constant mode 0x03 to the library. Only the cycling counter of the test copy is modelled.
- The error dump of the CH346 demo reader is left out with the other printing. It prints `cBuffer[k]` for every `k < oLength`, where `oLength` is at least 1 MiB but `cBuffer` holds 8192 bytes (demo/ch346/ch346_demo.c:116-120). That dump reads past the buffer and may crash before `exit:` is reached; the model ends such a run with `DataError`.
- The `LOOPBACK` branch of the test reader is left out: it is compiled out.
- The test reader's setup before the loop (FIFO reset, first query) and its drain loop after an error are left out: they only call the library and sleep. The model starts at the main loop.
- The `memset` of the frame buffer after the page program in `W25X_Flash_Write_Page` is left out: it does not affect what is sent or returned.
- DemoHelpers.Elapsed: the `int` second and microsecond differences are unbounded integers; an overflow of `delta_sec` is not modelled.
- SpiFlash.FileRead: assumes the read buffer holds filesize bytes. For a file shorter than 4 bytes, `Flash_Block_Read` writes its 4-byte frame past a `malloc(filesize)` buffer, which is not modelled.
- SpiFlash.FileWrite: a failed chip erase is modelled as a reported failure. In the source, `ioBuffer` is uninitialised until the `malloc` after the erase (lib/test_bak/ch347_demo_test.c:401, 451), and the erase-failure path jumps to `exit:`, where it is passed to `free` (lines 431-434, 488). That is undefined behaviour, and the C library may abort instead of returning false. Initialising `ioBuffer` to NULL, or allocating it before the erase, is evidently intended.
- SpiFlash.FileWrite: the file size is taken as a `U32`, because `get_file_size` returns `unsigned int`. Files of 4 GiB or more are out of scope.
- Sequence numbers of the test reader and writer are stored in host byte order; the model takes a little-endian host, as `le32toh` only agrees with it there.
- The endless outer loops of the readers and writers are modelled over finite scripts of library outcomes. A run ends when its script is used up (`ScriptEnd`).
- SpiFlash.FlashBlockRead: the count the library writes back into `len` is taken to be the length of the reply it delivered.

## Findings

| source | as written | input that shows it | evidently intended | confidence | as-written member | corrected member |
|---|---|---|---|---|---|---|
| lib/test_bak/ch347_demo_test.c:461-466 | `Flash_Block_Write` returns FlashAddr, which never advances past the partial tail page. Flash_File_Write compares it with filesize. | A 300-byte file where every step succeeds: the return is 256 ≠ 300, so the write is reported failed. | A file write succeeds when every page, the tail included, was written. | not executed | SpiFlash.FileWriteRejectsPartialPage | SpiFlash.FileWriteIntendedMeans |
| demo/ch347/ch347_demo.c:737-744 | `return -1` in a `bool` function converts to `true`. | An HID device with VID 0x1234 and PID 0x5678: Show_DevMsg reports success. | An unknown HID device is rejected. | not executed | DeviceInfo.HidAsWrittenFindings | DeviceInfo.HidIntendedClassification |
| demo/ch347/ch347_demo.c:769-772 | A CH347F non-UART hidraw interface gets FUNC_SPI_I2C_GPIO while the message says SPI+I2C+JTAG+GPIO. | A CH347F with phys "input1": functype is SPI+I2C+GPIO, so the JTAG demo is refused. | The interface gets FUNC_SPI_I2C_JTAG_GPIO. | not executed | DeviceInfo.HidAsWrittenFindings | DeviceInfo.HidIntendedClassification |
| demo/ch346/ch346_demo.c:106-110 | The byte loop starts at j = 0 and reads `cBuffer[-1]`, outside the packet buffer. | The packet 1, 2, …, 0, 1, … passes when the byte before the buffer is 0 and fails when it is 7. | The check starts at j = 1. | not executed | SlaveStream.ReadBeforeBufferDecides | SlaveStream.CheckPacket |
