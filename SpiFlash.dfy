/**
 * The SPI-NOR flash routines of the CH347 demo: command frames with a 24-bit
 * big-endian address, the write-enable / command / busy-wait sequence, the
 * page-split block write, the JEDEC ID check and the file write/read checks.
 *
 * Every call into the vendor SPI library is replaced by its outcome, given as
 * input: a success flag per transfer, and for the status polls of the busy
 * wait a script of replies (`None` is a failed transfer; polls past the end of
 * the script fail too).
 */
module SpiFlash {
  import opened Bytes

  const CMD_FLASH_CHIP_ERASE: Byte := 0x60
  const CMD_FLASH_SECTOR_ERASE: Byte := 0x20
  const CMD_FLASH_BYTE_PROG: Byte := 0x02
  const CMD_FLASH_READ: Byte := 0x03
  const CMD_FLASH_RDSR: Byte := 0x05
  const CMD_FLASH_WREN: Byte := 0x06
  const CMD_FLASH_JEDEC_ID: Byte := 0x9F

  /** SPI_FLASH_PerWritePageSize */
  const PAGE_SIZE: nat := 256
  const SECTOR_SIZE: nat := 4096
  /** The local frame buffer of W25X_Flash_Write_Page. */
  const PAGE_BUFFER_SIZE: nat := 8192
  /** Retry budgets handed to Flash_Wait by the page program, sector erase and chip erase. */
  const PAGE_WAIT_RETRIES: nat := 1000
  const SECTOR_WAIT_RETRIES: nat := 1000
  const CHIP_WAIT_RETRIES: nat := 10 * 10000

  /** The bytes of one SPI transfer, as handed to the library. */
  type Frame = seq<Byte>

  const WRITE_ENABLE_FRAME: Frame := [CMD_FLASH_WREN]
  const CHIP_ERASE_FRAME: Frame := [CMD_FLASH_CHIP_ERASE]
  /** Flash_ID_Read: the opcode followed by three 0xFF filler bytes clocked out while the ID is read. */
  const JEDEC_ID_FRAME: Frame := [CMD_FLASH_JEDEC_ID, 0xFF, 0xFF, 0xFF]

  /*** Command frames ***/

  /** The 24-bit address a flash chip reads from bytes 1..3 of a command frame (most significant first). */
  function FrameAddress(f: Frame): nat
    requires |f| >= 4
  {
    0x1_0000 * (f[1] as int) + 0x100 * (f[2] as int) + f[3] as int
  }

  /** `(uint8_t)(A >> 16), (uint8_t)(A >> 8), (uint8_t)A` */
  function AddressBytes(a: U32): (b: seq<Byte>)
    ensures |b| == 3
  {
    [(a / 0x1_0000) % 0x100, (a / 0x100) % 0x100, a % 0x100]
  }

  /** The three truncated address bytes carry exactly the low 24 bits of the address. */
  lemma AddressBytesValue(a: U32)
    ensures 0x1_0000 * ((a / 0x1_0000) % 0x100) + 0x100 * ((a / 0x100) % 0x100) + a % 0x100 == a % 0x100_0000
  {
    var q1 := a / 0x100;
    var q2 := q1 / 0x100;
    assert a == a % 0x100 + 0x100 * q1;
    assert q1 == q1 % 0x100 + 0x100 * q2;
    assert a / 0x1_0000 == q2;
    assert q2 == q2 % 0x100 + 0x100 * (q2 / 0x100);
    var r := 0x1_0000 * (q2 % 0x100) + 0x100 * (q1 % 0x100) + a % 0x100;
    assert a == r + 0x100_0000 * (q2 / 0x100);
  }

  function ReadFrame(a: U32): Frame
  {
    [CMD_FLASH_READ] + AddressBytes(a)
  }

  function ProgramFrame(a: U32, data: seq<Byte>): Frame
  {
    [CMD_FLASH_BYTE_PROG] + AddressBytes(a) + data
  }

  /** `[0x20, A >> 16 & 0xff, A >> 8 & 0xf0, 0x00]` */
  function SectorEraseFrame(a: U32): Frame
  {
    [CMD_FLASH_SECTOR_ERASE, (a / 0x1_0000) % 0x100, ((a / 0x100) % 0x100) / 0x10 * 0x10, 0]
  }

  lemma ReadFrameLayout(a: U32)
    ensures |ReadFrame(a)| == 4 && ReadFrame(a)[0] == CMD_FLASH_READ
    ensures FrameAddress(ReadFrame(a)) == a % 0x100_0000
  {
    AddressBytesValue(a);
  }

  /** The page-program frame is four header bytes followed by the data, `len + 4` bytes in all. */
  lemma ProgramFrameLayout(a: U32, data: seq<Byte>)
    ensures |ProgramFrame(a, data)| == |data| + 4 && ProgramFrame(a, data)[0] == CMD_FLASH_BYTE_PROG
    ensures FrameAddress(ProgramFrame(a, data)) == a % 0x100_0000
    ensures ProgramFrame(a, data)[4..] == data
  {
    AddressBytesValue(a);
  }

  /** The sector-erase frame addresses the 4096-byte sector that holds A (A mod 2^24 rounded down). */
  lemma SectorEraseFrameLayout(a: U32)
    ensures |SectorEraseFrame(a)| == 4 && SectorEraseFrame(a)[0] == CMD_FLASH_SECTOR_ERASE
    ensures FrameAddress(SectorEraseFrame(a)) == a % 0x100_0000 - a % SECTOR_SIZE
    ensures FrameAddress(SectorEraseFrame(a)) % SECTOR_SIZE == 0
  {
    AddressBytesValue(a);
    var r0, q1 := a % 0x100, a / 0x100;
    var b1, q2 := q1 % 0x100, q1 / 0x100;
    var lo, hi := b1 % 0x10, b1 / 0x10;
    assert a == r0 + 0x100 * q1;
    assert q1 == b1 + 0x100 * q2;
    assert q2 == a / 0x1_0000;
    assert b1 == lo + 0x10 * hi;
    Split(a, r0 + 0x100 * lo, hi + 0x10 * q2);
    assert FrameAddress(SectorEraseFrame(a)) == 0x1_0000 * (q2 % 0x100) + 0x1000 * hi;
  }

  /** x mod 4096 from a decomposition x = r + 4096 q. */
  lemma Split(x: nat, r: nat, q: nat)
    requires x == r + SECTOR_SIZE * q && r < SECTOR_SIZE
    ensures x % SECTOR_SIZE == r
  {
  }

  /*** Flash_Wait: bounded busy poll of status bit 0 ***/

  /** Status bit 0 (BUSY/WIP) is set. */
  predicate Busy(status: Byte) { status % 2 == 1 }

  /** The reply to the i-th read-status transfer; polls beyond the script fail. */
  function PollAt(polls: seq<Option<Byte>>, i: nat): Option<Byte>
  {
    if i < |polls| then polls[i] else None
  }

  /** `ready`: the last status read has bit 0 clear; `polls`: how many transfers were issued. */
  datatype WaitResult = WaitResult(ready: bool, polls: nat)

  /** The do-while of Flash_Wait, from poll i on with `retry` retries left. */
  function Wait(retry: nat, polls: seq<Option<Byte>>, i: nat): WaitResult
    decreases retry
  {
    match PollAt(polls, i)
    case None => WaitResult(false, i + 1)
    case Some(s) =>
      if !Busy(s) then WaitResult(true, i + 1)
      else if retry == 0 then WaitResult(false, i + 1)
      else Wait(retry - 1, polls, i + 1)
  }

  /**
   * Flash_Wait(r) issues between 1 and r + 1 polls. Every poll before the last
   * returned a busy status; it is ready exactly when the last poll returned a
   * status with bit 0 clear; otherwise the last poll failed, or all r + 1 polls
   * were busy.
   */
  lemma {:induction false} WaitOutcome(retry: nat, polls: seq<Option<Byte>>, i: nat)
    ensures var r := Wait(retry, polls, i);
      && i < r.polls <= i + retry + 1
      && (forall j :: i <= j < r.polls - 1 ==> PollAt(polls, j).Some? && Busy(PollAt(polls, j).value))
      && (r.ready <==> PollAt(polls, r.polls - 1).Some? && !Busy(PollAt(polls, r.polls - 1).value))
      && (!r.ready ==> PollAt(polls, r.polls - 1).None? || r.polls == i + retry + 1)
    decreases retry
  {
    match PollAt(polls, i)
    case None =>
    case Some(s) =>
      if Busy(s) && retry > 0 {
        WaitOutcome(retry - 1, polls, i + 1);
      }
  }

  /**
   * The frames of the status polls of Flash_Wait(retries): one two-byte
   * CMD_FLASH_RDSR frame per poll, and from the second poll on its second
   * byte is the status the previous poll read back.
   */
  predicate PollFrames(frames: seq<Frame>, retries: nat, polls: seq<Option<Byte>>)
  {
    && |frames| == Wait(retries, polls, 0).polls
    && (forall k :: 0 <= k < |frames| ==> |frames[k]| == 2 && frames[k][0] == CMD_FLASH_RDSR)
    && (forall k :: 0 <= k < |frames| - 1 ==> PollAt(polls, k).Some? && frames[k + 1][1] == PollAt(polls, k).value)
  }

  /**
   * The do-while of Flash_Wait over the two-byte `ioBuffer`. Every poll sends
   * CMD_FLASH_RDSR followed by whatever `ioBuffer[1]` holds: an unspecified
   * byte the first time, then the status the previous poll read back. `sent`
   * lists the poll frames in order.
   */
  method FlashWait(retryTimes: nat, polls: seq<Option<Byte>>) returns (ready: bool, sent: seq<Frame>)
    ensures ready == Wait(retryTimes, polls, 0).ready
    ensures PollFrames(sent, retryTimes, polls)
  {
    var retry := retryTimes;
    var i := 0;
    var status: Byte := 0;
    var ioBuffer := new Byte[2];
    sent := [];
    while true
      invariant i + retry == retryTimes && |sent| == i
      invariant Wait(retryTimes, polls, 0) == Wait(retry, polls, i)
      invariant forall k :: 0 <= k < i ==> |sent[k]| == 2 && sent[k][0] == CMD_FLASH_RDSR
      invariant forall k :: 0 <= k < i - 1 ==> PollAt(polls, k).Some? && sent[k + 1][1] == PollAt(polls, k).value
      invariant i > 0 ==> PollAt(polls, i - 1).Some? && ioBuffer[1] == PollAt(polls, i - 1).value
      decreases retry
    {
      ioBuffer[0] := CMD_FLASH_RDSR;
      var frame := ioBuffer[..];
      assert |frame| == 2 && frame[0] == CMD_FLASH_RDSR && frame[1] == ioBuffer[1];
      sent := sent + [frame];
      assert i > 0 ==> PollAt(polls, i - 1).Some? && sent[i][1] == PollAt(polls, i - 1).value;
      var reply := PollAt(polls, i);   // CH347SPI_WriteRead of the two bytes
      if reply.None? {
        return false, sent;
      }
      ioBuffer[1] := reply.value;
      status := ioBuffer[1];
      i := i + 1;
      if !Busy(status) || retry == 0 {
        break;
      }
      retry := retry - 1;
    }
    ready := !Busy(status);
  }

  /*** Write-enable, command, wait ***/

  /**
   * The library outcomes of one write-enable / command / wait sequence: the
   * write-enable transfer, the command transfer and the status polls.
   */
  datatype CommandOutcome = CommandOutcome(enableOk: bool, commandOk: bool, polls: seq<Option<Byte>>)

  /** The sequence succeeds when both transfers succeed and the wait sees the chip ready. */
  predicate CommandOk(o: CommandOutcome, retries: nat)
  {
    o.enableOk && o.commandOk && Wait(retries, o.polls, 0).ready
  }

  /** The frames sent: the one-byte write-enable, then the command only if the write-enable succeeded. */
  function CommandFrames(o: CommandOutcome, command: Frame): seq<Frame>
  {
    [WRITE_ENABLE_FRAME] + if o.enableOk then [command] else []
  }

  /**
   * All frames of one write-enable / command / wait sequence: the command
   * frames, followed by the status polls of the wait when both transfers
   * succeeded.
   */
  predicate CommandSent(sent: seq<Frame>, o: CommandOutcome, command: Frame, retries: nat)
  {
    var head := CommandFrames(o, command);
    && |head| <= |sent|
    && sent[..|head|] == head
    && if o.enableOk && o.commandOk then PollFrames(sent[|head|..], retries, o.polls) else |sent| == |head|
  }

  /** W25X_Flash_Write_Page: the page-program frame is built in the local 8192-byte buffer. */
  method W25xFlashWritePage(data: seq<Byte>, address: U32, o: CommandOutcome) returns (ok: bool, sent: seq<Frame>)
    requires |data| + 4 <= PAGE_BUFFER_SIZE
    ensures ok == CommandOk(o, PAGE_WAIT_RETRIES)
    ensures CommandSent(sent, o, ProgramFrame(address, data), PAGE_WAIT_RETRIES)
  {
    sent := [WRITE_ENABLE_FRAME];
    if !o.enableOk {
      return false, sent;
    }
    var ioBuffer := new Byte[PAGE_BUFFER_SIZE];
    ioBuffer[0] := CMD_FLASH_BYTE_PROG;
    ioBuffer[1] := (address / 0x1_0000) % 0x100;
    ioBuffer[2] := (address / 0x100) % 0x100;
    ioBuffer[3] := address % 0x100;
    forall k | 0 <= k < |data| {
      ioBuffer[4 + k] := data[k];
    }
    assert ioBuffer[..|data| + 4] == ProgramFrame(address, data);
    sent := sent + [ioBuffer[..|data| + 4]];
    if !o.commandOk {
      return false, sent;
    }
    var pollFrames;
    ok, pollFrames := FlashWait(PAGE_WAIT_RETRIES, o.polls);
    sent := sent + pollFrames;
  }

  method FlashSectorErase(startAddr: U32, o: CommandOutcome) returns (ok: bool, sent: seq<Frame>)
    ensures ok == CommandOk(o, SECTOR_WAIT_RETRIES)
    ensures CommandSent(sent, o, SectorEraseFrame(startAddr), SECTOR_WAIT_RETRIES)
  {
    sent := [WRITE_ENABLE_FRAME];
    if !o.enableOk {
      return false, sent;
    }
    var ioBuffer := new Byte[4];
    ioBuffer[0] := CMD_FLASH_SECTOR_ERASE;
    ioBuffer[1] := (startAddr / 0x1_0000) % 0x100;
    ioBuffer[2] := ((startAddr / 0x100) % 0x100) / 0x10 * 0x10;
    ioBuffer[3] := 0x00;
    assert ioBuffer[..] == SectorEraseFrame(startAddr);
    sent := sent + [ioBuffer[..]];
    if !o.commandOk {
      return false, sent;
    }
    var pollFrames;
    ok, pollFrames := FlashWait(SECTOR_WAIT_RETRIES, o.polls);
    sent := sent + pollFrames;
  }

  method FlashChipErase(o: CommandOutcome) returns (ok: bool, sent: seq<Frame>)
    ensures ok == CommandOk(o, CHIP_WAIT_RETRIES)
    ensures CommandSent(sent, o, CHIP_ERASE_FRAME, CHIP_WAIT_RETRIES)
  {
    sent := [WRITE_ENABLE_FRAME];
    if !o.enableOk {
      return false, sent;
    }
    var ioBuffer := new Byte[1];
    ioBuffer[0] := CMD_FLASH_CHIP_ERASE;
    assert ioBuffer[..] == CHIP_ERASE_FRAME;
    sent := sent + [ioBuffer[..]];
    if !o.commandOk {
      return false, sent;
    }
    var pollFrames;
    ok, pollFrames := FlashWait(CHIP_WAIT_RETRIES, o.polls);
    sent := sent + pollFrames;
  }

  /*** Flash_ID_Read ***/

  /**
   * Flash_ID_Read: the JEDEC ID frame goes out in `ioBuffer`; the transfer
   * reads `reply` back into it; byte 0 is zeroed and the buffer is read as a
   * little-endian word, `b1<<8 | b2<<16 | b3<<24`. The read succeeds when the
   * transfer succeeded and the ID is neither 0 nor 0xffffff00, that is unless
   * the three ID bytes are all 0x00 or all 0xFF (no chip answering, or a
   * floating MISO line).
   */
  method FlashIdRead(transferOk: bool, reply: seq<Byte>) returns (ok: bool, sent: Frame, flashId: U32)
    requires |reply| == 4
    ensures sent == JEDEC_ID_FRAME
    ensures transferOk ==> flashId == 0x100 * (reply[1] as int) + 0x1_0000 * (reply[2] as int) + 0x100_0000 * (reply[3] as int)
    ensures ok <==> transferOk && reply[1..] != [0, 0, 0] && reply[1..] != [0xFF, 0xFF, 0xFF]
  {
    var ioBuffer := new Byte[4];
    ioBuffer[0] := CMD_FLASH_JEDEC_ID;
    forall k | 1 <= k < 4 {
      ioBuffer[k] := 0xFF;
    }
    sent := ioBuffer[..];
    if !transferOk {
      return false, sent, 0;
    }
    forall k | 0 <= k < 4 {
      ioBuffer[k] := reply[k];
    }
    ioBuffer[0] := 0x00;
    var word := ioBuffer[..];
    assert word == [0, reply[1], reply[2], reply[3]];
    flashId := Le32(word);
    Le32Injective(word, Le32Bytes(0));
    Le32Injective(word, Le32Bytes(0xffff_ff00));
    assert reply[1..] == [reply[1], reply[2], reply[3]];
    ok := flashId != 0 && flashId != 0xffff_ff00;
  }

  /*** Flash_Block_Read ***/

  /**
   * Flash_Block_Read writes the read command into the first four bytes of the
   * caller's buffer; the library sends them and, on success, stores the bytes it
   * read (`reply`) at the start of the same buffer and their count in `len`.
   */
  method FlashBlockRead(address: U32, pbuf: array<Byte>, readOk: bool, reply: seq<Byte>)
    returns (len: U32, sent: Frame)
    requires 4 <= pbuf.Length && |reply| <= pbuf.Length && |reply| < 0x1_0000_0000
    modifies pbuf
    ensures sent == ReadFrame(address)
    ensures len == if readOk then |reply| else 0
    ensures pbuf[..] == if readOk then Overlay(Overlay(old(pbuf[..]), sent), reply)
                        else Overlay(old(pbuf[..]), sent)
  {
    pbuf[0] := CMD_FLASH_READ;
    pbuf[1] := (address / 0x1_0000) % 0x100;
    pbuf[2] := (address / 0x100) % 0x100;
    pbuf[3] := address % 0x100;
    sent := pbuf[..4];
    if !readOk {
      return 0, sent;
    }
    forall k | 0 <= k < |reply| {
      pbuf[k] := reply[k];
    }
    len := |reply|;
  }

  /*** Flash_Block_Write: the page split ***/

  /** One call of W25X_Flash_Write_Page. */
  datatype PageWrite = PageWrite(address: U32, data: seq<Byte>)

  predicate PageWriteOk(o: CommandOutcome) { CommandOk(o, PAGE_WAIT_RETRIES) }

  /** How many page writes a buffer of `len` bytes needs: the full pages and one short page for the rest. */
  function PageCalls(len: nat): nat
  {
    len / PAGE_SIZE + if len % PAGE_SIZE == 0 then 0 else 1
  }

  /** The number of leading full pages, among the first n, whose write succeeded. */
  function Written(n: nat, outcomes: seq<CommandOutcome>): (w: nat)
    requires n <= |outcomes|
    ensures w <= n
    ensures forall j :: 0 <= j < w ==> PageWriteOk(outcomes[j])
    ensures w < n ==> !PageWriteOk(outcomes[w])
  {
    if n == 0 then 0
    else
      var w' := Written(n - 1, outcomes);
      if w' == n - 1 && PageWriteOk(outcomes[n - 1]) then n else w'
  }

  /** Full page j: 256 bytes from offset 256j, programmed at address + 256j. */
  function FullPage(address: U32, data: seq<Byte>, j: nat): PageWrite
    requires j < |data| / PAGE_SIZE
  {
    PageWrite(Wrap32(address + PAGE_SIZE * j), data[PAGE_SIZE * j .. PAGE_SIZE * j + PAGE_SIZE])
  }

  /** The last `len % 256` bytes, programmed after the full pages. */
  function TailPage(address: U32, data: seq<Byte>): PageWrite
  {
    var n := |data| / PAGE_SIZE;
    PageWrite(Wrap32(address + PAGE_SIZE * n), data[PAGE_SIZE * n..])
  }

  /** The first k full pages, in order. */
  function FullPages(address: U32, data: seq<Byte>, k: nat): (pages: seq<PageWrite>)
    requires k <= |data| / PAGE_SIZE
    ensures |pages| == k
    ensures forall j :: 0 <= j < k ==> pages[j] == FullPage(address, data, j)
  {
    if k == 0 then [] else FullPages(address, data, k - 1) + [FullPage(address, data, k - 1)]
  }

  /** The page writes issued: full pages up to and including the first failing one, then the tail if all full pages succeeded. */
  function Issued(address: U32, data: seq<Byte>, outcomes: seq<CommandOutcome>): seq<PageWrite>
    requires PageCalls(|data|) <= |outcomes|
  {
    var n := |data| / PAGE_SIZE;
    var w := Written(n, outcomes);
    var full := if w < n then w + 1 else n;
    FullPages(address, data, full)
    + if w == n && |data| % PAGE_SIZE != 0 then [TailPage(address, data)] else []
  }

  /** Every page write, full pages and the tail, succeeded. */
  predicate AllWritten(data: seq<Byte>, outcomes: seq<CommandOutcome>)
    requires PageCalls(|data|) <= |outcomes|
  {
    var n := |data| / PAGE_SIZE;
    Written(n, outcomes) == n && (|data| % PAGE_SIZE == 0 || PageWriteOk(outcomes[n]))
  }

  /**
   * What Flash_Block_Write returns: `false` (0) for a start that is not page
   * aligned, otherwise FlashAddr, which has advanced past the full pages that
   * were written but never past the tail.
   */
  function BlockWriteReturn(address: U32, data: seq<Byte>, outcomes: seq<CommandOutcome>): U32
    requires PageCalls(|data|) <= |outcomes|
  {
    if address % PAGE_SIZE != 0 then 0
    else Wrap32(address + PAGE_SIZE * Written(|data| / PAGE_SIZE, outcomes))
  }

  /** The paging loop shared by Flash_Block_Write and Flash_Block_Write_Test. */
  method WritePages(address: U32, data: seq<Byte>, outcomes: seq<CommandOutcome>)
    returns (flashAddr: U32, allOk: bool, calls: seq<PageWrite>)
    requires |data| < 0x1_0000_0000
    requires PageCalls(|data|) <= |outcomes|
    ensures flashAddr == Wrap32(address + PAGE_SIZE * Written(|data| / PAGE_SIZE, outcomes))
    ensures allOk == AllWritten(data, outcomes)
    ensures calls == Issued(address, data, outcomes)
  {
    var numOfPage: nat := |data| / PAGE_SIZE;
    var numOfSingle := |data| % PAGE_SIZE;
    ghost var n := numOfPage;
    flashAddr := address;
    var pbuf := 0;
    var k := 0;
    calls := [];
    while numOfPage > 0
      invariant n == |data| / PAGE_SIZE && n <= |outcomes|
      invariant k + numOfPage == n
      invariant pbuf == PAGE_SIZE * k
      invariant flashAddr == Wrap32(address + PAGE_SIZE * k)
      invariant forall j :: 0 <= j < k ==> PageWriteOk(outcomes[j])
      invariant calls == FullPages(address, data, k)
    {
      var page := data[pbuf..pbuf + PAGE_SIZE];
      assert PageWrite(flashAddr, page) == FullPage(address, data, k);
      calls := calls + [PageWrite(flashAddr, page)];
      var ok, frames := W25xFlashWritePage(page, flashAddr, outcomes[k]);
      if !ok {
        IssuedStop(address, data, outcomes, k);
        return flashAddr, false, calls;
      }
      pbuf := pbuf + PAGE_SIZE;
      WrapStep(address + PAGE_SIZE * k, PAGE_SIZE);
      flashAddr := Wrap32(flashAddr + PAGE_SIZE);
      numOfPage := numOfPage - 1;
      k := k + 1;
    }
    assert k == n;
    IssuedFull(address, data, outcomes);
    allOk := true;
    if numOfSingle != 0 {
      var tail := data[pbuf..];
      assert PageWrite(flashAddr, tail) == TailPage(address, data);
      calls := calls + [PageWrite(flashAddr, tail)];
      var tailFrames;
      allOk, tailFrames := W25xFlashWritePage(tail, flashAddr, outcomes[k]);
    }
  }

  /** The writes stop at full page k when it is the first to fail. */
  lemma IssuedStop(address: U32, data: seq<Byte>, outcomes: seq<CommandOutcome>, k: nat)
    requires PageCalls(|data|) <= |outcomes| && k < |data| / PAGE_SIZE
    requires forall j :: 0 <= j < k ==> PageWriteOk(outcomes[j])
    requires !PageWriteOk(outcomes[k])
    ensures Written(|data| / PAGE_SIZE, outcomes) == k
    ensures Issued(address, data, outcomes) == FullPages(address, data, k + 1)
    ensures !AllWritten(data, outcomes)
  {
  }

  /** When every full page is written, the tail follows if there is one. */
  lemma IssuedFull(address: U32, data: seq<Byte>, outcomes: seq<CommandOutcome>)
    requires PageCalls(|data|) <= |outcomes|
    requires forall j :: 0 <= j < |data| / PAGE_SIZE ==> PageWriteOk(outcomes[j])
    ensures Written(|data| / PAGE_SIZE, outcomes) == |data| / PAGE_SIZE
    ensures Issued(address, data, outcomes) == FullPages(address, data, |data| / PAGE_SIZE)
      + if |data| % PAGE_SIZE != 0 then [TailPage(address, data)] else []
    ensures AllWritten(data, outcomes) <==> |data| % PAGE_SIZE == 0 || PageWriteOk(outcomes[|data| / PAGE_SIZE])
  {
  }

  lemma WrapStep(x: nat, c: nat)
    ensures Wrap32(Wrap32(x) + c) == Wrap32(x + c)
  {
    var m := 0x1_0000_0000;
    assert x == x % m + m * (x / m);
  }

  method FlashBlockWrite(address: U32, data: seq<Byte>, outcomes: seq<CommandOutcome>)
    returns (ret: U32, calls: seq<PageWrite>)
    requires |data| < 0x1_0000_0000
    requires PageCalls(|data|) <= |outcomes|
    ensures ret == BlockWriteReturn(address, data, outcomes)
    ensures calls == if address % PAGE_SIZE != 0 then [] else Issued(address, data, outcomes)
  {
    if address % PAGE_SIZE != 0 {
      return 0, [];
    }
    var allOk;
    ret, allOk, calls := WritePages(address, data, outcomes);
  }

  /** The bytes a sequence of page writes programs, in order. */
  function Programmed(calls: seq<PageWrite>): seq<Byte>
  {
    if calls == [] then [] else calls[0].data + Programmed(calls[1..])
  }

  lemma {:induction false} ProgrammedAppend(calls: seq<PageWrite>, c: PageWrite)
    ensures Programmed(calls + [c]) == Programmed(calls) + c.data
  {
    if calls != [] {
      assert (calls + [c])[1..] == calls[1..] + [c];
      ProgrammedAppend(calls[1..], c);
    }
  }

  lemma {:induction false} ProgrammedFullPages(address: U32, data: seq<Byte>, k: nat)
    requires k <= |data| / PAGE_SIZE
    ensures Programmed(FullPages(address, data, k)) == data[..PAGE_SIZE * k]
  {
    if k > 0 {
      var s' := FullPages(address, data, k - 1);
      ProgrammedFullPages(address, data, k - 1);
      ProgrammedAppend(s', FullPage(address, data, k - 1));
      assert data[..PAGE_SIZE * k] == data[..PAGE_SIZE * (k - 1)] + data[PAGE_SIZE * (k - 1)..PAGE_SIZE * k];
    }
  }

  /**
   * The page split: the issued writes go to address, address + 256, ... in
   * order; every write but a final tail carries 256 bytes; at most
   * PageCalls(len) writes are issued.
   */
  lemma IssuedPageSplit(address: U32, data: seq<Byte>, outcomes: seq<CommandOutcome>)
    requires PageCalls(|data|) <= |outcomes|
    ensures |Issued(address, data, outcomes)| <= PageCalls(|data|)
    ensures forall j :: 0 <= j < |Issued(address, data, outcomes)| ==>
      Issued(address, data, outcomes)[j].address == Wrap32(address + PAGE_SIZE * j)
    ensures forall j :: 0 <= j < |Issued(address, data, outcomes)| && j < |data| / PAGE_SIZE ==>
      |Issued(address, data, outcomes)[j].data| == PAGE_SIZE
  {
    var n := |data| / PAGE_SIZE;
    var w := Written(n, outcomes);
    var full := if w < n then w + 1 else n;
    var s := FullPages(address, data, full);
    var calls := Issued(address, data, outcomes);
    forall j | 0 <= j < |calls|
      ensures calls[j].address == Wrap32(address + PAGE_SIZE * j)
      ensures j < n ==> |calls[j].data| == PAGE_SIZE
    {
      if j < full {
        assert calls[j] == s[j] == FullPage(address, data, j);
      } else {
        assert calls[j] == TailPage(address, data);
      }
    }
  }

  /**
   * What the issued writes program is a prefix of the buffer, and the whole
   * buffer when every write succeeded.
   */
  lemma IssuedProgramsPrefix(address: U32, data: seq<Byte>, outcomes: seq<CommandOutcome>)
    requires PageCalls(|data|) <= |outcomes|
    ensures exists m :: 0 <= m <= |data| && Programmed(Issued(address, data, outcomes)) == data[..m]
    ensures AllWritten(data, outcomes) ==> Programmed(Issued(address, data, outcomes)) == data
  {
    var n := |data| / PAGE_SIZE;
    var w := Written(n, outcomes);
    var full := if w < n then w + 1 else n;
    var s := FullPages(address, data, full);
    ProgrammedFullPages(address, data, full);
    if w == n && |data| % PAGE_SIZE != 0 {
      ProgrammedAppend(s, TailPage(address, data));
      assert data[..PAGE_SIZE * n] + data[PAGE_SIZE * n..] == data;
      assert Programmed(Issued(address, data, outcomes)) == data[..|data|];
    } else {
      assert Issued(address, data, outcomes) == s;
    }
  }

  /**
   * The writes stop at the first failure: when not every write succeeded, every
   * issued write but the last succeeded and the last one failed.
   */
  lemma IssuedStopsAtFailure(address: U32, data: seq<Byte>, outcomes: seq<CommandOutcome>)
    requires PageCalls(|data|) <= |outcomes|
    ensures var calls := Issued(address, data, outcomes);
      && (forall j :: 0 <= j < |calls| - 1 ==> PageWriteOk(outcomes[j]))
      && (!AllWritten(data, outcomes) <==> |calls| > 0 && !PageWriteOk(outcomes[|calls| - 1]))
  {
  }

  /** Flash_Block_Write's return value does not depend on the outcome of the tail write. */
  lemma BlockWriteReturnIgnoresTail(address: U32, data: seq<Byte>, outcomes: seq<CommandOutcome>, other: seq<CommandOutcome>)
    requires PageCalls(|data|) <= |outcomes| && PageCalls(|data|) <= |other|
    requires outcomes[..|data| / PAGE_SIZE] == other[..|data| / PAGE_SIZE]
    ensures BlockWriteReturn(address, data, outcomes) == BlockWriteReturn(address, data, other)
  {
    SameWritten(|data| / PAGE_SIZE, outcomes, other);
  }

  /**
   * From an aligned start, a fully successful Flash_Block_Write returns
   * address + 256 * (len / 256); when len is not a multiple of 256 that is never
   * the end of the data, whatever the outcomes.
   */
  lemma BlockWriteReturnStopsBeforeTail(address: U32, data: seq<Byte>, outcomes: seq<CommandOutcome>)
    requires address % PAGE_SIZE == 0
    requires |data| < 0x1_0000_0000 && PageCalls(|data|) <= |outcomes|
    ensures AllWritten(data, outcomes) ==> BlockWriteReturn(address, data, outcomes) == Wrap32(address + PAGE_SIZE * (|data| / PAGE_SIZE))
    ensures |data| % PAGE_SIZE != 0 ==> BlockWriteReturn(address, data, outcomes) != Wrap32(address + |data|)
  {
    var w := Written(|data| / PAGE_SIZE, outcomes);
    if |data| % PAGE_SIZE != 0 {
      assert PAGE_SIZE * w < |data|;
      WrapDistinct(address + PAGE_SIZE * w, address + |data|);
    }
  }

  /** Two values less than 2^32 apart stay distinct after wrapping. */
  lemma WrapDistinct(x: nat, y: nat)
    requires x < y < x + 0x1_0000_0000
    ensures Wrap32(x) != Wrap32(y)
  {
    var m := 0x1_0000_0000;
    assert x == x % m + m * (x / m);
    assert y == y % m + m * (y / m);
  }

  lemma {:induction false} SameWritten(n: nat, outcomes: seq<CommandOutcome>, other: seq<CommandOutcome>)
    requires n <= |outcomes| && n <= |other| && outcomes[..n] == other[..n]
    ensures Written(n, outcomes) == Written(n, other)
  {
    if n > 0 {
      assert outcomes[..n - 1] == other[..n - 1];
      assert outcomes[n - 1] == outcomes[..n][n - 1];
      SameWritten(n - 1, outcomes, other);
    }
  }

  /*** Flash_Block_Write_Test ***/

  /** Flash_Block_Write_Test length: 0x500 bytes, five full pages. */
  const BLOCK_TEST_LEN: nat := 0x500

  /**
   * Fills a 0x500-byte buffer with the counting pattern and writes it from
   * address 0 without the alignment check; true when every page write succeeded.
   * Every page carries the bytes 0, 1, ..., 255.
   */
  method FlashBlockWriteTest(outcomes: seq<CommandOutcome>) returns (ok: bool, calls: seq<PageWrite>)
    requires PageCalls(BLOCK_TEST_LEN) <= |outcomes|
    ensures ok <==> forall j :: 0 <= j < 5 ==> PageWriteOk(outcomes[j])
    ensures calls == Issued(0, CountingBytes(BLOCK_TEST_LEN), outcomes)
    ensures forall j :: 0 <= j < |calls| ==> calls[j].address == PAGE_SIZE * j && calls[j].data == CountingBytes(PAGE_SIZE)
  {
    var ioBuffer := new Byte[BLOCK_TEST_LEN];
    FillCounting(ioBuffer);
    var data := ioBuffer[..];
    var flashAddr;
    flashAddr, ok, calls := WritePages(0, data, outcomes);
    forall j | 0 <= j < |calls|
      ensures calls[j].address == PAGE_SIZE * j && calls[j].data == CountingBytes(PAGE_SIZE)
    {
      assert calls[j] == FullPage(0, data, j);
      CountingAligned(BLOCK_TEST_LEN, PAGE_SIZE * j, PAGE_SIZE);
    }
  }

  /*** Flash_File_Write / Flash_File_Read ***/

  /**
   * `ret != filesize` where `int ret` holds a 32-bit count and `filesize` is an
   * `unsigned long long`: ret is stored as a two's-complement int, then
   * sign-extended to 64 bits for the comparison.
   */
  predicate SameAsFileSize(ret: U32, filesize: U32)
  {
    var asInt := if ret < 0x8000_0000 then ret else ret - 0x1_0000_0000;
    var widened := if asInt >= 0 then asInt else asInt + 0x1_0000_0000_0000_0000;
    widened == filesize
  }

  /** The comparison succeeds exactly for equal counts below 2^31. */
  lemma SameAsFileSizeMeans(ret: U32, filesize: U32)
    ensures SameAsFileSize(ret, filesize) <==> ret == filesize && ret < 0x8000_0000
  {
  }

  /**
   * Flash_File_Write: open the file, erase the chip, read `filesize` bytes of
   * the file (`fileBytes` is what fread delivered), write them from address 0,
   * and report success only if Flash_Block_Write returned filesize.
   */
  predicate FileWrite(isOpen: bool, filesize: U32, erase: CommandOutcome, fileBytes: seq<Byte>, outcomes: seq<CommandOutcome>)
    requires |fileBytes| <= filesize && PageCalls(|fileBytes|) <= |outcomes|
  {
    isOpen && CommandOk(erase, CHIP_WAIT_RETRIES) && SameAsFileSize(|fileBytes|, filesize)
    && SameAsFileSize(BlockWriteReturn(0, fileBytes, outcomes), filesize)
  }

  /** A reported success means the size is a multiple of 256 below 2^31 and every page was written. */
  lemma FileWriteNeedsWholePages(isOpen: bool, filesize: U32, erase: CommandOutcome, fileBytes: seq<Byte>, outcomes: seq<CommandOutcome>)
    requires |fileBytes| <= filesize && PageCalls(|fileBytes|) <= |outcomes|
    requires FileWrite(isOpen, filesize, erase, fileBytes, outcomes)
    ensures filesize % PAGE_SIZE == 0 && filesize < 0x8000_0000
    ensures |fileBytes| == filesize && AllWritten(fileBytes, outcomes)
  {
    var n := |fileBytes| / PAGE_SIZE;
    var w := Written(n, outcomes);
    assert PAGE_SIZE * w <= |fileBytes|;
    assert BlockWriteReturn(0, fileBytes, outcomes) == PAGE_SIZE * w;
  }

  /** As written: a file whose size is not a multiple of 256 is reported as failed even when every step succeeded. */
  lemma FileWriteRejectsPartialPage(isOpen: bool, filesize: U32, erase: CommandOutcome, fileBytes: seq<Byte>, outcomes: seq<CommandOutcome>)
    requires |fileBytes| <= filesize && PageCalls(|fileBytes|) <= |outcomes|
    requires filesize % PAGE_SIZE != 0
    ensures !FileWrite(isOpen, filesize, erase, fileBytes, outcomes)
  {
    if FileWrite(isOpen, filesize, erase, fileBytes, outcomes) {
      FileWriteNeedsWholePages(isOpen, filesize, erase, fileBytes, outcomes);
    }
  }

  /** Flash_Block_Write as evidently intended: on full success FlashAddr also advances past the tail. */
  function BlockWriteReturnIntended(address: U32, data: seq<Byte>, outcomes: seq<CommandOutcome>): U32
    requires PageCalls(|data|) <= |outcomes|
  {
    if address % PAGE_SIZE != 0 then 0
    else if AllWritten(data, outcomes) then Wrap32(address + |data|)
    else BlockWriteReturn(address, data, outcomes)
  }

  predicate FileWriteIntended(isOpen: bool, filesize: U32, erase: CommandOutcome, fileBytes: seq<Byte>, outcomes: seq<CommandOutcome>)
    requires |fileBytes| <= filesize && PageCalls(|fileBytes|) <= |outcomes|
  {
    isOpen && CommandOk(erase, CHIP_WAIT_RETRIES) && SameAsFileSize(|fileBytes|, filesize)
    && SameAsFileSize(BlockWriteReturnIntended(0, fileBytes, outcomes), filesize)
  }

  /** With the intended return value, a file write reports success exactly when every step and every page write succeeded. */
  lemma FileWriteIntendedMeans(isOpen: bool, filesize: U32, erase: CommandOutcome, fileBytes: seq<Byte>, outcomes: seq<CommandOutcome>)
    requires |fileBytes| <= filesize && PageCalls(|fileBytes|) <= |outcomes|
    ensures FileWriteIntended(isOpen, filesize, erase, fileBytes, outcomes)
        <==> isOpen && CommandOk(erase, CHIP_WAIT_RETRIES) && |fileBytes| == filesize
             && filesize < 0x8000_0000 && AllWritten(fileBytes, outcomes)
  {
    var n := |fileBytes| / PAGE_SIZE;
    var w := Written(n, outcomes);
    assert PAGE_SIZE * w <= |fileBytes|;
    if !AllWritten(fileBytes, outcomes) && w == n {
      assert |fileBytes| % PAGE_SIZE != 0;
    }
  }

  /**
   * Flash_File_Read: open the file, read `filesize` bytes of it (`fileBytes`),
   * read `filesize` bytes of flash from address 0 (`flashBytes` is the buffer
   * afterwards, `readLen` the count the library reported), and report success
   * only if both reads were complete and the buffers compare equal.
   */
  predicate FileRead(isOpen: bool, filesize: U32, fileBytes: seq<Byte>, readOk: bool, readLen: U32, flashBytes: seq<Byte>)
    requires |fileBytes| <= filesize && |flashBytes| == filesize
  {
    var blockRead := if readOk then readLen else 0;
    isOpen && SameAsFileSize(|fileBytes|, filesize) && SameAsFileSize(blockRead, filesize) && flashBytes == fileBytes
  }

  /** Flash_File_Read reports success exactly when every step was complete and flash and file agree over filesize bytes. */
  lemma FileReadMeans(isOpen: bool, filesize: U32, fileBytes: seq<Byte>, readOk: bool, readLen: U32, flashBytes: seq<Byte>)
    requires |fileBytes| <= filesize && |flashBytes| == filesize
    ensures FileRead(isOpen, filesize, fileBytes, readOk, readLen, flashBytes)
        <==> isOpen && |fileBytes| == filesize && filesize < 0x8000_0000
             && (if readOk then readLen == filesize else filesize == 0)
             && (forall i :: 0 <= i < filesize ==> flashBytes[i] == fileBytes[i])
  {
  }

  /**
   * Flash_File_Read compares the buffer left by Flash_Block_Read from address
   * 0 (`before` is its uninitialised content). When the library reports
   * success and returns `reply` for the whole buffer, the compared bytes are
   * exactly `reply`, and the file read succeeds exactly when `reply` is the
   * file; when the library fails, the file read fails.
   */
  lemma FileReadOfBlockRead(isOpen: bool, filesize: U32, fileBytes: seq<Byte>, before: seq<Byte>, readOk: bool, reply: seq<Byte>)
    requires |fileBytes| <= filesize && 4 <= |before| == filesize && |reply| == filesize
    ensures var flashBytes := if readOk then Overlay(Overlay(before, ReadFrame(0)), reply) else Overlay(before, ReadFrame(0));
      && (readOk ==> flashBytes == reply)
      && (FileRead(isOpen, filesize, fileBytes, readOk, |reply|, flashBytes)
          <==> isOpen && readOk && |fileBytes| == filesize && filesize < 0x8000_0000 && reply == fileBytes)
  {
    var flashBytes := if readOk then Overlay(Overlay(before, ReadFrame(0)), reply) else Overlay(before, ReadFrame(0));
    if readOk {
      assert flashBytes == flashBytes[..|reply|];
    }
    FileReadMeans(isOpen, filesize, fileBytes, readOk, |reply|, flashBytes);
  }
}
