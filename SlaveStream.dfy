/**
 * The CH346 slave-mode stream demos: a reader that pulls 1 MiB reads from the
 * slave FIFO and checks them packet by packet, and a writer that sends 8192-byte
 * chunks of a 1 MiB pattern buffer, in 10 MiB rounds.
 *
 * The library calls are inputs: each reader step is one `Query` (the answer of
 * CH346_Slave_QueryData and, when enough data is buffered, of
 * CH346_Slave_ReadData), each writer step one `WriteOutcome`. The endless outer
 * loops run until the input script is used up. 32-bit words are stored in
 * little-endian order, as on the hosts the demos target.
 */
module SlaveStream {
  import opened Bytes

  const MB: nat := 0x10_0000
  /** SLAVE_MAX_LENGTH of ch346_lib.h: the size of one slave read and of the reader and writer buffers. */
  const SLAVE_MAX_LENGTH: nat := 0x10_0000
  const PACKLEN: nat := 8192
  /** MB_Num * MB: the bytes of one round. */
  const ROUND_BYTES: nat := 10 * MB
  /** 8192-byte slots in the 1 MiB writer buffer. */
  const SLOTS: nat := 128

  /*** The byte rule ***/

  /** The reader's byte test, in `int` arithmetic: a byte is its predecessor plus one, or it restarts at 0. */
  predicate StepOk(prev: Byte, cur: Byte)
  {
    cur as int - prev as int == 1 || cur == 0
  }

  /** The byte rule over a packet, from its second byte on. */
  predicate PacketOk(p: seq<Byte>)
  {
    forall j :: 1 <= j < |p| ==> StepOk(p[j - 1], p[j])
  }

  /**
   * The demo reader's loop as written starts at j = 0 and compares the first
   * byte with `cBuffer[-1]`, a byte outside the packet buffer (`before`).
   */
  predicate PacketOkAsWritten(p: seq<Byte>, before: Byte)
    requires |p| > 0
  {
    StepOk(before, p[0]) && PacketOk(p)
  }

  /** The verdict of the loop as written depends on the byte before the buffer. */
  lemma ReadBeforeBufferDecides()
    ensures var p := seq(PACKLEN, (j: int) => (j + 1) % 0x100);
      PacketOk(p) && PacketOkAsWritten(p, 0) && !PacketOkAsWritten(p, 7)
  {
    var p := seq(PACKLEN, (j: int) => (j + 1) % 0x100);
    forall j | 1 <= j < |p|
      ensures StepOk(p[j - 1], p[j])
    {
      assert p[j - 1] == j % 0x100 && p[j] == (j + 1) % 0x100;
    }
  }

  /** The two rules agree whenever the packet starts at 0 or continues the byte before. */
  lemma AsWrittenAgrees(p: seq<Byte>, before: Byte)
    requires |p| > 0 && (p[0] == 0 || p[0] as int == before as int + 1)
    ensures PacketOkAsWritten(p, before) == PacketOk(p)
  {
  }

  /** The test reader skips every j with `j % 512 < 5`, j = 0 among them. */
  predicate PacketOkSkip(p: seq<Byte>)
  {
    forall j :: 1 <= j < |p| && j % 512 >= 5 ==> StepOk(p[j - 1], p[j])
  }

  /** Any window of the counting pattern satisfies the byte rule. */
  lemma CountingWindowOk(start: nat, n: nat)
    ensures PacketOk(CountingBytes(start + n)[start..])
    ensures PacketOkSkip(CountingBytes(start + n)[start..])
  {
    var p := CountingBytes(start + n)[start..];
    forall j | 1 <= j < |p|
      ensures StepOk(p[j - 1], p[j])
    {
      assert p[j - 1] == (start + j - 1) % 0x100 && p[j] == (start + j) % 0x100;
    }
  }

  /** The reader's check of one packet, copied into `cBuffer`. */
  method CheckPacket(cBuffer: array<Byte>) returns (ok: bool)
    requires cBuffer.Length == PACKLEN
    ensures ok == PacketOk(cBuffer[..])
  {
    var j := 1;
    while j < PACKLEN
      invariant 1 <= j <= PACKLEN
      invariant forall t :: 1 <= t < j ==> StepOk(cBuffer[t - 1], cBuffer[t])
    {
      if !StepOk(cBuffer[j - 1], cBuffer[j]) {
        assert cBuffer[..][j - 1] == cBuffer[j - 1] && cBuffer[..][j] == cBuffer[j];
        return false;
      }
      j := j + 1;
    }
    return true;
  }

  method CheckPacketSkip(cBuffer: array<Byte>) returns (ok: bool)
    requires cBuffer.Length == PACKLEN
    ensures ok == PacketOkSkip(cBuffer[..])
  {
    var j := 0;
    while j < PACKLEN
      invariant 0 <= j <= PACKLEN
      invariant forall t :: 1 <= t < j && t % 512 >= 5 ==> StepOk(cBuffer[t - 1], cBuffer[t])
    {
      if j % 512 < 5 {
        j := j + 1;
        continue;
      }
      if !StepOk(cBuffer[j - 1], cBuffer[j]) {
        assert cBuffer[..][j - 1] == cBuffer[j - 1] && cBuffer[..][j] == cBuffer[j];
        return false;
      }
      j := j + 1;
    }
    return true;
  }

  /*** Cutting a read into packets ***/

  /** The offsets `i = 0, 8192, ...` with `i < perlen`: ceil(perlen / 8192) packets. */
  function NumPackets(perlen: nat): nat
  {
    (perlen + PACKLEN - 1) / PACKLEN
  }

  lemma NumPacketsMeans(perlen: nat, k: nat)
    ensures k < NumPackets(perlen) <==> PACKLEN * k < perlen
  {
  }

  /** All packets of a read of at most 1 MiB lie inside the 1 MiB buffer. */
  lemma PacketsInBuffer(perlen: nat, k: nat)
    requires perlen <= SLAVE_MAX_LENGTH && k < NumPackets(perlen)
    ensures PACKLEN * k + PACKLEN <= SLAVE_MAX_LENGTH
  {
    NumPacketsMeans(perlen, k);
  }

  /** Packet k: the 8192 bytes at offset 8192k, copied whole even when the read ends inside it. */
  function Packet(buf: seq<Byte>, k: nat): seq<Byte>
    requires PACKLEN * k + PACKLEN <= |buf|
  {
    buf[PACKLEN * k .. PACKLEN * k + PACKLEN]
  }

  /** The demo reader's verdict on one read: every packet passes the byte rule. */
  predicate ReadOk(buf: seq<Byte>, perlen: nat)
    requires |buf| == SLAVE_MAX_LENGTH && perlen <= SLAVE_MAX_LENGTH
  {
    forall k :: 0 <= k < NumPackets(perlen) ==> (PacketsInBuffer(perlen, k); PacketOk(Packet(buf, k)))
  }

  /**
   * The test reader's verdict: packet k carries the little-endian sequence
   * number start + k in its first four bytes and passes the skipping byte rule.
   */
  predicate SeqReadOk(buf: seq<Byte>, perlen: nat, start: U32)
    requires |buf| == SLAVE_MAX_LENGTH && perlen <= SLAVE_MAX_LENGTH
  {
    forall k :: 0 <= k < NumPackets(perlen) ==>
      (PacketsInBuffer(perlen, k);
       Le32(Packet(buf, k)[..4]) == Wrap32(start + k) && PacketOkSkip(Packet(buf, k)))
  }

  /** `memcpy(cBuffer, oBuffer + i, PACKLEN)` */
  method CopyPacket(oBuffer: array<Byte>, i: nat, cBuffer: array<Byte>)
    requires oBuffer.Length == SLAVE_MAX_LENGTH && cBuffer.Length == PACKLEN
    requires i % PACKLEN == 0 && i + PACKLEN <= SLAVE_MAX_LENGTH
    requires oBuffer != cBuffer
    modifies cBuffer
    ensures cBuffer[..] == Packet(oBuffer[..], i / PACKLEN)
  {
    forall t | 0 <= t < PACKLEN {
      cBuffer[t] := oBuffer[i + t];
    }
  }

  /** The demo reader's packet loop over one read of `perlen` bytes. */
  method CheckRead(oBuffer: array<Byte>, perlen: nat) returns (ok: bool)
    requires oBuffer.Length == SLAVE_MAX_LENGTH && perlen <= SLAVE_MAX_LENGTH
    ensures ok == ReadOk(oBuffer[..], perlen)
  {
    var cBuffer := new Byte[PACKLEN];
    var i := 0;
    ghost var m := 0;
    while i < perlen
      invariant i == PACKLEN * m && m <= NumPackets(perlen)
      invariant forall k :: 0 <= k < m ==> (PacketsInBuffer(perlen, k); PacketOk(Packet(oBuffer[..], k)))
    {
      NumPacketsMeans(perlen, m);
      PacketsInBuffer(perlen, m);
      CopyPacket(oBuffer, i, cBuffer);
      var good := CheckPacket(cBuffer);
      if !good {
        return false;
      }
      i := i + PACKLEN;
      m := m + 1;
    }
    NumPacketsMeans(perlen, m);
    return true;
  }

  /**
   * The test reader's packet loop: sequence number first, then the byte rule;
   * `packindex` becomes the number seen plus one.
   */
  method CheckReadSeq(oBuffer: array<Byte>, perlen: nat, packindex: U32) returns (ok: bool, next: U32)
    requires oBuffer.Length == SLAVE_MAX_LENGTH && perlen <= SLAVE_MAX_LENGTH
    ensures ok == SeqReadOk(oBuffer[..], perlen, packindex)
    ensures ok ==> next == Wrap32(packindex + NumPackets(perlen))
  {
    var cBuffer := new Byte[PACKLEN];
    next := packindex;
    var i := 0;
    ghost var m := 0;
    while i < perlen
      invariant i == PACKLEN * m && m <= NumPackets(perlen)
      invariant next == Wrap32(packindex + m)
      invariant forall k :: 0 <= k < m ==>
        (PacketsInBuffer(perlen, k);
         Le32(Packet(oBuffer[..], k)[..4]) == Wrap32(packindex + k) && PacketOkSkip(Packet(oBuffer[..], k)))
    {
      NumPacketsMeans(perlen, m);
      PacketsInBuffer(perlen, m);
      assert oBuffer[i..i + 4] == Packet(oBuffer[..], m)[..4];
      var len := Le32(oBuffer[i..i + 4]);
      if len != next {
        return false, next;
      }
      next := Wrap32(len as int + 1);
      CopyPacket(oBuffer, i, cBuffer);
      var good := CheckPacketSkip(cBuffer);
      if !good {
        return false, next;
      }
      WrapAddOne(packindex + m);
      i := i + PACKLEN;
      m := m + 1;
    }
    NumPacketsMeans(perlen, m);
    return true, next;
  }

  lemma WrapAddOne(x: nat)
    ensures Wrap32(Wrap32(x) + 1) == Wrap32(x + 1)
  {
    var w := 0x1_0000_0000;
    assert x == x % w + w * (x / w);
  }

  /*** The reader loop ***/

  /**
   * One pass of the inner loop: QueryData succeeded, the buffered length it
   * reported, ReadData succeeded, and the bytes ReadData delivered (their count
   * is the `perlen` it reports back).
   */
  datatype Query = Query(queryOk: bool, oLength: U32, readOk: bool, data: seq<Byte>)

  /** ReadData never delivers more than the buffer it is given. */
  predicate WellFormed(script: seq<Query>)
  {
    forall q :: q in script ==> |q.data| <= SLAVE_MAX_LENGTH
  }

  datatype Variant = Demo | Test

  datatype Stop = QueryFailed | ReadFailed | DataError | ScriptEnd

  /** Why the reader stopped, how many 10 MiB rounds it completed, and how many script entries it used. */
  datatype ReadRun = ReadRun(stop: Stop, rounds: nat, consumed: nat)

  /** `oBuffer` contents, bytes read in this round, rounds completed, and the test reader's expected sequence number. */
  datatype ReaderState = ReaderState(buffer: seq<Byte>, bytesRead: nat, rounds: nat, packindex: U32)

  /** The verdict of either reader on one read, and the sequence number it expects next. */
  function ReadCheck(v: Variant, buf: seq<Byte>, perlen: nat, packindex: U32): (bool, U32)
    requires |buf| == SLAVE_MAX_LENGTH && perlen <= SLAVE_MAX_LENGTH
  {
    match v
    case Demo => (ReadOk(buf, perlen), packindex)
    case Test => (SeqReadOk(buf, perlen, packindex), Wrap32(packindex + NumPackets(perlen)))
  }

  /** The outcome of one pass of the inner loop. */
  datatype Step = Continue(st: ReaderState) | Halt(stop: Stop)

  /** One pass of the inner loop on query q. */
  function Next(v: Variant, q: Query, st: ReaderState): Step
    requires |q.data| <= SLAVE_MAX_LENGTH && |st.buffer| == SLAVE_MAX_LENGTH
  {
    if !q.queryOk then Halt(QueryFailed)
    else if q.oLength < SLAVE_MAX_LENGTH then Continue(st)
    else if !q.readOk then Halt(ReadFailed)
    else
      var buf := Overlay(st.buffer, q.data);
      var (ok, next) := ReadCheck(v, buf, |q.data|, st.packindex);
      if !ok then Halt(DataError)
      else Continue(ReaderState(buf, st.bytesRead + |q.data|, st.rounds, next))
  }

  /** The bytes a query delivers when the reader reads them. */
  function Size(q: Query): nat
  {
    if q.queryOk && q.oLength >= SLAVE_MAX_LENGTH && q.readOk then |q.data| else 0
  }

  /** What the reader needs from the library to keep going: the query succeeded, and so did the read if one was made. */
  predicate CallsOk(q: Query)
  {
    q.queryOk && (q.oLength >= SLAVE_MAX_LENGTH ==> q.readOk)
  }

  /**
   * One pass halts exactly at a failed query, a failed read, or a read whose
   * check fails; otherwise it adds the delivered bytes to the round and keeps
   * the buffer size and the round count.
   */
  lemma NextMeans(v: Variant, q: Query, st: ReaderState)
    requires |q.data| <= SLAVE_MAX_LENGTH && |st.buffer| == SLAVE_MAX_LENGTH
    ensures Next(v, q, st).Continue? ==>
      (CallsOk(q)
       && |Next(v, q, st).st.buffer| == SLAVE_MAX_LENGTH && Next(v, q, st).st.rounds == st.rounds
       && Next(v, q, st).st.bytesRead == st.bytesRead + Size(q))
    ensures Next(v, q, st) == Halt(QueryFailed) <==> !q.queryOk
    ensures Next(v, q, st) == Halt(ReadFailed) <==> q.queryOk && q.oLength >= SLAVE_MAX_LENGTH && !q.readOk
    ensures Next(v, q, st) == Halt(DataError) ==> CallsOk(q) && q.oLength >= SLAVE_MAX_LENGTH
    ensures q.queryOk && q.oLength < SLAVE_MAX_LENGTH ==> Next(v, q, st) == Continue(st)
  {
  }

  /** The reader from script entry i on, in state st. */
  function Run(v: Variant, script: seq<Query>, i: nat, st: ReaderState): ReadRun
    requires WellFormed(script) && i <= |script| && |st.buffer| == SLAVE_MAX_LENGTH
    decreases |script| - i, if st.bytesRead >= ROUND_BYTES then 1 else 0
  {
    if st.bytesRead >= ROUND_BYTES then
      Run(v, script, i, st.(bytesRead := 0, rounds := st.rounds + 1))
    else if i == |script| then ReadRun(ScriptEnd, st.rounds, i)
    else
      assert script[i] in script;
      match Next(v, script[i], st)
      case Halt(stop) => ReadRun(stop, st.rounds, i + 1)
      case Continue(st') =>
        NextMeans(v, script[i], st);
        Run(v, script, i + 1, st')
  }

  /** `memcpy` of the delivered bytes into `oBuffer`, as CH346_Slave_ReadData does. */
  method ReadInto(oBuffer: array<Byte>, data: seq<Byte>)
    requires |data| <= oBuffer.Length
    modifies oBuffer
    ensures oBuffer[..] == Overlay(old(oBuffer[..]), data)
  {
    forall t | 0 <= t < |data| {
      oBuffer[t] := data[t];
    }
  }

  /**
   * ch346_demo_slave_read after its setup. `initial` is the content of the
   * uninitialised `oBuffer`; the reader runs until a library call fails, a read
   * fails its check, or the script is used up. The Demo variant checks packets
   * with the byte rule from j = 1 (PacketOk), not with the loop as written,
   * which starts at j = 0 and reads the byte before `cBuffer`
   * (PacketOkAsWritten).
   */
  method SlaveRead(v: Variant, script: seq<Query>, initial: seq<Byte>) returns (r: ReadRun)
    requires WellFormed(script) && |initial| == SLAVE_MAX_LENGTH
    ensures r == Run(v, script, 0, ReaderState(initial, 0, 0, 0))
  {
    var oBuffer := new Byte[SLAVE_MAX_LENGTH];
    forall t | 0 <= t < SLAVE_MAX_LENGTH {
      oBuffer[t] := initial[t];
    }
    assert oBuffer[..] == initial;
    var packindex: U32 := 0;
    var rounds := 0;
    var idx := 0;
    while true
      invariant idx <= |script|
      invariant Run(v, script, 0, ReaderState(initial, 0, 0, 0))
             == Run(v, script, idx, ReaderState(oBuffer[..], 0, rounds, packindex))
      decreases |script| - idx
    {
      var bytesRead: nat := 0;
      ghost var idx0 := idx;
      while bytesRead < ROUND_BYTES
        invariant idx0 <= idx <= |script| && (bytesRead == 0 || idx0 < idx)
        invariant Run(v, script, 0, ReaderState(initial, 0, 0, 0))
               == Run(v, script, idx, ReaderState(oBuffer[..], bytesRead, rounds, packindex))
        decreases |script| - idx
      {
        if idx == |script| {
          return ReadRun(ScriptEnd, rounds, idx);
        }
        var q := script[idx];
        idx := idx + 1;
        if !q.queryOk {
          return ReadRun(QueryFailed, rounds, idx);
        }
        if q.oLength < SLAVE_MAX_LENGTH {
          continue;   // usleep(100) and query again
        }
        if !q.readOk {
          return ReadRun(ReadFailed, rounds, idx);
        }
        assert q in script;
        var perlen := |q.data|;
        ReadInto(oBuffer, q.data);
        var ok, next;
        if v == Demo {
          ok := CheckRead(oBuffer, perlen);
          next := packindex;
        } else {
          ok, next := CheckReadSeq(oBuffer, perlen, packindex);
        }
        if !ok {
          return ReadRun(DataError, rounds, idx);
        }
        packindex := next;
        bytesRead := bytesRead + perlen;
      }
      rounds := rounds + 1;
    }
  }

  /** The bytes delivered by the reads among the entries of a script prefix. */
  function Delivered(script: seq<Query>): nat
  {
    if script == [] then 0 else Delivered(script[..|script| - 1]) + Size(script[|script| - 1])
  }

  /**
   * The reader stops only for a reason: at the end of the script, or at the
   * last entry it used, which failed its query, failed its read, or delivered a
   * read that failed the check. Every entry before that one made successful
   * library calls.
   */
  lemma {:induction false} RunStops(v: Variant, script: seq<Query>, i: nat, st: ReaderState)
    requires WellFormed(script) && i <= |script| && |st.buffer| == SLAVE_MAX_LENGTH
    requires forall j :: 0 <= j < i ==> CallsOk(script[j])
    ensures var r := Run(v, script, i, st);
      && i <= r.consumed <= |script| && r.rounds >= st.rounds
      && (r.stop == ScriptEnd ==> r.consumed == |script| && forall j :: 0 <= j < |script| ==> CallsOk(script[j]))
      && (r.stop != ScriptEnd ==>
            (0 < r.consumed
             && (forall j :: 0 <= j < r.consumed - 1 ==> CallsOk(script[j]))
             && (r.stop == QueryFailed <==> !script[r.consumed - 1].queryOk)
             && (r.stop == ReadFailed ==> script[r.consumed - 1].oLength >= SLAVE_MAX_LENGTH && !script[r.consumed - 1].readOk)
             && (r.stop == DataError ==> CallsOk(script[r.consumed - 1]) && script[r.consumed - 1].oLength >= SLAVE_MAX_LENGTH)))
    decreases |script| - i, if st.bytesRead >= ROUND_BYTES then 1 else 0
  {
    if st.bytesRead >= ROUND_BYTES {
      RunStops(v, script, i, st.(bytesRead := 0, rounds := st.rounds + 1));
    } else if i < |script| {
      assert script[i] in script;
      NextMeans(v, script[i], st);
      if Next(v, script[i], st).Continue? {
        RunStops(v, script, i + 1, Next(v, script[i], st).st);
      }
    }
  }

  /** Every completed 10 MiB round was paid for by at least 10 MiB of delivered reads. */
  lemma {:induction false} RunRounds(v: Variant, script: seq<Query>, i: nat, st: ReaderState)
    requires WellFormed(script) && i <= |script| && |st.buffer| == SLAVE_MAX_LENGTH
    requires st.rounds * ROUND_BYTES + st.bytesRead <= Delivered(script[..i])
    ensures var r := Run(v, script, i, st);
      i <= r.consumed <= |script| && r.rounds * ROUND_BYTES <= Delivered(script[..r.consumed])
    decreases |script| - i, if st.bytesRead >= ROUND_BYTES then 1 else 0
  {
    if st.bytesRead >= ROUND_BYTES {
      RunRounds(v, script, i, st.(bytesRead := 0, rounds := st.rounds + 1));
    } else if i < |script| {
      assert script[i] in script;
      NextMeans(v, script[i], st);
      assert script[..i + 1][..i] == script[..i];
      DeliveredGrows(script, i + 1, i + 1);
      if Next(v, script[i], st).Continue? {
        RunRounds(v, script, i + 1, Next(v, script[i], st).st);
      } else {
        DeliveredGrows(script, i, i + 1);
      }
    } else {
      DeliveredGrows(script, i, i);
    }
  }

  lemma {:induction false} DeliveredGrows(script: seq<Query>, m: nat, n: nat)
    requires m <= n <= |script|
    ensures Delivered(script[..m]) <= Delivered(script[..n])
    decreases n - m
  {
    if m < n {
      assert script[..n][..n - 1] == script[..n - 1];
      DeliveredGrows(script, m, n - 1);
    }
  }

  /** The counting stream: every read delivers whole 8192-byte packets of the counting pattern. */
  predicate CountingStream(script: seq<Query>)
  {
    forall q :: q in script ==>
      (|q.data| % PACKLEN == 0 &&
       forall k :: 0 <= k < |q.data| / PACKLEN ==> q.data[PACKLEN * k .. PACKLEN * k + PACKLEN] == CountingBytes(PACKLEN))
  }

  /** A read of whole counting packets passes the demo reader's check. */
  lemma CountingReadOk(buf: seq<Byte>, data: seq<Byte>)
    requires |buf| == SLAVE_MAX_LENGTH && |data| <= SLAVE_MAX_LENGTH && |data| % PACKLEN == 0
    requires forall k :: 0 <= k < |data| / PACKLEN ==> data[PACKLEN * k .. PACKLEN * k + PACKLEN] == CountingBytes(PACKLEN)
    ensures ReadOk(Overlay(buf, data), |data|)
  {
    CountingWindowOk(0, PACKLEN);
    assert CountingBytes(PACKLEN)[0..] == CountingBytes(PACKLEN);
    forall k | 0 <= k < NumPackets(|data|)
      ensures (PacketsInBuffer(|data|, k); PacketOk(Packet(Overlay(buf, data), k)))
    {
      PacketsInBuffer(|data|, k);
      NumPacketsMeans(|data|, k);
      assert k < |data| / PACKLEN;
      assert Packet(Overlay(buf, data), k) == data[PACKLEN * k .. PACKLEN * k + PACKLEN];
    }
  }

  /** Fed the demo writer's counting stream, the demo reader never reports a data error. */
  lemma {:induction false} DemoAcceptsCountingStream(script: seq<Query>, i: nat, st: ReaderState)
    requires WellFormed(script) && CountingStream(script) && i <= |script| && |st.buffer| == SLAVE_MAX_LENGTH
    ensures Run(Demo, script, i, st).stop != DataError
    decreases |script| - i, if st.bytesRead >= ROUND_BYTES then 1 else 0
  {
    if st.bytesRead >= ROUND_BYTES {
      DemoAcceptsCountingStream(script, i, st.(bytesRead := 0, rounds := st.rounds + 1));
    } else if i < |script| {
      var q := script[i];
      assert q in script;
      NextMeans(Demo, q, st);
      if q.queryOk && q.oLength >= SLAVE_MAX_LENGTH && q.readOk {
        CountingReadOk(st.buffer, q.data);
      }
      if Next(Demo, q, st).Continue? {
        DemoAcceptsCountingStream(script, i + 1, Next(Demo, q, st).st);
      }
    }
  }

  /*** The writers ***/

  /** CH346_Slave_WriteData's return value and the `perlen` it reports back. */
  datatype WriteOutcome = WriteOutcome(ok: bool, perlen: U32)

  /** A write counts only if it succeeded and sent all 8192 bytes. */
  predicate WriteOk(w: WriteOutcome)
  {
    w.ok && w.perlen == PACKLEN
  }

  /**
   * The demo writer's offsets `bytes_write % MB` from entry i on, with b bytes
   * sent in the current round: a completed round or a failed write starts a new
   * round at offset 0.
   */
  function DemoOffsets(script: seq<WriteOutcome>, i: nat, b: nat): (offs: seq<nat>)
    requires i <= |script|
    ensures |offs| == |script| - i
    decreases |script| - i
  {
    if i == |script| then []
    else
      var b' := if WriteOk(script[i]) && b + PACKLEN < ROUND_BYTES then b + PACKLEN else 0;
      [b % MB] + DemoOffsets(script, i + 1, b')
  }

  /**
   * The demo writer's offsets: it starts at 0; after a good write it moves on
   * by 8192 modulo 1 MiB, after a failed one it restarts at 0; every chunk lies
   * on an 8192-byte boundary inside the 1 MiB buffer.
   */
  lemma {:induction false} DemoOffsetsShape(script: seq<WriteOutcome>, i: nat, b: nat)
    requires i <= |script| && b % PACKLEN == 0 && b < ROUND_BYTES
    ensures |DemoOffsets(script, i, b)| > 0 ==> DemoOffsets(script, i, b)[0] == b % MB
    ensures forall k :: 0 <= k < |script| - i ==>
      DemoOffsets(script, i, b)[k] % PACKLEN == 0 && DemoOffsets(script, i, b)[k] + PACKLEN <= MB
    ensures forall k :: 0 <= k < |script| - i - 1 ==>
      DemoOffsets(script, i, b)[k + 1] ==
        NextOffset(script[i + k], DemoOffsets(script, i, b)[k])
    decreases |script| - i
  {
    if i < |script| {
      var b' := if WriteOk(script[i]) && b + PACKLEN < ROUND_BYTES then b + PACKLEN else 0;
      DemoStep(b);
      DemoOffsetsShape(script, i + 1, b');
      assert DemoOffsets(script, i, b) == [b % MB] + DemoOffsets(script, i + 1, b');
      forall k | 0 <= k < |script| - i - 1
        ensures DemoOffsets(script, i, b)[k + 1] ==
          NextOffset(script[i + k], DemoOffsets(script, i, b)[k])
      {
        DemoOffsetsNext(script, i, b, k);
      }
    }
  }

  /** The offset of the write after one at `off` with outcome w. */
  function NextOffset(w: WriteOutcome, off: nat): nat
  {
    if WriteOk(w) then (off + PACKLEN) % MB else 0
  }

  /** Entry k + 1 of the offsets follows from entry k and the outcome of write k. */
  lemma {:induction false} DemoOffsetsNext(script: seq<WriteOutcome>, i: nat, b: nat, k: nat)
    requires i <= |script| && b % PACKLEN == 0 && b < ROUND_BYTES && k + 1 < |script| - i
    ensures var offs := DemoOffsets(script, i, b);
      offs[k + 1] == NextOffset(script[i + k], offs[k])
    decreases k
  {
    var b' := if WriteOk(script[i]) && b + PACKLEN < ROUND_BYTES then b + PACKLEN else 0;
    var offs := DemoOffsets(script, i, b);
    var rest := DemoOffsets(script, i + 1, b');
    assert offs == [b % MB] + rest;
    if k > 0 {
      DemoOffsetsNext(script, i + 1, b', k - 1);
      assert script[i + k] == script[(i + 1) + (k - 1)];
    } else {
      DemoStep(b);
      assert rest == [b' % MB] + DemoOffsets(script, i + 2, if WriteOk(script[i + 1]) && b' + PACKLEN < ROUND_BYTES then b' + PACKLEN else 0);
    }
  }

  /** One step of bytes_write within a round, seen modulo 1 MiB. */
  lemma DemoStep(b: nat)
    requires b % PACKLEN == 0 && b < ROUND_BYTES
    ensures b % MB % PACKLEN == 0 && b % MB + PACKLEN <= MB
    ensures b + PACKLEN < ROUND_BYTES ==> (b + PACKLEN) % MB == (b % MB + PACKLEN) % MB
    ensures b + PACKLEN >= ROUND_BYTES ==> (b % MB + PACKLEN) % MB == 0
  {
    var q := b / PACKLEN;
    var a, c := q / SLOTS, q % SLOTS;
    assert b == PACKLEN * q;
    assert q == SLOTS * a + c;
    assert b == MB * a + PACKLEN * c;
    ModDecomp(b, a, PACKLEN * c);
    if c < SLOTS - 1 {
      ModDecomp(b + PACKLEN, a, PACKLEN * (c + 1));
      ModDecomp(PACKLEN * c + PACKLEN, 0, PACKLEN * (c + 1));
    } else {
      ModDecomp(b + PACKLEN, a + 1, 0);
      ModDecomp(PACKLEN * c + PACKLEN, 1, 0);
    }
  }

  lemma ModDecomp(x: nat, a: nat, r: nat)
    requires x == MB * a + r && r < MB
    ensures x % MB == r
  {
  }

  /**
   * ch346_demo_slave_write: fill the 1 MiB buffer with the counting pattern,
   * then send 8192-byte chunks from `bytes_write % MB` in 10 MiB rounds; a
   * failed or short write ends the round and the outer loop starts the next.
   * Every entry of the script is one write.
   */
  method SlaveWriteDemo(script: seq<WriteOutcome>) returns (offsets: seq<nat>, chunks: seq<seq<Byte>>)
    ensures offsets == DemoOffsets(script, 0, 0)
    ensures |chunks| == |script|
    ensures forall k :: 0 <= k < |chunks| ==> chunks[k] == CountingBytes(PACKLEN)
  {
    var iBuffer := new Byte[SLAVE_MAX_LENGTH];
    FillCounting(iBuffer);
    var buf := iBuffer[..];
    offsets, chunks := [], [];
    var idx := 0;
    while true
      invariant idx <= |script| && |offsets| == |chunks| == idx
      invariant offsets + DemoOffsets(script, idx, 0) == DemoOffsets(script, 0, 0)
      invariant forall k :: 0 <= k < |chunks| ==> chunks[k] == CountingBytes(PACKLEN)
      decreases |script| - idx
    {
      var bytesWrite: nat := 0;
      ghost var idx0 := idx;
      while bytesWrite < ROUND_BYTES
        invariant idx0 <= idx <= |script| && |offsets| == |chunks| == idx
          invariant bytesWrite % PACKLEN == 0 && (bytesWrite == 0 || idx0 < idx)
        invariant bytesWrite < ROUND_BYTES ==> offsets + DemoOffsets(script, idx, bytesWrite) == DemoOffsets(script, 0, 0)
        invariant bytesWrite >= ROUND_BYTES ==> offsets + DemoOffsets(script, idx, 0) == DemoOffsets(script, 0, 0)
        invariant forall k :: 0 <= k < |chunks| ==> chunks[k] == CountingBytes(PACKLEN)
        decreases |script| - idx
      {
        if idx == |script| {
          return;
        }
        var off := bytesWrite % MB;
        DemoStep(bytesWrite);
        var chunk := TakeChunk(buf, off);
        var w := script[idx];
        DemoOffsetsUnfold(script, idx, bytesWrite, offsets);
        offsets, chunks := offsets + [off], chunks + [chunk];
        idx := idx + 1;
        if !WriteOk(w) {
          break;
        }
        bytesWrite := bytesWrite + PACKLEN;
      }
    }
  }

  /** `iBuffer + off` for 8192 bytes, from the counting buffer of the demo writer. */
  method TakeChunk(buf: seq<Byte>, off: nat) returns (chunk: seq<Byte>)
    requires buf == CountingBytes(SLAVE_MAX_LENGTH) && off % PACKLEN == 0 && off + PACKLEN <= MB
    ensures chunk == CountingBytes(PACKLEN)
  {
    chunk := buf[off..off + PACKLEN];
    CountingAligned(SLAVE_MAX_LENGTH, off, PACKLEN);
  }

  /** One write taken off the front of the remaining offsets. */
  lemma DemoOffsetsUnfold(script: seq<WriteOutcome>, i: nat, b: nat, done: seq<nat>)
    requires i < |script|
    ensures var b' := if WriteOk(script[i]) && b + PACKLEN < ROUND_BYTES then b + PACKLEN else 0;
      done + DemoOffsets(script, i, b) == (done + [b % MB]) + DemoOffsets(script, i + 1, b')
  {
  }

  /** The test writer's pattern: `0xff - (uint8_t)i`. */
  function DescendingBytes(n: nat): (s: seq<Byte>)
    ensures |s| == n
  {
    seq(n, (i: int) => 0xff - i % 0x100)
  }

  /** The test writer's k-th chunk: the native (little-endian) packindex k + 1, then bytes 4.. of the pattern. */
  function TestChunk(k: nat): (c: seq<Byte>)
    ensures |c| == PACKLEN
  {
    Le32Bytes(Wrap32(k + 1)) + DescendingBytes(PACKLEN)[4..]
  }

  /** The number of writes the test writer issues: up to and including the first failure. */
  function TestWrites(script: seq<WriteOutcome>): (n: nat)
    ensures n <= |script|
    ensures forall k :: 0 <= k < n - 1 ==> WriteOk(script[k])
    ensures n < |script| ==> n > 0 && !WriteOk(script[n - 1])
  {
    if script == [] then 0
    else if !WriteOk(script[0]) then 1
    else 1 + TestWrites(script[1..])
  }

  /**
   * ch346_demo_slave_write of the test copy: the buffer is filled twice, the
   * second (descending) fill overwriting the first; before each 8192-byte write
   * the next packindex, starting at 1, is stamped into the first four bytes of
   * the slot at `bytes_write % MB`; a failed or short write ends the writer.
   */
  method SlaveWriteTest(script: seq<WriteOutcome>) returns (offsets: seq<nat>, chunks: seq<seq<Byte>>)
    ensures |offsets| == |chunks| == TestWrites(script)
    ensures forall k :: 0 <= k < |chunks| ==> offsets[k] == PACKLEN * (k % SLOTS) && chunks[k] == TestChunk(k)
  {
    var iBuffer := new Byte[SLAVE_MAX_LENGTH];
    FillCounting(iBuffer);
    FillDescending(iBuffer);
    assert DescendingTails(iBuffer[..]);
    var packindex: U32 := 1;
    offsets, chunks := [], [];
    var idx := 0;
    ghost var rounds := 0;
    while true
      invariant idx <= |script| && idx == 1280 * rounds
      invariant packindex == Wrap32(idx + 1)
      invariant forall k :: 0 <= k < idx ==> WriteOk(script[k])
      invariant TestLog(offsets, chunks, idx)
      invariant iBuffer.Length == SLAVE_MAX_LENGTH && DescendingTails(iBuffer[..])
      decreases |script| - idx
    {
      var bytesWrite: nat := 0;
      while bytesWrite < ROUND_BYTES
        invariant idx <= |script| && idx == 1280 * rounds + bytesWrite / PACKLEN
        invariant bytesWrite % PACKLEN == 0 && bytesWrite <= ROUND_BYTES
        invariant packindex == Wrap32(idx + 1)
        invariant forall k :: 0 <= k < idx ==> WriteOk(script[k])
        invariant TestLog(offsets, chunks, idx)
        invariant iBuffer.Length == SLAVE_MAX_LENGTH && DescendingTails(iBuffer[..])
        decreases |script| - idx
      {
        if idx == |script| {
          TestWritesAll(script);
          return;
        }
        var off := bytesWrite % MB;
        SlotOffset(rounds, bytesWrite, idx);
        var chunk := StampChunk(iBuffer, off, packindex, idx);
        WrapAddOne(idx + 1);
        packindex := Wrap32(packindex as int + 1);
        TestLogAppend(offsets, chunks, idx, off, chunk);
        offsets, chunks := offsets + [off], chunks + [chunk];
        var w := script[idx];
        idx := idx + 1;
        if !WriteOk(w) {
          TestWritesStop(script, idx);
          return;
        }
        bytesWrite := bytesWrite + PACKLEN;
      }
      rounds := rounds + 1;
    }
  }

  /** The first n writes of the test writer: write k from slot k mod 128, carrying test chunk k. */
  predicate TestLog(offsets: seq<nat>, chunks: seq<seq<Byte>>, n: nat)
  {
    |offsets| == |chunks| == n
    && forall k :: 0 <= k < n ==> offsets[k] == PACKLEN * (k % SLOTS) && chunks[k] == TestChunk(k)
  }

  lemma TestLogAppend(offsets: seq<nat>, chunks: seq<seq<Byte>>, n: nat, off: nat, chunk: seq<Byte>)
    requires TestLog(offsets, chunks, n) && off == PACKLEN * (n % SLOTS) && chunk == TestChunk(n)
    ensures TestLog(offsets + [off], chunks + [chunk], n + 1)
  {
  }

  /** `for (i = 0; i < SLAVE_MAX_LENGTH; i++) iBuffer[i] = 0xff - (uint8_t)i;` */
  method FillDescending(a: array<Byte>)
    modifies a
    ensures a[..] == DescendingBytes(a.Length)
  {
    var i := 0;
    while i < a.Length
      invariant 0 <= i <= a.Length
      invariant forall k :: 0 <= k < i ==> a[k] == 0xff - k % 0x100
    {
      a[i] := 0xff - i % 0x100;
      i := i + 1;
    }
  }

  /** `memcpy(iBuffer + off, &packindex, 4)` on a little-endian host. */
  method Stamp(iBuffer: array<Byte>, off: nat, packindex: U32)
    requires off + 4 <= iBuffer.Length
    modifies iBuffer
    ensures iBuffer[..] == old(iBuffer[..])[..off] + Le32Bytes(packindex) + old(iBuffer[..])[off + 4..]
  {
    var b := Le32Bytes(packindex);
    iBuffer[off] := b[0];
    iBuffer[off + 1] := b[1];
    iBuffer[off + 2] := b[2];
    iBuffer[off + 3] := b[3];
  }

  lemma SlotOffset(rounds: nat, bytesWrite: nat, idx: nat)
    requires bytesWrite % PACKLEN == 0 && bytesWrite < ROUND_BYTES && idx == 1280 * rounds + bytesWrite / PACKLEN
    ensures bytesWrite % MB == PACKLEN * (idx % SLOTS) && bytesWrite % MB + PACKLEN <= MB
  {
    var q := bytesWrite / PACKLEN;
    assert bytesWrite == PACKLEN * q;
    assert idx == SLOTS * (10 * rounds) + q;
    assert idx % SLOTS == q % SLOTS;
    assert bytesWrite % MB == PACKLEN * (q % SLOTS);
  }

  /** Outside the stamp bytes of each slot, the buffer holds the descending pattern. */
  predicate DescendingTails(buf: seq<Byte>)
  {
    forall p :: 0 <= p < |buf| && p % PACKLEN >= 4 ==> buf[p] == 0xff - p % 0x100
  }

  /** Stamp the slot at `off` with packindex idx + 1 and take its 8192 bytes: the test chunk idx. */
  method StampChunk(iBuffer: array<Byte>, off: nat, packindex: U32, idx: nat) returns (chunk: seq<Byte>)
    requires iBuffer.Length == SLAVE_MAX_LENGTH && DescendingTails(iBuffer[..])
    requires off % PACKLEN == 0 && off + PACKLEN <= SLAVE_MAX_LENGTH && packindex == Wrap32(idx + 1)
    modifies iBuffer
    ensures DescendingTails(iBuffer[..])
    ensures chunk == TestChunk(idx)
  {
    Stamp(iBuffer, off, packindex);
    StampKeepsTails(old(iBuffer[..]), off, packindex);
    chunk := iBuffer[off..off + PACKLEN];
    StampedSlot(iBuffer[..], off, idx);
  }

  /** Stamping the first four bytes of a slot leaves the descending tails alone. */
  lemma StampKeepsTails(buf: seq<Byte>, off: nat, packindex: U32)
    requires DescendingTails(buf) && off % PACKLEN == 0 && off + PACKLEN <= |buf|
    ensures DescendingTails(buf[..off] + Le32Bytes(packindex) + buf[off + 4..])
  {
    var after := buf[..off] + Le32Bytes(packindex) + buf[off + 4..];
    forall p | 0 <= p < |after| && p % PACKLEN >= 4
      ensures after[p] == 0xff - p % 0x100
    {
      assert after[p] == buf[p];
    }
  }

  /** A freshly stamped slot of the descending buffer is the test chunk. */
  lemma StampedSlot(buf: seq<Byte>, off: nat, idx: nat)
    requires |buf| == SLAVE_MAX_LENGTH && off % PACKLEN == 0 && off + PACKLEN <= SLAVE_MAX_LENGTH
    requires buf[off..off + 4] == Le32Bytes(Wrap32(idx + 1))
    requires DescendingTails(buf)
    ensures buf[off..off + PACKLEN] == TestChunk(idx)
  {
    var c := TestChunk(idx);
    forall t | 0 <= t < PACKLEN
      ensures buf[off + t] == c[t]
    {
      if t >= 4 {
        SlotPosition(off, t);
        assert buf[off + t] == 0xff - (off + t) % 0x100;
        assert c[t] == DescendingBytes(PACKLEN)[t];
      } else {
        assert buf[off + t] == buf[off..off + 4][t];
      }
    }
  }

  /** Position t of a slot that starts on an 8192-byte boundary. */
  lemma SlotPosition(off: nat, t: nat)
    requires off % PACKLEN == 0 && t < PACKLEN
    ensures (off + t) % PACKLEN == t && (off + t) % 0x100 == t % 0x100
  {
    var q := off / PACKLEN;
    assert off + t == PACKLEN * q + t;
    assert off + t == 0x100 * (32 * q) + t;
  }

  lemma {:induction false} TestWritesAll(script: seq<WriteOutcome>)
    requires forall k :: 0 <= k < |script| ==> WriteOk(script[k])
    ensures TestWrites(script) == |script|
  {
    if script != [] {
      assert WriteOk(script[0]);
      TestWritesAll(script[1..]);
    }
  }

  lemma {:induction false} TestWritesStop(script: seq<WriteOutcome>, n: nat)
    requires 0 < n <= |script| && !WriteOk(script[n - 1])
    requires forall k :: 0 <= k < n - 1 ==> WriteOk(script[k])
    ensures TestWrites(script) == n
  {
    if n > 1 {
      assert WriteOk(script[0]);
      TestWritesStop(script[1..], n - 1);
    }
  }

  /**
   * The test writer and the test reader follow different conventions: the
   * first chunk carries sequence number 1 where the reader expects 0, and no
   * chunk passes either byte rule (the pattern counts down).
   */
  lemma TestWriterAgainstTestReader(k: nat)
    ensures Le32(TestChunk(0)[..4]) == 1
    ensures !PacketOkSkip(TestChunk(k)) && !PacketOk(TestChunk(k))
  {
    assert TestChunk(0)[..4] == Le32Bytes(1);
    Le32OfBytes(1);
    var c := TestChunk(k);
    assert c[4] == 0xff - 4 && c[5] == 0xff - 5;
    assert !StepOk(c[4], c[5]);
  }
}
