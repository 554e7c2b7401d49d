/**
 * The small pieces of logic the CH347 and CH346 demos keep outside the vendor
 * library: the `timeval` difference with a borrow, the GPIO level lines, the
 * walking-one GPIO output, the cycling I2C speed mode, the JTAG IDCODE byte
 * order and the EEPROM test pattern.
 */
module DemoHelpers {
  import opened Bytes

  /*** Elapsed time ***/

  const USEC_PER_SEC := 1000000

  /** A `struct timeval`: seconds and microseconds. */
  datatype TimeVal = TimeVal(sec: int, usec: int)

  /** What gettimeofday returns: microseconds in [0, 10^6). */
  predicate Normal(t: TimeVal)
  {
    0 <= t.usec < USEC_PER_SEC
  }

  /** The instant t in microseconds. */
  function Micros(t: TimeVal): int
  {
    t.sec * USEC_PER_SEC + t.usec
  }

  /**
   * `delta_sec = t2.tv_sec - t1.tv_sec; delta_usec = t2.tv_usec - t1.tv_usec`,
   * then one second is borrowed when the microseconds went negative. The CH347
   * test tests `t2.tv_usec < t1.tv_usec`, the CH346 demo `delta_usec < 0`:
   * the same condition.
   */
  function Elapsed(t1: TimeVal, t2: TimeVal): (d: TimeVal)
    ensures Micros(d) == Micros(t2) - Micros(t1)
    ensures Normal(t1) && Normal(t2) ==> Normal(d)
  {
    var d := TimeVal(t2.sec - t1.sec, t2.usec - t1.usec);
    if d.usec < 0 then TimeVal(d.sec - 1, d.usec + USEC_PER_SEC) else d
  }

  /** A normal `timeval` is determined by the instant it denotes. */
  lemma NormalUnique(a: TimeVal, b: TimeVal)
    requires Normal(a) && Normal(b) && Micros(a) == Micros(b)
    ensures a == b
  {
  }

  /** The borrowed difference is the only normal `timeval` for t2 - t1. */
  lemma ElapsedUnique(t1: TimeVal, t2: TimeVal, d: TimeVal)
    requires Normal(t1) && Normal(t2)
    requires Normal(d) && Micros(d) == Micros(t2) - Micros(t1)
    ensures d == Elapsed(t1, t2)
  {
    NormalUnique(d, Elapsed(t1, t2));
  }

  /*** GPIO level lines ***/

  const GPIO_COUNT := 8

  /** The low n bits of x, least significant first: 'H' for a set bit, 'L' for a clear one. */
  function Levels(x: nat, n: nat): (s: string)
    ensures |s| == n
    ensures forall i :: 0 <= i < n ==> (s[i] == 'H' <==> Bit(x, i)) && (s[i] == 'H' || s[i] == 'L')
  {
    if n == 0 then []
    else [if x % 2 == 1 then 'H' else 'L'] + Levels(x / 2, n - 1)
  }

  /** The byte an 'H'/'L' line stands for, first character least significant. */
  function LevelsValue(s: string): nat
  {
    if s == [] then 0 else (if s[0] == 'H' then 1 else 0) + 2 * LevelsValue(s[1..])
  }

  /** A level line of n characters gives back any value below 2^n. */
  lemma {:induction false} LevelsRoundTrip(x: nat, n: nat)
    requires x < Pow2(n)
    ensures LevelsValue(Levels(x, n)) == x
  {
    if n > 0 {
      assert Levels(x, n)[1..] == Levels(x / 2, n - 1);
      LevelsRoundTrip(x / 2, n - 1);
    }
  }

  /** The eight-character line the GPIO demos show for a data byte. */
  function GpioLevels(data: Byte): (s: string)
    ensures |s| == GPIO_COUNT
  {
    Levels(data, GPIO_COUNT)
  }

  /** Different pin states show different lines: the line is a faithful picture of the byte. */
  lemma GpioLevelsInjective(a: Byte, b: Byte)
    ensures GpioLevels(a) == GpioLevels(b) <==> a == b
  {
    assert Pow2(GPIO_COUNT) == 0x100;
    LevelsRoundTrip(a, GPIO_COUNT);
    LevelsRoundTrip(b, GPIO_COUNT);
  }

  /**
   * ch34x_demo_gpio_input_operate: after CH347GPIO_Get, print 'H' for pin i
   * when `iData & (1 << i)` is non-zero and 'L' otherwise; nothing is shown
   * when the read failed.
   */
  method ShowGpioInput(getOk: bool, data: Byte) returns (line: Option<string>)
    ensures line == if getOk then Some(GpioLevels(data)) else None
    ensures line.Some? ==> forall i :: 0 <= i < GPIO_COUNT ==> (line.value[i] == 'H' <==> Bit(data, i))
  {
    if !getOk {
      return None;
    }
    var s: string := [];
    var i := 0;
    while i < GPIO_COUNT
      invariant 0 <= i <= GPIO_COUNT && |s| == i
      invariant forall k :: 0 <= k < i ==> s[k] == GpioLevels(data)[k]
    {
      s := s + [if Bit(data, i) then 'H' else 'L'];
      i := i + 1;
    }
    assert s == GpioLevels(data);
    line := Some(s);
  }

  /*** Walking-one GPIO output ***/

  /** `1 << i` for a pin number fits a byte. */
  lemma {:induction false} Pow2Byte(i: nat)
    requires i < GPIO_COUNT
    ensures Pow2(i) < 0x100
  {
    Pow2Below(i, GPIO_COUNT);
    assert Pow2(GPIO_COUNT) == 0x100;
  }

  lemma {:induction false} Pow2Below(i: nat, n: nat)
    requires i < n
    ensures Pow2(i) < Pow2(n)
    decreases n
  {
    if i < n - 1 {
      Pow2Below(i, n - 1);
    } else {
      Pow2Positive(i);
    }
  }

  /**
   * ch34x_demo_gpio_output_operate: drive all pins low, then for i = 0..7 set
   * `iSetDataOut = 1 << i` and print a line with 'H' in column i only; a failed
   * set ends the demo at once, otherwise all pins are driven low again.
   * setOk[i] is the outcome of the set in step i; `writes` are the data
   * bytes handed to CH347GPIO_Set in order and `lines` the lines printed.
   */
  method GpioWalk(setOk: seq<bool>) returns (writes: seq<Byte>, lines: seq<string>)
    ensures |lines| <= GPIO_COUNT
    ensures |lines| <= |setOk| && forall i :: 0 <= i < |lines| ==> setOk[i]
    ensures |lines| < GPIO_COUNT ==> !(|lines| < |setOk| && setOk[|lines|])
    ensures |writes| == if |lines| == GPIO_COUNT then GPIO_COUNT + 2 else |lines| + 2
    ensures writes[0] == 0
    ensures forall i :: 0 <= i < GPIO_COUNT && i + 1 < |writes| ==> writes[i + 1] == Pow2(i)
    ensures |lines| == GPIO_COUNT ==> writes[|writes| - 1] == 0
    ensures forall i :: 0 <= i < |lines| ==> lines[i] == GpioLevels(writes[i + 1])
    ensures forall i, j :: 0 <= i < |lines| && 0 <= j < GPIO_COUNT ==> |lines[i]| == GPIO_COUNT && (lines[i][j] == 'H' <==> j == i)
  {
    writes, lines := [0], [];
    var step := 0;
    while step < GPIO_COUNT
      invariant 0 <= step <= GPIO_COUNT && |lines| == step && |writes| == step + 1
      invariant step <= |setOk| && forall k :: 0 <= k < step ==> setOk[k]
      invariant writes[0] == 0
      invariant forall k :: 0 <= k < step ==> writes[k + 1] == Pow2(k)
      invariant forall k :: 0 <= k < step ==> lines[k] == GpioLevels(writes[k + 1])
      invariant forall k, j :: 0 <= k < step && 0 <= j < GPIO_COUNT ==> |lines[k]| == GPIO_COUNT && (lines[k][j] == 'H' <==> j == k)
    {
      Pow2Byte(step);
      var dataOut: Byte := Pow2(step);
      writes := writes + [dataOut];
      if !(step < |setOk| && setOk[step]) {
        return;
      }
      var line: string := [];
      var j := 0;
      while j < GPIO_COUNT
        invariant 0 <= j <= GPIO_COUNT && |line| == j
        invariant forall t :: 0 <= t < j ==> line[t] == (if t == step then 'H' else 'L')
      {
        line := line + [if j == step then 'H' else 'L'];
        j := j + 1;
      }
      forall t | 0 <= t < GPIO_COUNT
        ensures line[t] == GpioLevels(dataOut)[t]
      {
        SingleBit(step, t);
      }
      lines := lines + [line];
      step := step + 1;
    }
    writes := writes + [0];
  }

  /*** I2C speed mode ***/

  /**
   * The CH347 test's global `imode` and the CH347_I2C_Init that consumes it:
   * each call uses the current mode and advances it, wrapping from 7 to 0.
   */
  class I2cModeCounter {
    /** The speed mode the next CH347_I2C_Init will use. */
    var imode: int
    /** How many times CH347_I2C_Init has run. */
    ghost var calls: nat

    /** The mode depends only on the number of calls so far. */
    ghost predicate Valid()
      reads this
    {
      imode == calls % 8
    }

    /** `int imode = 0;` */
    constructor ()
      ensures Valid() && calls == 0 && imode == 0
    {
      imode := 0;
      calls := 0;
    }

    /**
     * CH347_I2C_Init: `iMode = imode++; if (imode > 7) imode = 0;`, then
     * CH347I2C_Set with iMode, CH347I2C_SetStretch and CH347I2C_SetDriveMode,
     * stopping at the first that fails; their outcomes are the parameters.
     */
    method Init(setOk: bool, stretchOk: bool, driveOk: bool) returns (ok: bool, mode: int)
      requires Valid()
      modifies this
      ensures Valid() && calls == old(calls) + 1
      ensures mode == old(imode) && mode == old(calls) % 8
      ensures 0 <= imode <= 7 && imode == (old(imode) + 1) % 8
      ensures ok == (setOk && stretchOk && driveOk)
    {
      mode := imode;
      imode := imode + 1;
      if imode > 7 {
        imode := 0;
      }
      calls := calls + 1;
      ok := setOk && stretchOk && driveOk;
    }
  }

  /** The modes of n successive calls from a fresh counter: 0, 1, ..., 7, 0, 1, ... */
  method InitCalls(n: nat) returns (modes: seq<int>)
    ensures |modes| == n
    ensures forall k :: 0 <= k < n ==> modes[k] == k % 8 && 0 <= modes[k] <= 7
  {
    var counter := new I2cModeCounter();
    modes := [];
    while |modes| < n
      invariant |modes| <= n && counter.Valid() && counter.calls == |modes|
      invariant forall k :: 0 <= k < |modes| ==> modes[k] == k % 8
    {
      var ok, mode := counter.Init(true, true, true);
      modes := modes + [mode];
    }
  }

  /*** JTAG IDCODE ***/

  /**
   * ch34x_demo_jtag_operate prints `retue[3 - i]` for i = 0..3: the IDCODE
   * shifted out of SHIFT-DR least significant byte first, shown most
   * significant byte first.
   */
  method ShowIdcode(retue: seq<Byte>) returns (shown: seq<Byte>)
    requires |retue| == 32
    ensures shown == Be32Bytes(Le32(retue[..4]))
    ensures |shown| == 4 && forall i :: 0 <= i < 4 ==> shown[i] == retue[3 - i]
  {
    shown := [];
    var i := 0;
    while i < 4
      invariant 0 <= i <= 4 && |shown| == i
      invariant forall k :: 0 <= k < i ==> shown[k] == retue[3 - k]
    {
      shown := shown + [retue[3 - i]];
      i := i + 1;
    }
    BytesOfLe32(retue[..4]);
  }

  /*** EEPROM test pattern ***/

  /** EEPROM_TYPE of the CH347 library header. */
  datatype EepromType =
    | ID_24C01 | ID_24C02 | ID_24C04 | ID_24C08 | ID_24C16 | ID_24C32 | ID_24C64
    | ID_24C128 | ID_24C256 | ID_24C512 | ID_24C1024 | ID_24C2048 | ID_24C4096

  /** The arguments of one CH347WriteEEPROM call. */
  datatype EepromRequest = EepromRequest(chip: EepromType, addr: nat, data: seq<Byte>)

  /**
   * EEPROM_Write: fill a 256-byte buffer with `iBuffer[i] = i` and write it
   * to a 24C02 from address 0; the result is the library's.
   */
  method EepromWrite(writeOk: bool) returns (ok: bool, req: EepromRequest)
    ensures req.chip == ID_24C02 && req.addr == 0 && |req.data| == 256
    ensures forall i :: 0 <= i < 256 ==> req.data[i] == i
    ensures ok == writeOk
  {
    var iBuffer := new Byte[256];
    FillCounting(iBuffer);
    req := EepromRequest(ID_24C02, 0, iBuffer[..]);
    ok := writeOk;
  }
}
