/**
 * Show_DevMsg of the CH347 and CH346 demos: from the device path and the
 * answers of the kernel and the driver, which chip is attached and which
 * function set its interface offers. The ioctl and driver queries are inputs:
 * `None` stands for a query that failed.
 */
module DeviceInfo {
  import opened Bytes

  /** CHIP_TYPE of the vendor headers. */
  datatype ChipType = CH341 | CH347T | CH347F | CH339W | CH346C

  function ChipCode(c: ChipType): nat
  {
    match c
    case CH341 => 0
    case CH347T => 1
    case CH347F => 2
    case CH339W => 3
    case CH346C => 4
  }

  function ChipOfCode(code: nat): Option<ChipType>
  {
    if code == 0 then Some(CH341)
    else if code == 1 then Some(CH347T)
    else if code == 2 then Some(CH347F)
    else if code == 3 then Some(CH339W)
    else if code == 4 then Some(CH346C)
    else None
  }

  /** The enum values 0..4 name the five chips one to one. */
  lemma ChipCodes(c: ChipType, code: nat)
    ensures ChipOfCode(ChipCode(c)) == Some(c)
    ensures ChipOfCode(code).Some? <==> code < 5
    ensures ChipOfCode(code).Some? ==> ChipCode(ChipOfCode(code).value) == code
  {
  }

  /** CH347FUNCTYPE: FUNC_UART = 0, FUNC_SPI_I2C_GPIO, FUNC_JTAG_GPIO, FUNC_SPI_I2C_JTAG_GPIO. */
  datatype Ch347Func = FuncUart | FuncSpiI2cGpio | FuncJtagGpio | FuncSpiI2cJtagGpio

  /** CH346FUNCTYPE: FUNC_FIFO = 0, FUNC_SPI. */
  datatype Ch346Func = FuncFifo | FuncSpi

  const WCH_VID: U16 := 0x1a86
  /** USB product IDs reported through hidraw. */
  const PID_HID_CH347T: U16 := 0x55dc
  const PID_HID_CH347F: U16 := 0x55e5
  /** USB product IDs reported by the ch34x_pis driver. */
  const PID_SPI_I2C_GPIO: U16 := 0x55db
  const PID_JTAG_GPIO: U16 := 0x55dd
  const PID_SPI_I2C_JTAG_GPIO: U16 := 0x55de
  const PID_CH347F: U16 := 0x55e7

  /** `strstr(s, pat) != NULL` */
  predicate Contains(s: string, pat: string)
  {
    if |s| < |pat| then false else s[..|pat|] == pat || Contains(s[1..], pat)
  }

  /** pat occurs in s at offset i. */
  predicate OccursAt(s: string, pat: string, i: int)
  {
    0 <= i <= |s| - |pat| && s[i..i + |pat|] == pat
  }

  /** s contains pat exactly when pat occurs at some offset of s. */
  lemma {:induction false} ContainsMeans(s: string, pat: string)
    ensures Contains(s, pat) <==> exists i :: OccursAt(s, pat, i)
  {
    if |s| < |pat| {
    } else if s[..|pat|] == pat {
      assert OccursAt(s, pat, 0);
    } else {
      ContainsMeans(s[1..], pat);
      if Contains(s[1..], pat) {
        var i :| OccursAt(s[1..], pat, i);
        assert s[i + 1..i + 1 + |pat|] == s[1..][i..i + |pat|];
        assert OccursAt(s, pat, i + 1);
      }
      if exists i :: OccursAt(s, pat, i) {
        var i :| OccursAt(s, pat, i);
        assert i != 0;
        assert s[1..][i - 1..i - 1 + |pat|] == s[i..i + |pat|];
        assert OccursAt(s[1..], pat, i - 1);
      }
    }
  }

  /**
   * `vendor = dev_id` and `product = dev_id >> 16` into `uint16_t`: the low and
   * the high half of the 32-bit device ID.
   */
  function SplitId(devId: U32): (ids: (U16, U16))
    ensures ids.0 + 0x1_0000 * ids.1 == devId
  {
    (devId % 0x1_0000, devId / 0x1_0000)
  }

  lemma SplitIdOfJoin(vendor: U16, product: U16)
    ensures SplitId(vendor + 0x1_0000 * product) == (vendor, product)
  {
  }

  /*** CH347 ***/

  /** The fields of the global device record that Show_DevMsg writes; the static record starts zeroed. */
  datatype Ch347Device = Ch347Device(chip: ChipType, devId: U32, func: Ch347Func)

  const CH347_DEVICE_AT_START := Ch347Device(CH341, 0, FuncUart)

  /**
   * The hidraw ioctls: HIDIOCGRAWNAME succeeded, HIDIOCGRAWINFO's (vendor,
   * product), HIDIOCGRAWPHYS's physical-location string.
   */
  datatype HidProbe = HidProbe(nameOk: bool, info: Option<(U16, U16)>, phys: Option<string>)

  /** The ch34x_pis driver queries: driver version, chip type, device ID. */
  datatype PisProbe = PisProbe(versionOk: bool, chip: Option<ChipType>, devId: Option<U32>)

  /** Show_DevMsg's return value and the device record afterwards. */
  datatype Probed = Probed(ok: bool, device: Ch347Device)

  predicate IsCh347Hid(vendor: U16, product: U16)
  {
    vendor == WCH_VID && (product == PID_HID_CH347T || product == PID_HID_CH347F)
  }

  /** The hidraw interface function from the physical location, as written. */
  function HidFunc(chip: ChipType, phys: string): Ch347Func
  {
    if chip == CH347T then
      if Contains(phys, "input0") then FuncUart else FuncSpiI2cGpio
    else
      if Contains(phys, "input0") then FuncUart
      else if Contains(phys, "input2") then FuncUart
      else FuncSpiI2cGpio
  }

  /**
   * The hidraw branch as written: an unknown VID or PID takes `return -1`,
   * which converts to `true` in a `bool` function.
   */
  function HidClassify(dev: Ch347Device, hid: HidProbe): Probed
  {
    if !hid.nameOk || hid.info.None? then Probed(false, dev)
    else
      var (vendor, product) := hid.info.value;
      if !IsCh347Hid(vendor, product) then Probed(true, dev)
      else
        var dev' := dev.(chip := if product == PID_HID_CH347T then CH347T else CH347F);
        match hid.phys
        case None => Probed(false, dev')
        case Some(phys) => Probed(true, dev'.(func := HidFunc(dev'.chip, phys)))
  }

  /** The product ID reported by the driver picks the function set; any other product leaves it unchanged. */
  function PisFunc(product: U16, current: Ch347Func): Ch347Func
  {
    if product == PID_SPI_I2C_GPIO then FuncSpiI2cGpio
    else if product == PID_JTAG_GPIO then FuncJtagGpio
    else if product == PID_SPI_I2C_JTAG_GPIO || product == PID_CH347F then FuncSpiI2cJtagGpio
    else current
  }

  function PisClassify(dev: Ch347Device, pis: PisProbe): Probed
  {
    if !pis.versionOk || pis.chip.None? then Probed(false, dev)
    else
      var dev1 := dev.(chip := pis.chip.value);
      if dev1.chip == CH341 then Probed(false, dev1)
      else
        match pis.devId
        case None => Probed(false, dev1)
        case Some(id) =>
          var dev2 := dev1.(devId := id);
          Probed(true, dev2.(func := PisFunc(SplitId(id).1, dev2.func)))
  }

  /** CH347 Show_DevMsg as written: the path picks the tty, hidraw or ch34x_pis branch; any other path is accepted unchanged. */
  function ShowDevMsg347(path: string, dev: Ch347Device, hid: HidProbe, pis: PisProbe): Probed
  {
    if Contains(path, "tty") then Probed(true, dev.(func := FuncUart))
    else if Contains(path, "hidraw") then HidClassify(dev, hid)
    else if Contains(path, "ch34x_pis") then PisClassify(dev, pis)
    else Probed(true, dev)
  }

  /** A tty device is always a UART. */
  lemma TtyIsUart(path: string, dev: Ch347Device, hid: HidProbe, pis: PisProbe)
    requires Contains(path, "tty")
    ensures ShowDevMsg347(path, dev, hid, pis) == Probed(true, dev.(func := FuncUart))
  {
  }

  /**
   * hidraw, as written: a failed name, info or (for a CH347) phys query fails;
   * an unknown VID/PID is accepted with the record untouched; a CH347T or
   * CH347F is recorded, and its interface is a UART exactly when the physical
   * location contains "input0" (or "input2" on a CH347F), SPI+I2C+GPIO
   * otherwise.
   */
  lemma HidClassification(path: string, dev: Ch347Device, hid: HidProbe, pis: PisProbe)
    requires !Contains(path, "tty") && Contains(path, "hidraw")
    ensures var r := ShowDevMsg347(path, dev, hid, pis);
      && (r.ok <==> hid.nameOk && hid.info.Some? && (!IsCh347Hid(hid.info.value.0, hid.info.value.1) || hid.phys.Some?))
      && (r.ok && !IsCh347Hid(hid.info.value.0, hid.info.value.1) ==> r.device == dev)
      && (r.ok && IsCh347Hid(hid.info.value.0, hid.info.value.1) ==>
            && r.device.devId == dev.devId
            && (r.device.chip == CH347T <==> hid.info.value.1 == PID_HID_CH347T)
            && (r.device.chip == CH347F <==> hid.info.value.1 == PID_HID_CH347F)
            && (r.device.func == FuncUart <==>
                  Contains(hid.phys.value, "input0") || (r.device.chip == CH347F && Contains(hid.phys.value, "input2")))
            && (r.device.func != FuncUart ==> r.device.func == FuncSpiI2cGpio))
  {
  }

  /**
   * ch34x_pis: a failed query or a CH341 fails; otherwise the chip and device ID
   * are recorded and the product (high half of the ID) selects the function set,
   * leaving it unchanged for an unknown product.
   */
  lemma PisClassification(path: string, dev: Ch347Device, hid: HidProbe, pis: PisProbe)
    requires !Contains(path, "tty") && !Contains(path, "hidraw") && Contains(path, "ch34x_pis")
    ensures var r := ShowDevMsg347(path, dev, hid, pis);
      && (r.ok <==> pis.versionOk && pis.chip.Some? && pis.chip.value != CH341 && pis.devId.Some?)
      && (r.ok ==>
            var product := pis.devId.value / 0x1_0000;
            && r.device.chip == pis.chip.value && r.device.devId == pis.devId.value
            && (r.device.func == FuncSpiI2cGpio <==> product == PID_SPI_I2C_GPIO || (product !in {PID_JTAG_GPIO, PID_SPI_I2C_JTAG_GPIO, PID_CH347F} && dev.func == FuncSpiI2cGpio))
            && (product == PID_JTAG_GPIO ==> r.device.func == FuncJtagGpio)
            && (product == PID_SPI_I2C_JTAG_GPIO || product == PID_CH347F ==> r.device.func == FuncSpiI2cJtagGpio)
            && (product !in {PID_SPI_I2C_GPIO, PID_JTAG_GPIO, PID_SPI_I2C_JTAG_GPIO, PID_CH347F} ==> r.device.func == dev.func))
  {
  }

  /** The JTAG demo is reachable from the menu: directly for JTAG+GPIO, and behind a functype check for SPI+I2C+JTAG+GPIO. */
  predicate JtagMenu(func: Ch347Func)
  {
    func == FuncJtagGpio || func == FuncSpiI2cJtagGpio
  }

  /**
   * As written, an unknown HID device is accepted, and a CH347F opened through
   * hidraw on its non-UART interface is classified SPI+I2C+GPIO, so the JTAG
   * demo is refused on the very chip that has JTAG.
   */
  lemma HidAsWrittenFindings(path: string, hid: HidProbe, pis: PisProbe)
    requires !Contains(path, "tty") && Contains(path, "hidraw")
    ensures hid.nameOk && hid.info == Some((0x1234, 0x5678))
        ==> ShowDevMsg347(path, CH347_DEVICE_AT_START, hid, pis).ok
    ensures hid.nameOk && hid.info == Some((WCH_VID, PID_HID_CH347F)) && hid.phys == Some("input1")
        ==> var r := ShowDevMsg347(path, CH347_DEVICE_AT_START, hid, pis);
            r.ok && r.device.chip == CH347F && !JtagMenu(r.device.func)
  {
    assert "input1"[5] != "input0"[5] && "input1"[5] != "input2"[5];
    assert !Contains("nput1", "input0") && !Contains("nput1", "input2");
    assert !Contains("input1", "input0") && !Contains("input1", "input2");
  }

  /** The hidraw function the messages describe: a CH347F's non-UART interface is SPI+I2C+JTAG+GPIO. */
  function HidFuncIntended(chip: ChipType, phys: string): Ch347Func
  {
    var f := HidFunc(chip, phys);
    if chip == CH347F && f == FuncSpiI2cGpio then FuncSpiI2cJtagGpio else f
  }

  /** The hidraw branch with an unknown VID/PID rejected and the CH347F function set corrected. */
  function HidClassifyIntended(dev: Ch347Device, hid: HidProbe): Probed
  {
    if !hid.nameOk || hid.info.None? then Probed(false, dev)
    else
      var (vendor, product) := hid.info.value;
      if !IsCh347Hid(vendor, product) then Probed(false, dev)
      else
        var dev' := dev.(chip := if product == PID_HID_CH347T then CH347T else CH347F);
        match hid.phys
        case None => Probed(false, dev')
        case Some(phys) => Probed(true, dev'.(func := HidFuncIntended(dev'.chip, phys)))
  }

  function ShowDevMsg347Intended(path: string, dev: Ch347Device, hid: HidProbe, pis: PisProbe): Probed
  {
    if Contains(path, "tty") then Probed(true, dev.(func := FuncUart))
    else if Contains(path, "hidraw") then HidClassifyIntended(dev, hid)
    else if Contains(path, "ch34x_pis") then PisClassify(dev, pis)
    else Probed(true, dev)
  }

  /**
   * Corrected hidraw branch: it succeeds only for a CH347 whose three queries
   * succeeded, and the JTAG demo is offered exactly on a CH347F's non-UART
   * interface.
   */
  lemma HidIntendedClassification(path: string, dev: Ch347Device, hid: HidProbe, pis: PisProbe)
    requires !Contains(path, "tty") && Contains(path, "hidraw")
    ensures var r := ShowDevMsg347Intended(path, dev, hid, pis);
      && (r.ok <==> hid.nameOk && hid.info.Some? && IsCh347Hid(hid.info.value.0, hid.info.value.1) && hid.phys.Some?)
      && (r.ok ==> r.device.chip in {CH347T, CH347F})
      && (r.ok ==> (JtagMenu(r.device.func) <==> r.device.chip == CH347F && r.device.func != FuncUart))
  {
  }

  /*** CH346 ***/

  datatype Ch346Device = Ch346Device(chip: ChipType, devId: U32, func: Ch346Func)

  datatype Probed346 = Probed346(ok: bool, device: Ch346Device)

  /**
   * CH346 Show_DevMsg: only a ch34x_pis path is queried; any chip but a CH346C
   * is refused; CH346_GetMode's mode byte 0 means FIFO and any other value SPI.
   */
  function ShowDevMsg346(path: string, dev: Ch346Device, pis: PisProbe, mode: Option<Byte>): Probed346
  {
    if !Contains(path, "ch34x_pis") then Probed346(true, dev)
    else if !pis.versionOk || pis.chip.None? then Probed346(false, dev)
    else
      var dev1 := dev.(chip := pis.chip.value);
      if dev1.chip != CH346C then Probed346(false, dev1)
      else
        match pis.devId
        case None => Probed346(false, dev1)
        case Some(id) =>
          var dev2 := dev1.(devId := id);
          match mode
          case None => Probed346(false, dev2)
          case Some(m) => Probed346(true, dev2.(func := if m == 0 then FuncFifo else FuncSpi))
  }

  /** Success on a ch34x_pis path means a CH346C whose queries all succeeded, in FIFO mode exactly when the mode byte is 0. */
  lemma Ch346Classification(path: string, dev: Ch346Device, pis: PisProbe, mode: Option<Byte>)
    ensures var r := ShowDevMsg346(path, dev, pis, mode);
      && (!Contains(path, "ch34x_pis") ==> r == Probed346(true, dev))
      && (Contains(path, "ch34x_pis") ==>
            && (r.ok <==> pis.versionOk && pis.chip == Some(CH346C) && pis.devId.Some? && mode.Some?)
            && (r.ok ==> r.device.chip == CH346C && r.device.devId == pis.devId.value
                         && (r.device.func == FuncFifo <==> mode.value == 0)))
  {
  }
}
