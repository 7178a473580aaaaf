/** The USBWatchDog class: a handle on the HID transport that every operation
    checks first and that close() drops. Each method performs the source's
    steps on the transport and is proved to have exactly the effect the
    function of the same name in module Protocol describes. */
module Watchdog {
  import opened Types
  import opened Codec
  import opened Hid
  import P = Protocol

  /** The |= accumulation of __set_*_pinglight_buzzer: start from 0, copy a
      bit from the byte just read when no value is given, set it when the
      value is true. */
  method BuildFlags(current: Byte, pinglight: Option<bool>, buzzer: Option<bool>) returns (newval: Byte)
    ensures newval == P.MergeFlags(current, pinglight, buzzer)
  {
    newval := 0;
    if pinglight.None? {
      newval := Or(newval, And(current, P.PINGLIGHT_BIT));
    } else if pinglight.value {
      newval := Or(newval, P.PINGLIGHT_BIT);
    }
    assert newval == if P.MergeFlags(current, pinglight, None) % 2 == 1 then 1 else 0;
    if buzzer.None? {
      newval := Or(newval, And(current, P.BUZZER_BIT));
    } else if buzzer.value {
      newval := Or(newval, P.BUZZER_BIT);
    }
  }

  class USBWatchDog {
    /** The handle (`_h`); null once the watchdog has been closed. */
    var h: HidDevice?
    /** The transport this watchdog was opened on. */
    ghost const dev: HidDevice

    ghost predicate Valid()
      reads this
    {
      h == null || h == dev
    }

    predicate IsOpen()
      reads this
    {
      h != null
    }

    /** __init__ once the transport's open has succeeded. */
    constructor (device: HidDevice)
      ensures Valid() && IsOpen() && dev == device
    {
      h := device;
      dev := device;
    }

    /** __init__: open the dongle by vendor and product id (and serial number
        when one is given); the open's IOError propagates. */
    static method Open(device: HidDevice, serialNumber: Option<string>) returns (r: Result<USBWatchDog>)
      modifies device
      ensures var o := HidOpen(old(device.State()), P.VENDOR_ID, P.PRODUCT_ID, serialNumber);
        && device.State() == o.next
        && (r.Success? <==> o.result.Success?)
        && (r.Failure? ==> r.error == o.result.error)
      ensures r.Success? ==> fresh(r.value) && r.value.Valid() && r.value.IsOpen() && r.value.dev == device
    {
      var status := device.Open(P.VENDOR_ID, P.PRODUCT_ID, serialNumber);
      if status.Failure? {
        return Failure(status.error);
      }
      var w := new USBWatchDog(device);
      r := Success(w);
    }

    method Close() returns (r: Result<()>)
      requires Valid()
      modifies this, dev
      ensures Valid() && !IsOpen()
      ensures Reply(r, dev.State()) == P.Close(old(IsOpen()), old(dev.State()))
    {
      if h == null {
        return Failure(NotOpen);
      }
      h.Close();
      h := null;
      r := Success(());
    }

    // -------------------------------------------------------------------------
    // Framing

    method GetFeatureReport(reportId: int, length: nat) returns (r: Result<seq<Byte>>)
      requires Valid()
      modifies dev
      ensures Valid() && h == old(h)
      ensures Reply(r, dev.State()) == P.GetFeatureReport(old(IsOpen()), old(dev.State()), reportId, length)
    {
      if h == null {
        return Failure(NotOpen);
      }
      var reply := h.GetFeatureReport(reportId, length + 1);
      if reply.Failure? {
        return Failure(reply.error);
      }
      if |reply.value| < length + 1 {
        return Failure(UnexpectedValue);
      }
      r := Success(reply.value[1..length + 1]);
    }

    method SendFeatureReport(data: seq<int>) returns (r: Result<()>)
      requires Valid() && |data| > 0
      modifies dev
      ensures Valid() && h == old(h)
      ensures Reply(r, dev.State()) == P.SendFeatureReport(old(IsOpen()), old(dev.State()), data)
    {
      if h == null {
        return Failure(NotOpen);
      }
      var length := h.SendFeatureReport(data);
      if length.Failure? {
        return Failure(length.error);
      }
      if |data| != length.value {
        return Failure(SendFailed);
      }
      r := Success(());
    }

    method ReadInput(length: int, timeoutMs: int) returns (r: Result<seq<Byte>>)
      requires Valid() && length > 0
      modifies dev
      ensures Valid() && h == old(h)
      ensures Reply(r, dev.State()) == P.ReadInput(old(IsOpen()), old(dev.State()), length, timeoutMs)
    {
      if h == null {
        return Failure(NotOpen);
      }
      var reply := h.Read(length, timeoutMs);
      if reply.Failure? {
        return Failure(reply.error);
      }
      if |reply.value| != length {
        return Failure(UnexpectedValue);
      }
      r := Success(reply.value);
    }

    // -------------------------------------------------------------------------
    // Ping light and buzzer

    method GetNonvolatileLightsBuzzer() returns (r: Result<Byte>)
      requires Valid()
      modifies dev
      ensures Valid() && h == old(h)
      ensures Reply(r, dev.State()) == P.GetLightsBuzzer(old(IsOpen()), old(dev.State()), P.FR_NONVOLATILE_PINGLIGHT_BUZZER)
    {
      var reply := GetFeatureReport(P.FR_NONVOLATILE_PINGLIGHT_BUZZER, P.FR_NONVOLATILE_PINGLIGHT_BUZZER_LEN);
      if reply.Failure? {
        return Failure(reply.error);
      }
      r := Success(reply.value[0]);
    }

    method SetNonvolatilePinglightBuzzer(pinglight: Option<bool>, buzzer: Option<bool>) returns (r: Result<()>)
      requires Valid()
      modifies dev
      ensures Valid() && h == old(h)
      ensures Reply(r, dev.State()) ==
        P.SetPinglightBuzzer(old(IsOpen()), old(dev.State()), P.FR_NONVOLATILE_PINGLIGHT_BUZZER, pinglight, buzzer)
    {
      var val := GetNonvolatileLightsBuzzer();
      if val.Failure? {
        return Failure(val.error);
      }
      var newval := BuildFlags(val.value, pinglight, buzzer);
      r := SendFeatureReport([P.FR_NONVOLATILE_PINGLIGHT_BUZZER, newval]);
    }

    method GetVolatileLightsBuzzer() returns (r: Result<Byte>)
      requires Valid()
      modifies dev
      ensures Valid() && h == old(h)
      ensures Reply(r, dev.State()) == P.GetLightsBuzzer(old(IsOpen()), old(dev.State()), P.FR_VOLATILE_PINGLIGHT_BUZZER)
    {
      var reply := GetFeatureReport(P.FR_VOLATILE_PINGLIGHT_BUZZER, P.FR_VOLATILE_PINGLIGHT_BUZZER_LEN);
      if reply.Failure? {
        return Failure(reply.error);
      }
      r := Success(reply.value[0]);
    }

    method SetVolatilePinglightBuzzer(pinglight: Option<bool>, buzzer: Option<bool>) returns (r: Result<()>)
      requires Valid()
      modifies dev
      ensures Valid() && h == old(h)
      ensures Reply(r, dev.State()) ==
        P.SetPinglightBuzzer(old(IsOpen()), old(dev.State()), P.FR_VOLATILE_PINGLIGHT_BUZZER, pinglight, buzzer)
    {
      var val := GetVolatileLightsBuzzer();
      if val.Failure? {
        return Failure(val.error);
      }
      var newval := BuildFlags(val.value, pinglight, buzzer);
      r := SendFeatureReport([P.FR_VOLATILE_PINGLIGHT_BUZZER, newval]);
    }

    method GetNonvolatilePinglight() returns (r: Result<bool>)
      requires Valid()
      modifies dev
      ensures Valid() && h == old(h)
      ensures Reply(r, dev.State()) ==
        P.GetFlag(old(IsOpen()), old(dev.State()), P.FR_NONVOLATILE_PINGLIGHT_BUZZER, P.PINGLIGHT_BIT)
    {
      var val := GetNonvolatileLightsBuzzer();
      if val.Failure? {
        return Failure(val.error);
      }
      r := Success(HasBit(val.value, P.PINGLIGHT_BIT));
    }

    method SetNonvolatilePinglight(on: bool) returns (r: Result<()>)
      requires Valid()
      modifies dev
      ensures Valid() && h == old(h)
      ensures Reply(r, dev.State()) ==
        P.SetPinglightBuzzer(old(IsOpen()), old(dev.State()), P.FR_NONVOLATILE_PINGLIGHT_BUZZER, Some(on), None)
    {
      r := SetNonvolatilePinglightBuzzer(Some(on), None);
    }

    method GetNonvolatileBuzzer() returns (r: Result<bool>)
      requires Valid()
      modifies dev
      ensures Valid() && h == old(h)
      ensures Reply(r, dev.State()) ==
        P.GetFlag(old(IsOpen()), old(dev.State()), P.FR_NONVOLATILE_PINGLIGHT_BUZZER, P.BUZZER_BIT)
    {
      var val := GetNonvolatileLightsBuzzer();
      if val.Failure? {
        return Failure(val.error);
      }
      r := Success(HasBit(val.value, P.BUZZER_BIT));
    }

    method SetNonvolatileBuzzer(on: bool) returns (r: Result<()>)
      requires Valid()
      modifies dev
      ensures Valid() && h == old(h)
      ensures Reply(r, dev.State()) ==
        P.SetPinglightBuzzer(old(IsOpen()), old(dev.State()), P.FR_NONVOLATILE_PINGLIGHT_BUZZER, None, Some(on))
    {
      r := SetNonvolatilePinglightBuzzer(None, Some(on));
    }

    method GetVolatilePinglight() returns (r: Result<bool>)
      requires Valid()
      modifies dev
      ensures Valid() && h == old(h)
      ensures Reply(r, dev.State()) ==
        P.GetFlag(old(IsOpen()), old(dev.State()), P.FR_VOLATILE_PINGLIGHT_BUZZER, P.PINGLIGHT_BIT)
    {
      var val := GetVolatileLightsBuzzer();
      if val.Failure? {
        return Failure(val.error);
      }
      r := Success(HasBit(val.value, P.PINGLIGHT_BIT));
    }

    method SetVolatilePinglight(on: bool) returns (r: Result<()>)
      requires Valid()
      modifies dev
      ensures Valid() && h == old(h)
      ensures Reply(r, dev.State()) ==
        P.SetPinglightBuzzer(old(IsOpen()), old(dev.State()), P.FR_VOLATILE_PINGLIGHT_BUZZER, Some(on), None)
    {
      r := SetVolatilePinglightBuzzer(Some(on), None);
    }

    method GetVolatileBuzzer() returns (r: Result<bool>)
      requires Valid()
      modifies dev
      ensures Valid() && h == old(h)
      ensures Reply(r, dev.State()) ==
        P.GetFlag(old(IsOpen()), old(dev.State()), P.FR_VOLATILE_PINGLIGHT_BUZZER, P.BUZZER_BIT)
    {
      var val := GetVolatileLightsBuzzer();
      if val.Failure? {
        return Failure(val.error);
      }
      r := Success(HasBit(val.value, P.BUZZER_BIT));
    }

    method SetVolatileBuzzer(on: bool) returns (r: Result<()>)
      requires Valid()
      modifies dev
      ensures Valid() && h == old(h)
      ensures Reply(r, dev.State()) ==
        P.SetPinglightBuzzer(old(IsOpen()), old(dev.State()), P.FR_VOLATILE_PINGLIGHT_BUZZER, None, Some(on))
    {
      r := SetVolatilePinglightBuzzer(None, Some(on));
    }

    // -------------------------------------------------------------------------
    // Identification and the 16-bit timeouts

    method GetVersion() returns (r: Result<(Byte, Byte)>)
      requires Valid()
      modifies dev
      ensures Valid() && h == old(h)
      ensures Reply(r, dev.State()) == P.GetVersion(old(IsOpen()), old(dev.State()))
    {
      var reply := GetFeatureReport(P.FR_VERSION, P.FR_VERSION_LEN);
      if reply.Failure? {
        return Failure(reply.error);
      }
      r := Success((reply.value[0], reply.value[1]));
    }

    method GetSerialNumber() returns (r: Result<string>)
      requires Valid()
      modifies dev
      ensures Valid() && h == old(h)
      ensures Reply(r, dev.State()) == P.GetSerialNumber(old(IsOpen()), old(dev.State()))
    {
      var reply := GetFeatureReport(P.FR_SERIAL_NUMBER, P.FR_SERIAL_NUMBER_LEN);
      if reply.Failure? {
        return Failure(reply.error);
      }
      r := Success(BytesToText(reply.value));
    }

    method SetSerialNumber(serialNumber: string) returns (r: Result<()>)
      requires Valid()
      modifies dev
      ensures Valid() && h == old(h)
      ensures Reply(r, dev.State()) == P.SetSerialNumber(old(IsOpen()), old(dev.State()), serialNumber)
    {
      var current := GetSerialNumber();
      if current.Failure? {
        return Failure(current.error);
      }
      if current.value != P.BLANK_SERIAL_NUMBER {
        return Failure(AlreadySet);
      }
      if !MatchesSerialPattern(serialNumber) {
        return Failure(NotAlphanumeric);
      }
      if |serialNumber| != P.SERIAL_NUMBER_LEN {
        return Failure(WrongLength);
      }
      r := SendFeatureReport([P.FR_SERIAL_NUMBER] + TextToCodes(serialNumber));
    }

    method GetNonvolatileTimeout() returns (r: Result<int>)
      requires Valid()
      modifies dev
      ensures Valid() && h == old(h)
      ensures Reply(r, dev.State()) == P.GetTimeout(old(IsOpen()), old(dev.State()), P.FR_NONVOLATILE_TIMEOUT)
    {
      var reply := GetFeatureReport(P.FR_NONVOLATILE_TIMEOUT, P.FR_NONVOLATILE_TIMEOUT_LEN);
      if reply.Failure? {
        return Failure(reply.error);
      }
      r := Success(ToUint16(reply.value));
    }

    method SetNonvolatileTimeout(value: int) returns (r: Result<()>)
      requires Valid()
      modifies dev
      ensures Valid() && h == old(h)
      ensures Reply(r, dev.State()) == P.SetTimeout(old(IsOpen()), old(dev.State()), P.FR_NONVOLATILE_TIMEOUT, value)
    {
      var bytes := FromUint16(value);
      if bytes.Failure? {
        return Failure(bytes.error);
      }
      r := SendFeatureReport([P.FR_NONVOLATILE_TIMEOUT] + bytes.value);
    }

    method GetVolatileTimeout() returns (r: Result<int>)
      requires Valid()
      modifies dev
      ensures Valid() && h == old(h)
      ensures Reply(r, dev.State()) == P.GetTimeout(old(IsOpen()), old(dev.State()), P.FR_VOLATILE_TIMEOUT)
    {
      var reply := GetFeatureReport(P.FR_VOLATILE_TIMEOUT, P.FR_VOLATILE_TIMEOUT_LEN);
      if reply.Failure? {
        return Failure(reply.error);
      }
      r := Success(ToUint16(reply.value));
    }

    method SetVolatileTimeout(value: int) returns (r: Result<()>)
      requires Valid()
      modifies dev
      ensures Valid() && h == old(h)
      ensures Reply(r, dev.State()) == P.SetTimeout(old(IsOpen()), old(dev.State()), P.FR_VOLATILE_TIMEOUT, value)
    {
      var bytes := FromUint16(value);
      if bytes.Failure? {
        return Failure(bytes.error);
      }
      r := SendFeatureReport([P.FR_VOLATILE_TIMEOUT] + bytes.value);
    }

    // -------------------------------------------------------------------------
    // Buzzer frequency, reboot indicator, beacon mode

    method GetNonvolatileBuzzerFrequency() returns (r: Result<Byte>)
      requires Valid()
      modifies dev
      ensures Valid() && h == old(h)
      ensures Reply(r, dev.State()) == P.GetFrequency(old(IsOpen()), old(dev.State()), P.FR_NONVOLATILE_BUZZER_FREQUENCY)
    {
      var reply := GetFeatureReport(P.FR_NONVOLATILE_BUZZER_FREQUENCY, P.FR_NONVOLATILE_BUZZER_FREQUENCY_LEN);
      if reply.Failure? {
        return Failure(reply.error);
      }
      r := Success(reply.value[0]);
    }

    method SetNonvolatileBuzzerFrequency(value: int) returns (r: Result<()>)
      requires Valid()
      modifies dev
      ensures Valid() && h == old(h)
      ensures Reply(r, dev.State()) == P.SetFrequency(old(IsOpen()), old(dev.State()), P.FR_NONVOLATILE_BUZZER_FREQUENCY, value)
    {
      if value > MAX_UINT8 {
        return Failure(ValueTooLarge);
      }
      r := SendFeatureReport([P.FR_NONVOLATILE_BUZZER_FREQUENCY, value]);
    }

    method GetVolatileBuzzerFrequency() returns (r: Result<Byte>)
      requires Valid()
      modifies dev
      ensures Valid() && h == old(h)
      ensures Reply(r, dev.State()) == P.GetFrequency(old(IsOpen()), old(dev.State()), P.FR_VOLATILE_BUZZER_FREQUENCY)
    {
      var reply := GetFeatureReport(P.FR_VOLATILE_BUZZER_FREQUENCY, P.FR_VOLATILE_BUZZER_FREQUENCY_LEN);
      if reply.Failure? {
        return Failure(reply.error);
      }
      r := Success(reply.value[0]);
    }

    method SetVolatileBuzzerFrequency(value: int) returns (r: Result<()>)
      requires Valid()
      modifies dev
      ensures Valid() && h == old(h)
      ensures Reply(r, dev.State()) == P.SetFrequency(old(IsOpen()), old(dev.State()), P.FR_VOLATILE_BUZZER_FREQUENCY, value)
    {
      if value > MAX_UINT8 {
        return Failure(ValueTooLarge);
      }
      r := SendFeatureReport([P.FR_VOLATILE_BUZZER_FREQUENCY, value]);
    }

    method GetRebootIndicator() returns (r: Result<bool>)
      requires Valid()
      modifies dev
      ensures Valid() && h == old(h)
      ensures Reply(r, dev.State()) == P.GetRebootIndicator(old(IsOpen()), old(dev.State()))
    {
      var reply := GetFeatureReport(P.FR_REBOOT_INDICATOR, P.FR_REBOOT_INDICATOR_LEN);
      if reply.Failure? {
        return Failure(reply.error);
      }
      r := Success(reply.value[0] != 0);
    }

    method SetRebootIndicator() returns (r: Result<()>)
      requires Valid()
      modifies dev
      ensures Valid() && h == old(h)
      ensures Reply(r, dev.State()) == P.SetRebootIndicator(old(IsOpen()), old(dev.State()))
    {
      r := SendFeatureReport([P.FR_REBOOT_INDICATOR, 0x1]);
    }

    method GetNonvolatileBeaconMode() returns (r: Result<bool>)
      requires Valid()
      modifies dev
      ensures Valid() && h == old(h)
      ensures Reply(r, dev.State()) == P.GetBeaconMode(old(IsOpen()), old(dev.State()))
    {
      var reply := GetFeatureReport(P.FR_NONVOLATILE_BEACON_MODE, P.FR_NONVOLATILE_BEACON_MODE_LEN);
      if reply.Failure? {
        return Failure(reply.error);
      }
      r := Success(reply.value[0] != 0);
    }

    method SetNonvolatileBeaconMode(on: bool) returns (r: Result<()>)
      requires Valid()
      modifies dev
      ensures Valid() && h == old(h)
      ensures Reply(r, dev.State()) == P.SetBeaconMode(old(IsOpen()), old(dev.State()), on)
    {
      r := SendFeatureReport([P.FR_NONVOLATILE_BEACON_MODE, if on then 0x1 else 0x0]);
    }

    // -------------------------------------------------------------------------
    // Status and the shared output report

    method GetStatus(timeoutMs: int) returns (r: Result<P.Status>)
      requires Valid()
      modifies dev
      ensures Valid() && h == old(h)
      ensures Reply(r, dev.State()) == P.GetStatus(old(IsOpen()), old(dev.State()), timeoutMs)
    {
      var reply := ReadInput(P.IN_WATCHDOG_STATUS_LEN + 1, timeoutMs);
      if reply.Failure? {
        return Failure(reply.error);
      }
      reply := ReadInput(P.IN_WATCHDOG_STATUS_LEN + 1, timeoutMs);  // the first sample may be stale
      if reply.Failure? {
        return Failure(reply.error);
      }
      r := Success(P.DecodeStatus(reply.value));
    }

    method UpdateWatchdog(timeoutBit: bool, clearAlarmBit: bool) returns (r: Result<()>)
      requires Valid()
      modifies dev
      ensures Valid() && h == old(h)
      ensures Reply(r, dev.State()) == P.UpdateWatchdog(old(IsOpen()), old(dev.State()), timeoutBit, clearAlarmBit)
    {
      if h == null {
        return Failure(NotOpen);
      }
      var val: Byte := 0;
      if timeoutBit {
        val := P.WATCHDOG_OUT_TIMEOUT_BIT;
      }
      if clearAlarmBit {
        val := Or(val, P.WATCHDOG_OUT_CLEARALARM_BIT);
      }
      assert val == P.OutputValue(timeoutBit, clearAlarmBit);
      var length := h.Write([P.OUT_PET_WATCHDOG, val]);
      match length {
        case Failure(e) => return Failure(e);
        case Success(_) =>
      }
      if P.OUT_PET_WATCHDOG_LEN + 1 != length.value {
        return Failure(UnexpectedValue);
      }
      r := Success(());
    }

    /** The clear_alarm argument is not used: the clear-alarm bit is always set. */
    method Pet(clearAlarm: bool) returns (r: Result<()>)
      requires Valid()
      modifies dev
      ensures Valid() && h == old(h)
      ensures Reply(r, dev.State()) == P.Pet(old(IsOpen()), old(dev.State()), clearAlarm)
    {
      r := UpdateWatchdog(true, true);
    }

    method SetBeaconState(triggered: bool) returns (r: Result<()>)
      requires Valid()
      modifies dev
      ensures Valid() && h == old(h)
      ensures Reply(r, dev.State()) == P.SetBeaconState(old(IsOpen()), old(dev.State()), triggered)
    {
      r := UpdateWatchdog(triggered, true);
    }
  }
}
