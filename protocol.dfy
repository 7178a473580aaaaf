/** What each operation of the USBWatchDog class does, as a function of
    whether the handle is open and of the transport state before the call.
    The class in module Watchdog carries out the same steps imperatively and
    is proved to agree with these functions; the action layer is specified
    by composing them. */
module Protocol {
  import opened Types
  import opened Codec
  import opened Hid

  /** The USB ids __init__ opens the dongle by. */
  const VENDOR_ID := 0x16D0
  const PRODUCT_ID := 0x0776

  // ---------------------------------------------------------------------------
  // Report table: feature-report ids and payload lengths, input and output reports

  const FR_VERSION := 0x1
  const FR_VERSION_LEN := 2
  const FR_SERIAL_NUMBER := 0x2
  const FR_SERIAL_NUMBER_LEN := 20
  const SERIAL_NUMBER_LEN := 20
  const FR_NONVOLATILE_TIMEOUT := 0x3
  const FR_NONVOLATILE_TIMEOUT_LEN := 2
  const FR_VOLATILE_TIMEOUT := 0x4
  const FR_VOLATILE_TIMEOUT_LEN := 2
  const FR_NONVOLATILE_PINGLIGHT_BUZZER := 0x5
  const FR_NONVOLATILE_PINGLIGHT_BUZZER_LEN := 1
  const FR_VOLATILE_PINGLIGHT_BUZZER := 0x6
  const FR_VOLATILE_PINGLIGHT_BUZZER_LEN := 1
  const PINGLIGHT_BIT := 0x1
  const BUZZER_BIT := 0x2
  const FR_NONVOLATILE_BUZZER_FREQUENCY := 0x7
  const FR_NONVOLATILE_BUZZER_FREQUENCY_LEN := 1
  const FR_VOLATILE_BUZZER_FREQUENCY := 0x8
  const FR_VOLATILE_BUZZER_FREQUENCY_LEN := 1
  const FR_REBOOT_INDICATOR := 0x9
  const FR_REBOOT_INDICATOR_LEN := 1
  const FR_NONVOLATILE_BEACON_MODE := 0xA
  const FR_NONVOLATILE_BEACON_MODE_LEN := 1

  const IN_WATCHDOG_STATUS := 0x1
  const IN_WATCHDOG_STATUS_LEN := 3
  const WATCHDOG_IN_TIMEOUT_BIT := 0x1
  const WATCHDOG_IN_REBOOT_BIT := 0x2
  const WATCHDOG_IN_NONVOLATILE_BEACON_MODE_BIT := 0x4

  const OUT_PET_WATCHDOG := 0x1
  const OUT_PET_WATCHDOG_LEN := 1
  const WATCHDOG_OUT_TIMEOUT_BIT := 0x1
  const WATCHDOG_OUT_CLEARALARM_BIT := 0x2

  /** The value a serial-number register holds before a serial number is assigned. */
  const BLANK_SERIAL_NUMBER := "00000000000000000000"
  const DEFAULT_STATUS_TIMEOUT_MS := 2000

  /** The decoded watchdog status input report. */
  datatype Status = Status(triggered: bool, rebootIndicator: bool, beaconMode: bool, counter: int)

  // ---------------------------------------------------------------------------
  // Report framing

  /** __get_feature_report: asks for length+1 bytes, fails when fewer come
      back, and returns bytes 1..length (a longer reply is truncated). */
  function GetFeatureReport(open: bool, s: HidState, reportId: int, length: nat): (r: Reply<seq<Byte>>)
    ensures !open ==> r == Reply(Failure(NotOpen), s)
    ensures open ==> r.next == s.(log := s.log + [GetFeature(reportId, length + 1)])
    ensures r.result.Success? <==>
      open && !s.readFaulty && reportId in s.features && |s.features[reportId]| >= length + 1
    ensures r.result.Success? ==> r.result.value == s.features[reportId][1..length + 1]
  {
    if !open then Reply(Failure(NotOpen), s)
    else
      var t := HidGetFeatureReport(s, reportId, length + 1);
      if t.result.Failure? then Reply(Failure(t.result.error), t.next)
      else if |t.result.value| < length + 1 then Reply(Failure(UnexpectedValue), t.next)
      else Reply(Success(t.result.value[1..length + 1]), t.next)
  }

  /** __send_feature_report: fails unless the transport reports the whole
      list (report id included) as written. */
  function SendFeatureReport(open: bool, s: HidState, data: seq<int>): (r: Reply<()>)
    requires |data| > 0
    ensures !open ==> r == Reply(Failure(NotOpen), s)
    ensures r.result.Success? <==> open && AllBytes(data) && !s.writeFaulty
    ensures open && AllBytes(data) ==> r.next.log == s.log + [SendFeature(data)]
    ensures r.result.Success? ==>
      && data[0] in r.next.features && r.next.features[data[0]] == data
      && r.next == s.(features := s.features[data[0] := r.next.features[data[0]]],
                      log := s.log + [SendFeature(data)])
    ensures r.next.inputs == s.inputs && r.next.present == s.present
    ensures r.next.readFaulty == s.readFaulty && r.next.writeFaulty == s.writeFaulty
  {
    if !open then Reply(Failure(NotOpen), s)
    else
      var t := HidSendFeatureReport(s, data);
      if t.result.Failure? then Reply(Failure(t.result.error), t.next)
      else if |data| != t.result.value then Reply(Failure(SendFailed), t.next)
      else Reply(Success(()), t.next)
  }

  /** __read_input: one read that must return exactly `length` bytes. */
  function ReadInput(open: bool, s: HidState, length: int, timeoutMs: int): (r: Reply<seq<Byte>>)
    requires length > 0
    ensures !open ==> r == Reply(Failure(NotOpen), s)
    ensures open ==> r.next.log == s.log + [Read(length, timeoutMs)]
    ensures r.result.Success? <==> open && !s.readFaulty && s.inputs != [] && |s.inputs[0]| == length
    ensures r.result.Success? ==> r.result.value == s.inputs[0] && r.next.inputs == s.inputs[1..]
    ensures r.next.features == s.features && r.next.present == s.present
    ensures r.next.readFaulty == s.readFaulty && r.next.writeFaulty == s.writeFaulty
  {
    if !open then Reply(Failure(NotOpen), s)
    else
      var t := HidRead(s, length, timeoutMs);
      if t.result.Failure? then Reply(Failure(t.result.error), t.next)
      else if |t.result.value| != length then Reply(Failure(UnexpectedValue), t.next)
      else Reply(Success(t.result.value), t.next)
  }

  /** Closing: fails when the handle is already gone; otherwise the transport is closed. */
  function Close(open: bool, s: HidState): (r: Reply<()>)
    ensures r.result.Success? <==> open
    ensures r.result.Failure? ==> r == Reply(Failure(NotOpen), s)
    ensures r.result.Success? ==> r.next.log == s.log + [Call.Close]
  {
    if !open then Reply(Failure(NotOpen), s) else Reply(Success(()), HidClose(s))
  }

  // ---------------------------------------------------------------------------
  // Ping light and buzzer flags (one byte per persistence class)

  /** __get_*_lights_buzzer: the one-byte flags register. */
  function GetLightsBuzzer(open: bool, s: HidState, reportId: int): (r: Reply<Byte>)
    ensures r.next == GetFeatureReport(open, s, reportId, 1).next
    ensures r.result.Success? <==> GetFeatureReport(open, s, reportId, 1).result.Success?
    ensures r.result.Success? ==> r.result.value == s.features[reportId][1]
  {
    var g := GetFeatureReport(open, s, reportId, 1);
    if g.result.Failure? then Reply(Failure(g.result.error), g.next)
    else Reply(Success(g.result.value[0]), g.next)
  }

  /** get_*_pinglight and get_*_buzzer: one bit of the flags register. */
  function GetFlag(open: bool, s: HidState, reportId: int, mask: Byte): (r: Reply<bool>)
    ensures r.next == GetFeatureReport(open, s, reportId, 1).next
    ensures r.result.Success? <==> GetFeatureReport(open, s, reportId, 1).result.Success?
    ensures r.result.Success? ==> r.result.value == HasBit(s.features[reportId][1], mask)
  {
    var g := GetLightsBuzzer(open, s, reportId);
    if g.result.Failure? then Reply(Failure(g.result.error), g.next)
    else Reply(Success(HasBit(g.result.value, mask)), g.next)
  }

  /** The byte __set_*_pinglight_buzzer writes: the ping-light bit (0x1) and the
      buzzer bit (0x2) take the given value, or keep the one just read when
      none is given; every other bit is cleared. */
  function MergeFlags(current: Byte, pinglight: Option<bool>, buzzer: Option<bool>): (r: Byte)
    ensures HasBit(r, PINGLIGHT_BIT) == if pinglight.Some? then pinglight.value else HasBit(current, PINGLIGHT_BIT)
    ensures HasBit(r, BUZZER_BIT) == if buzzer.Some? then buzzer.value else HasBit(current, BUZZER_BIT)
    ensures r < 4
  {
    var light := if pinglight.Some? then pinglight.value else HasBit(current, PINGLIGHT_BIT);
    var buzz := if buzzer.Some? then buzzer.value else HasBit(current, BUZZER_BIT);
    (if light then 1 else 0) + (if buzz then 2 else 0)
  }

  /** __set_*_pinglight_buzzer: read the flags byte, then write it back merged. */
  function SetPinglightBuzzer(open: bool, s: HidState, reportId: Byte, pinglight: Option<bool>, buzzer: Option<bool>): (r: Reply<()>)
    ensures !open ==> r == Reply(Failure(NotOpen), s)
    ensures r.result.Success? <==>
      open && !s.readFaulty && !s.writeFaulty && reportId in s.features && |s.features[reportId]| >= 2
    ensures r.result.Success? ==>
      var written := [reportId, MergeFlags(s.features[reportId][1], pinglight, buzzer)];
      && r.next.log == s.log + [GetFeature(reportId, 2), SendFeature(written)]
      && r.next.features == s.features[reportId := written]
      && r.next.inputs == s.inputs
  {
    var g := GetLightsBuzzer(open, s, reportId);
    if g.result.Failure? then Reply(Failure(g.result.error), g.next)
    else SendFeatureReport(open, g.next, [reportId, MergeFlags(g.result.value, pinglight, buzzer)])
  }

  // ---------------------------------------------------------------------------
  // Other feature reports

  /** get_version: the two version bytes. */
  function GetVersion(open: bool, s: HidState): (r: Reply<(Byte, Byte)>)
    ensures r.next == GetFeatureReport(open, s, FR_VERSION, FR_VERSION_LEN).next
    ensures r.result.Success? <==> GetFeatureReport(open, s, FR_VERSION, FR_VERSION_LEN).result.Success?
    ensures r.result.Success? ==> r.result.value == (s.features[FR_VERSION][1], s.features[FR_VERSION][2])
  {
    var g := GetFeatureReport(open, s, FR_VERSION, FR_VERSION_LEN);
    if g.result.Failure? then Reply(Failure(g.result.error), g.next)
    else Reply(Success((g.result.value[0], g.result.value[1])), g.next)
  }

  /** get_serial_number: the 20 bytes of the register, one character each. */
  function GetSerialNumber(open: bool, s: HidState): (r: Reply<string>)
    ensures r.next == GetFeatureReport(open, s, FR_SERIAL_NUMBER, FR_SERIAL_NUMBER_LEN).next
    ensures r.result.Success? <==> GetFeatureReport(open, s, FR_SERIAL_NUMBER, FR_SERIAL_NUMBER_LEN).result.Success?
    ensures r.result.Success? ==>
      |r.result.value| == SERIAL_NUMBER_LEN &&
      forall i :: 0 <= i < SERIAL_NUMBER_LEN ==> r.result.value[i] as int == s.features[FR_SERIAL_NUMBER][i + 1]
  {
    var g := GetFeatureReport(open, s, FR_SERIAL_NUMBER, FR_SERIAL_NUMBER_LEN);
    if g.result.Failure? then Reply(Failure(g.result.error), g.next)
    else Reply(Success(BytesToText(g.result.value)), g.next)
  }

  /** set_serial_number: refuses unless the register still holds the blank
      sentinel, then checks the pattern, then the length, and sends the
      report id followed by the code of each character. */
  function SetSerialNumber(open: bool, s: HidState, serialNumber: string): (r: Reply<()>)
    ensures !open ==> r == Reply(Failure(NotOpen), s)
    ensures r.result.Success? <==>
      && GetSerialNumber(open, s).result == Success(BLANK_SERIAL_NUMBER)
      && MatchesSerialPattern(serialNumber) && |serialNumber| == SERIAL_NUMBER_LEN
      && !s.writeFaulty
    ensures var current := GetSerialNumber(open, s);
      && (current.result.Success? && current.result.value != BLANK_SERIAL_NUMBER ==>
            r == Reply(Failure(AlreadySet), current.next))
      && (current.result == Success(BLANK_SERIAL_NUMBER) && !MatchesSerialPattern(serialNumber) ==>
            r == Reply(Failure(NotAlphanumeric), current.next))
      && (current.result == Success(BLANK_SERIAL_NUMBER) && MatchesSerialPattern(serialNumber)
            && |serialNumber| != SERIAL_NUMBER_LEN ==>
            r == Reply(Failure(WrongLength), current.next))
    ensures r.result.Success? ==>
      var written := [FR_SERIAL_NUMBER] + TextToCodes(serialNumber);
      && |written| == SERIAL_NUMBER_LEN + 1
      && r.next.log == s.log + [GetFeature(FR_SERIAL_NUMBER, FR_SERIAL_NUMBER_LEN + 1), SendFeature(written)]
      && r.next.features == s.features[FR_SERIAL_NUMBER := written]
  {
    var current := GetSerialNumber(open, s);
    if current.result.Failure? then Reply(Failure(current.result.error), current.next)
    else if current.result.value != BLANK_SERIAL_NUMBER then Reply(Failure(AlreadySet), current.next)
    else if !MatchesSerialPattern(serialNumber) then Reply(Failure(NotAlphanumeric), current.next)
    else if |serialNumber| != SERIAL_NUMBER_LEN then Reply(Failure(WrongLength), current.next)
    else
      MatchedCharsAreAscii(serialNumber);
      SendFeatureReport(open, current.next, [FR_SERIAL_NUMBER] + TextToCodes(serialNumber))
  }

  /** get_*_timeout: the little-endian 16-bit register. */
  function GetTimeout(open: bool, s: HidState, reportId: int): (r: Reply<int>)
    ensures r.next == GetFeatureReport(open, s, reportId, 2).next
    ensures r.result.Success? <==> GetFeatureReport(open, s, reportId, 2).result.Success?
    ensures r.result.Success? ==>
      0 <= r.result.value <= MAX_UINT16 &&
      r.result.value == (s.features[reportId][1] as int) + 256 * (s.features[reportId][2] as int)
  {
    var g := GetFeatureReport(open, s, reportId, 2);
    if g.result.Failure? then Reply(Failure(g.result.error), g.next)
    else Reply(Success(ToUint16(g.result.value)), g.next)
  }

  /** set_*_timeout: the value is encoded (and refused above 2**16 - 1) before
      the handle is checked. */
  function SetTimeout(open: bool, s: HidState, reportId: int, value: int): (r: Reply<()>)
    ensures value > MAX_UINT16 ==> r == Reply(Failure(ValueTooLarge), s)
    ensures value <= MAX_UINT16 ==> r == SendFeatureReport(open, s, [reportId, value % 256, value / 256])
  {
    var e := FromUint16(value);
    if e.Failure? then Reply(Failure(e.error), s)
    else
      assert [reportId] + e.value == [reportId, value % 256, value / 256];
      SendFeatureReport(open, s, [reportId] + e.value)
  }

  /** get_*_buzzer_frequency: the one-byte register. */
  function GetFrequency(open: bool, s: HidState, reportId: int): (r: Reply<Byte>)
    ensures r.next == GetFeatureReport(open, s, reportId, 1).next
    ensures r.result.Success? <==> GetFeatureReport(open, s, reportId, 1).result.Success?
    ensures r.result.Success? ==> r.result.value == s.features[reportId][1]
  {
    GetLightsBuzzer(open, s, reportId)
  }

  /** set_*_buzzer_frequency: only values above 255 are refused, before the
      handle is checked. That get_*_buzzer_frequency then reads the value back
      is ProtocolProperties.FrequencyRoundTrip. */
  function SetFrequency(open: bool, s: HidState, reportId: int, value: int): (r: Reply<()>)
    ensures value > MAX_UINT8 ==> r == Reply(Failure(ValueTooLarge), s)
    ensures value <= MAX_UINT8 ==> r == SendFeatureReport(open, s, [reportId, value])
  {
    if value > MAX_UINT8 then Reply(Failure(ValueTooLarge), s)
    else SendFeatureReport(open, s, [reportId, value])
  }

  /** get_reboot_indicator: true when the register's byte is non-zero. */
  function GetRebootIndicator(open: bool, s: HidState): (r: Reply<bool>)
    ensures r.next == GetFeatureReport(open, s, FR_REBOOT_INDICATOR, FR_REBOOT_INDICATOR_LEN).next
    ensures r.result.Success? <==> GetFeatureReport(open, s, FR_REBOOT_INDICATOR, FR_REBOOT_INDICATOR_LEN).result.Success?
    ensures r.result.Success? ==> r.result.value == (s.features[FR_REBOOT_INDICATOR][1] != 0)
  {
    var g := GetFeatureReport(open, s, FR_REBOOT_INDICATOR, FR_REBOOT_INDICATOR_LEN);
    if g.result.Failure? then Reply(Failure(g.result.error), g.next)
    else Reply(Success(g.result.value[0] != 0), g.next)
  }

  /** set_reboot_indicator: always writes 1, which the firmware takes as "clear".
      That the register then holds 1 after a successful general_configure is
      the reboot-indicator clause of ActionProperties.ConfigureReadsBack. */
  function SetRebootIndicator(open: bool, s: HidState): (r: Reply<()>)
    ensures r == SendFeatureReport(open, s, [FR_REBOOT_INDICATOR, 1])
  {
    SendFeatureReport(open, s, [FR_REBOOT_INDICATOR, 0x1])
  }

  /** get_nonvolatile_beacon_mode: true when the register's byte is non-zero. */
  function GetBeaconMode(open: bool, s: HidState): (r: Reply<bool>)
    ensures r.next == GetFeatureReport(open, s, FR_NONVOLATILE_BEACON_MODE, FR_NONVOLATILE_BEACON_MODE_LEN).next
    ensures r.result.Success? <==> GetFeatureReport(open, s, FR_NONVOLATILE_BEACON_MODE, FR_NONVOLATILE_BEACON_MODE_LEN).result.Success?
    ensures r.result.Success? ==> r.result.value == (s.features[FR_NONVOLATILE_BEACON_MODE][1] != 0)
  {
    var g := GetFeatureReport(open, s, FR_NONVOLATILE_BEACON_MODE, FR_NONVOLATILE_BEACON_MODE_LEN);
    if g.result.Failure? then Reply(Failure(g.result.error), g.next)
    else Reply(Success(g.result.value[0] != 0), g.next)
  }

  /** set_nonvolatile_beacon_mode: writes 1 for on and 0 for off. That
      get_nonvolatile_beacon_mode then reads the same mode back is
      ProtocolProperties.BeaconModeRoundTrip. */
  function SetBeaconMode(open: bool, s: HidState, on: bool): (r: Reply<()>)
    ensures r == SendFeatureReport(open, s, [FR_NONVOLATILE_BEACON_MODE, if on then 1 else 0])
  {
    SendFeatureReport(open, s, [FR_NONVOLATILE_BEACON_MODE, if on then 0x1 else 0x0])
  }

  // ---------------------------------------------------------------------------
  // Status input report and the shared output report

  /** Bytes of one status input report: [report id, flags, counter low, counter high]. */
  function DecodeStatus(a: seq<Byte>): Status
    requires |a| == IN_WATCHDOG_STATUS_LEN + 1
  {
    Status(
      HasBit(a[1], WATCHDOG_IN_TIMEOUT_BIT),
      HasBit(a[1], WATCHDOG_IN_REBOOT_BIT),
      HasBit(a[1], WATCHDOG_IN_NONVOLATILE_BEACON_MODE_BIT),
      ToUint16(a[2..]))
  }

  /** The report the firmware sends for a status; its first byte is not inspected. */
  function EncodeStatus(st: Status, reportId: Byte): (a: seq<Byte>)
    requires 0 <= st.counter <= MAX_UINT16
    ensures |a| == IN_WATCHDOG_STATUS_LEN + 1
  {
    [reportId,
     (if st.triggered then 1 else 0) + (if st.rebootIndicator then 2 else 0) + (if st.beaconMode then 4 else 0),
     st.counter % 256,
     st.counter / 256]
  }

  /** get_status: two reads of the 4-byte input report; the first only flushes
      a stale sample and just the second is decoded. */
  function GetStatus(open: bool, s: HidState, timeoutMs: int): (r: Reply<Status>)
    ensures !open ==> r == Reply(Failure(NotOpen), s)
    ensures r.result.Success? <==>
      open && !s.readFaulty && |s.inputs| >= 2 &&
      |s.inputs[0]| == IN_WATCHDOG_STATUS_LEN + 1 && |s.inputs[1]| == IN_WATCHDOG_STATUS_LEN + 1
    ensures r.result.Success? ==>
      && r.result.value == DecodeStatus(s.inputs[1])
      && r.next.inputs == s.inputs[2..]
      && r.next.log == s.log + [Read(4, timeoutMs), Read(4, timeoutMs)]
    ensures open ==>
      r.next.log == s.log + [Read(4, timeoutMs)] || r.next.log == s.log + [Read(4, timeoutMs), Read(4, timeoutMs)]
    ensures r.next.features == s.features && r.next.present == s.present
    ensures r.next.readFaulty == s.readFaulty && r.next.writeFaulty == s.writeFaulty
  {
    var first := ReadInput(open, s, IN_WATCHDOG_STATUS_LEN + 1, timeoutMs);
    if first.result.Failure? then Reply(Failure(first.result.error), first.next)
    else
      var second := ReadInput(open, first.next, IN_WATCHDOG_STATUS_LEN + 1, timeoutMs);
      if second.result.Failure? then Reply(Failure(second.result.error), second.next)
      else Reply(Success(DecodeStatus(second.result.value)), second.next)
  }

  /** The byte of the pet output report: 0x1 the timeout bit, 0x2 the clear-alarm bit. */
  function OutputValue(timeoutBit: bool, clearAlarmBit: bool): (r: Byte)
    ensures HasBit(r, WATCHDOG_OUT_TIMEOUT_BIT) == timeoutBit
    ensures HasBit(r, WATCHDOG_OUT_CLEARALARM_BIT) == clearAlarmBit
    ensures r < 4
  {
    (if timeoutBit then 1 else 0) + (if clearAlarmBit then 2 else 0)
  }

  /** __update_watchdog: writes [OUT_PET_WATCHDOG, value]; fails unless the
      transport reports both bytes written. */
  function UpdateWatchdog(open: bool, s: HidState, timeoutBit: bool, clearAlarmBit: bool): (r: Reply<()>)
    ensures !open ==> r == Reply(Failure(NotOpen), s)
    ensures open ==> r.next == s.(log := s.log + [Write([OUT_PET_WATCHDOG, OutputValue(timeoutBit, clearAlarmBit)])])
    ensures r.result.Success? <==> open && !s.writeFaulty
  {
    if !open then Reply(Failure(NotOpen), s)
    else
      var t := HidWrite(s, [OUT_PET_WATCHDOG, OutputValue(timeoutBit, clearAlarmBit)]);
      if t.result.Failure? then Reply(Failure(t.result.error), t.next)
      else if OUT_PET_WATCHDOG_LEN + 1 != t.result.value then Reply(Failure(UnexpectedValue), t.next)
      else Reply(Success(()), t.next)
  }

  /** pet: the argument is ignored; the report is always [0x1, 0x3]. */
  function Pet(open: bool, s: HidState, clearAlarm: bool): (r: Reply<()>)
    ensures !open ==> r == Reply(Failure(NotOpen), s)
    ensures open ==> r.next == s.(log := s.log + [Write([0x1, 0x3])])
    ensures r.result.Success? <==> open && !s.writeFaulty
  {
    UpdateWatchdog(open, s, true, true)
  }

  /** set_beacon_state: the same output report, the timeout bit carrying the state. */
  function SetBeaconState(open: bool, s: HidState, triggered: bool): (r: Reply<()>)
    ensures !open ==> r == Reply(Failure(NotOpen), s)
    ensures open ==> r.next == s.(log := s.log + [Write([0x1, if triggered then 0x3 else 0x2])])
    ensures r.result.Success? <==> open && !s.writeFaulty
  {
    UpdateWatchdog(open, s, triggered, true)
  }
}
