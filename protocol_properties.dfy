/** Properties of the protocol layer that relate several operations: codecs
    that invert each other, settings that read back what was written, the
    flag merge that leaves the sibling bit alone, and the status flush. */
module ProtocolProperties {
  import opened Types
  import opened Codec
  import opened Hid
  import opened Protocol

  /** Decoding a status report recovers the status the firmware encoded,
      whatever report id byte it carries. */
  lemma {:induction false} StatusRoundTrip(st: Status, reportId: Byte)
    requires 0 <= st.counter <= MAX_UINT16
    ensures DecodeStatus(EncodeStatus(st, reportId)) == st
  {
    var a := EncodeStatus(st, reportId);
    assert a[2..] == [st.counter % 256, st.counter / 256];
    var flags := a[1];
    assert HasBit(flags, WATCHDOG_IN_TIMEOUT_BIT) == st.triggered by {
      if st.triggered { assert flags in {1, 3, 5, 7}; } else { assert flags in {0, 2, 4, 6}; }
    }
    assert HasBit(flags, WATCHDOG_IN_REBOOT_BIT) == st.rebootIndicator by {
      if st.rebootIndicator { assert flags in {2, 3, 6, 7}; } else { assert flags in {0, 1, 4, 5}; }
    }
    assert HasBit(flags, WATCHDOG_IN_NONVOLATILE_BEACON_MODE_BIT) == st.beaconMode by {
      if st.beaconMode { assert flags in {4, 5, 6, 7}; } else { assert flags in {0, 1, 2, 3}; }
    }
  }

  /** With sample A queued before sample B, get_status reports B, never A. */
  lemma {:induction false} StatusFlushesFirstSample(s: HidState, a: seq<Byte>, b: seq<Byte>, rest: seq<seq<Byte>>, timeoutMs: int)
    requires !s.readFaulty && s.inputs == [a, b] + rest
    requires |a| == 4 && |b| == 4
    ensures GetStatus(true, s, timeoutMs).result == Success(DecodeStatus(b))
    ensures DecodeStatus(a) != DecodeStatus(b) ==> GetStatus(true, s, timeoutMs).result != Success(DecodeStatus(a))
    ensures GetStatus(true, s, timeoutMs).next.inputs == rest
  {
    assert s.inputs[1] == b;
    assert s.inputs[2..] == rest;
  }

  /** A timeout in 0..65535 written with set_*_timeout reads back unchanged. */
  lemma {:induction false} TimeoutRoundTrip(s: HidState, reportId: Byte, value: int)
    requires !s.readFaulty && !s.writeFaulty && 0 <= value <= MAX_UINT16
    ensures SetTimeout(true, s, reportId, value).result.Success?
    ensures GetTimeout(true, SetTimeout(true, s, reportId, value).next, reportId).result == Success(value)
  {
    var w := SetTimeout(true, s, reportId, value);
    var data := [reportId, value % 256, value / 256];
    assert AllBytes(data);
    var g := GetFeatureReport(true, w.next, reportId, 2);
    assert g.result.value == [value % 256, value / 256];
  }

  /** A frequency written with set_*_buzzer_frequency reads back unchanged,
      for every byte value: the setter itself does not enforce the 42 lower
      bound that check_frequency applies. */
  lemma {:induction false} FrequencyRoundTrip(s: HidState, reportId: Byte, value: int)
    requires !s.readFaulty && !s.writeFaulty && 0 <= value <= MAX_UINT8
    ensures SetFrequency(true, s, reportId, value).result.Success?
    ensures GetFrequency(true, SetFrequency(true, s, reportId, value).next, reportId).result == Success(value)
    ensures value < MIN_FREQUENCY ==> CheckFrequency(value).None?
  {
    var w := SetFrequency(true, s, reportId, value);
    assert AllBytes([reportId, value]);
    var g := GetFeatureReport(true, w.next, reportId, 1);
    assert g.result.value == [value];
  }

  /** Setting the ping light leaves the buzzer bit as it was, for each of the
      four prior combinations, and the ping light reads back as set. */
  lemma {:induction false} PinglightKeepsBuzzer(s: HidState, reportId: Byte, on: bool)
    requires SetPinglightBuzzer(true, s, reportId, Some(on), None).result.Success?
    ensures var t := SetPinglightBuzzer(true, s, reportId, Some(on), None).next;
      && GetFlag(true, t, reportId, PINGLIGHT_BIT).result == Success(on)
      && GetFlag(true, t, reportId, BUZZER_BIT).result == GetFlag(true, s, reportId, BUZZER_BIT).result
  {
    var t := SetPinglightBuzzer(true, s, reportId, Some(on), None).next;
    assert t.features[reportId][1] == MergeFlags(s.features[reportId][1], Some(on), None);
  }

  /** Setting the buzzer leaves the ping-light bit as it was. */
  lemma {:induction false} BuzzerKeepsPinglight(s: HidState, reportId: Byte, on: bool)
    requires SetPinglightBuzzer(true, s, reportId, None, Some(on)).result.Success?
    ensures var t := SetPinglightBuzzer(true, s, reportId, None, Some(on)).next;
      && GetFlag(true, t, reportId, BUZZER_BIT).result == Success(on)
      && GetFlag(true, t, reportId, PINGLIGHT_BIT).result == GetFlag(true, s, reportId, PINGLIGHT_BIT).result
  {
    var t := SetPinglightBuzzer(true, s, reportId, None, Some(on)).next;
    assert t.features[reportId][1] == MergeFlags(s.features[reportId][1], None, Some(on));
  }

  /** The flags register can be read while the device refuses the write:
      the merged report is still sent and logged after the read, the call
      fails with "data send failed", and the register keeps its old value. */
  lemma {:induction false} FlagsSendFailure(s: HidState, reportId: Byte, pinglight: Option<bool>, buzzer: Option<bool>)
    requires GetLightsBuzzer(true, s, reportId).result.Success? && s.writeFaulty
    ensures var r := SetPinglightBuzzer(true, s, reportId, pinglight, buzzer);
      && r.result == Failure(SendFailed)
      && r.next.log == s.log + [GetFeature(reportId, 2),
                                SendFeature([reportId, MergeFlags(s.features[reportId][1], pinglight, buzzer)])]
      && r.next.features == s.features
  {
  }

  /** When the device does not take the whole output report, the write count
      differs from 2 and __update_watchdog reports an unexpected value, after
      the write was made. */
  lemma {:induction false} ShortWriteFails(s: HidState, timeoutBit: bool, clearAlarmBit: bool)
    requires s.writeFaulty
    ensures var r := UpdateWatchdog(true, s, timeoutBit, clearAlarmBit);
      && r.result == Failure(UnexpectedValue)
      && r.next.log == s.log + [Write([OUT_PET_WATCHDOG, OutputValue(timeoutBit, clearAlarmBit)])]
  {
  }

  /** A serial number accepted by set_serial_number reads back unchanged. */
  lemma {:induction false} SerialNumberRoundTrip(s: HidState, serialNumber: string)
    requires SetSerialNumber(true, s, serialNumber).result.Success?
    ensures GetSerialNumber(true, SetSerialNumber(true, s, serialNumber).next).result == Success(serialNumber)
  {
    var t := SetSerialNumber(true, s, serialNumber).next;
    var written := [FR_SERIAL_NUMBER] + TextToCodes(serialNumber);
    assert t.features[FR_SERIAL_NUMBER] == written;
    var g := GetFeatureReport(true, t, FR_SERIAL_NUMBER, FR_SERIAL_NUMBER_LEN);
    assert g.result.value == TextToCodes(serialNumber);
    assert BytesToText(g.result.value) == serialNumber;
  }

  /** Once the register holds anything but the blank sentinel, every new
      serial number is refused as already set, valid or not, and nothing is sent. */
  lemma {:induction false} SerialNumberSetOnce(s: HidState, serialNumber: string)
    requires GetSerialNumber(true, s).result.Success?
    requires GetSerialNumber(true, s).result.value != BLANK_SERIAL_NUMBER
    ensures SetSerialNumber(true, s, serialNumber) == Reply(Failure(AlreadySet), GetSerialNumber(true, s).next)
  {
  }

  /** A serial number that passes every check on a blank register, sent to
      a device that refuses the transfer: the report is still sent after the
      register read, and the call fails with "data send failed". */
  lemma {:induction false} SerialNumberSendFailure(s: HidState, serialNumber: string)
    requires GetSerialNumber(true, s).result == Success(BLANK_SERIAL_NUMBER)
    requires MatchesSerialPattern(serialNumber) && |serialNumber| == SERIAL_NUMBER_LEN && s.writeFaulty
    ensures var r := SetSerialNumber(true, s, serialNumber);
      && r.result == Failure(SendFailed)
      && r.next.log == s.log + [GetFeature(FR_SERIAL_NUMBER, FR_SERIAL_NUMBER_LEN + 1),
                                SendFeature([FR_SERIAL_NUMBER] + TextToCodes(serialNumber))]
      && r.next.features == s.features
  {
  }

  /** A 20-character serial number is sent as 21 bytes: the report id, then
      the code of each character in order. */
  lemma {:induction false} SerialNumberReport(s: HidState, serialNumber: string)
    requires SetSerialNumber(true, s, serialNumber).result.Success?
    ensures var log := SetSerialNumber(true, s, serialNumber).next.log;
      && |log| == |s.log| + 2
      && log[|s.log| + 1].SendFeature?
      && var data := log[|s.log| + 1].data;
      && |data| == 21 && data[0] == FR_SERIAL_NUMBER
      && forall i :: 0 <= i < 20 ==> data[i + 1] == serialNumber[i] as int
  {
  }

  /** The beacon-mode register reads back the state written. */
  lemma {:induction false} BeaconModeRoundTrip(s: HidState, on: bool)
    requires !s.readFaulty && !s.writeFaulty
    ensures SetBeaconMode(true, s, on).result.Success?
    ensures GetBeaconMode(true, SetBeaconMode(true, s, on).next).result == Success(on)
  {
    var t := SetBeaconMode(true, s, on).next;
    assert AllBytes([FR_NONVOLATILE_BEACON_MODE, if on then 1 else 0]);
    var g := GetFeatureReport(true, t, FR_NONVOLATILE_BEACON_MODE, 1);
    assert g.result.value == [if on then 1 else 0];
  }

  /** pet and set_beacon_state(True) put the same bytes on the wire: the
      device cannot tell them apart. */
  lemma {:induction false} PetIsBeaconOn(s: HidState, clearAlarm: bool)
    ensures Pet(true, s, clearAlarm) == SetBeaconState(true, s, true)
    ensures Pet(true, s, clearAlarm) == Pet(true, s, !clearAlarm)
  {
  }
}
