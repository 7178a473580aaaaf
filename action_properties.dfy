/** Properties of the action layer: what print_settings reads, that the
    settings general_configure writes read back, which calls each handler
    makes, the exit statuses, and main's close. */
module ActionProperties {
  import opened Types
  import opened Codec
  import opened Hid
  import P = Protocol
  import PP = ProtocolProperties
  import opened Actions

  // ---------------------------------------------------------------------------
  // print_settings only reads

  /** The feature-report requests print_settings' eleven getters make, in
      order: the report id and the length asked for, which is the payload
      length plus the report-id byte. */
  const PRINT_REQUESTS: seq<Call> := [
    GetFeature(P.FR_SERIAL_NUMBER, 21),
    GetFeature(P.FR_NONVOLATILE_TIMEOUT, 3), GetFeature(P.FR_VOLATILE_TIMEOUT, 3),
    GetFeature(P.FR_NONVOLATILE_PINGLIGHT_BUZZER, 2), GetFeature(P.FR_NONVOLATILE_PINGLIGHT_BUZZER, 2),
    GetFeature(P.FR_VOLATILE_PINGLIGHT_BUZZER, 2), GetFeature(P.FR_VOLATILE_PINGLIGHT_BUZZER, 2),
    GetFeature(P.FR_NONVOLATILE_BUZZER_FREQUENCY, 2), GetFeature(P.FR_VOLATILE_BUZZER_FREQUENCY, 2),
    GetFeature(P.FR_NONVOLATILE_BEACON_MODE, 2), GetFeature(P.FR_REBOOT_INDICATOR, 2)]

  /** The device answers the getter at position k: its register is there with
      at least as many bytes as the getter asks for. */
  ghost predicate Readable(s: HidState, k: nat)
    requires k < |PRINT_REQUESTS|
  {
    var request := PRINT_REQUESTS[k];
    request.reportId in s.features && |s.features[request.reportId]| >= request.maxLength
  }

  lemma {:induction false} ReadSettingEffect(s: HidState, k: nat)
    requires k < QUERIES_COUNT
    ensures var r := ReadSetting(true, s, k);
      && r.next == s.(log := s.log + [PRINT_REQUESTS[k]])
      && (r.result.Success? <==> !s.readFaulty && Readable(s, k))
  {
  }

  lemma AppendAssociates<T>(a: seq<T>, b: seq<T>, c: seq<T>)
    ensures a + b + c == a + (b + c)
  {
  }

  lemma {:induction false} SuffixStep<T>(a: seq<T>, k: nat)
    requires k < |a|
    ensures a[k..] == [a[k]] + a[k + 1..]
  {
  }

  /** Every getter from position k on is answered. */
  ghost predicate ReadableFrom(s: HidState, k: nat) {
    forall j :: k <= j < QUERIES_COUNT ==> Readable(s, j)
  }

  lemma {:induction false} ReadableFromStep(s: HidState, t: HidState, k: nat)
    requires k < QUERIES_COUNT && t.features == s.features
    ensures ReadableFrom(s, k) <==> Readable(s, k) && ReadableFrom(t, k + 1)
  {
    if Readable(s, k) && ReadableFrom(t, k + 1) {
      forall j | k <= j < QUERIES_COUNT ensures Readable(s, j) {
        if j > k { assert Readable(t, j); }
      }
    }
    if ReadableFrom(s, k) {
      forall j | k + 1 <= j < QUERIES_COUNT ensures Readable(t, j) {
        assert Readable(s, j);
      }
    }
  }

  /** The getters from position k on succeed exactly when reads from the
      device work and each register they read answers, and they change
      nothing but the log. */
  lemma {:induction false} ReadFromSucceeds(s: HidState, k: nat)
    requires k <= QUERIES_COUNT
    ensures var r := ReadFrom(true, s, k);
      && (r.result.Success? <==> (k == QUERIES_COUNT || !s.readFaulty) && ReadableFrom(s, k))
      && r.next.features == s.features && r.next.inputs == s.inputs
      && r.next.readFaulty == s.readFaulty && r.next.writeFaulty == s.writeFaulty && r.next.present == s.present
    decreases QUERIES_COUNT - k
  {
    if k < QUERIES_COUNT {
      ReadSettingEffect(s, k);
      var r := ReadSetting(true, s, k);
      ReadableFromStep(s, r.next, k);
      if r.result.Success? {
        ReadFromSucceeds(r.next, k + 1);
      }
    }
  }

  /** When they succeed, the getters from position k on have made their
      requests in order. */
  lemma {:induction false} ReadFromRequests(s: HidState, k: nat)
    requires k <= QUERIES_COUNT
    requires ReadFrom(true, s, k).result.Success?
    ensures ReadFrom(true, s, k).next.log == s.log + PRINT_REQUESTS[k..]
    decreases QUERIES_COUNT - k
  {
    if k < QUERIES_COUNT {
      ReadSettingEffect(s, k);
      var r := ReadSetting(true, s, k);
      ReadFromRequests(r.next, k + 1);
      SuffixStep(PRINT_REQUESTS, k);
      AppendAssociates(s.log, [PRINT_REQUESTS[k]], PRINT_REQUESTS[k + 1..]);
    } else {
      assert PRINT_REQUESTS[k..] == [];
    }
  }

  /** print_settings succeeds exactly when reading from the device works and all
      eleven registers it reads answer; it then has made exactly its eleven
      feature-report requests, in order, and it never changes a register or
      consumes an input report. */
  lemma {:induction false} PrintSettingsOnlyReads(s: HidState)
    ensures var r := PrintSettings(true, s);
      && (r.result.Success? <==> !s.readFaulty && forall j :: 0 <= j < QUERIES_COUNT ==> Readable(s, j))
      && (r.result.Success? ==> r.next.log == s.log + PRINT_REQUESTS)
      && r.next.features == s.features && r.next.inputs == s.inputs
  {
    ReadFromSucceeds(s, 0);
    if PrintSettings(true, s).result.Success? {
      ReadFromRequests(s, 0);
    }
  }

  // ---------------------------------------------------------------------------
  // general_configure writes what was asked

  /** The register the setting change at position k writes. */
  function SettingRegister(k: nat): int {
    match k
    case 0 => P.FR_NONVOLATILE_TIMEOUT
    case 1 => P.FR_VOLATILE_TIMEOUT
    case 2 => P.FR_NONVOLATILE_PINGLIGHT_BUZZER
    case 3 => P.FR_VOLATILE_PINGLIGHT_BUZZER
    case 4 => P.FR_NONVOLATILE_PINGLIGHT_BUZZER
    case 5 => P.FR_VOLATILE_PINGLIGHT_BUZZER
    case 6 => P.FR_NONVOLATILE_BUZZER_FREQUENCY
    case 7 => P.FR_VOLATILE_BUZZER_FREQUENCY
    case 8 => P.FR_NONVOLATILE_BEACON_MODE
    case _ => P.FR_REBOOT_INDICATOR
  }

  /** The device shows the setting at position k as the command line asked,
      when that option was given: its getter reads the value back, and the
      reboot-indicator register holds the clearing report. */
  ghost predicate Observed(s: HidState, cfg: Config, k: nat) {
    match k
    case 0 => cfg.nonvolatileTimeout.Some? ==>
      P.GetTimeout(true, s, P.FR_NONVOLATILE_TIMEOUT).result == Success(cfg.nonvolatileTimeout.value)
    case 1 => cfg.timeout.Some? ==>
      P.GetTimeout(true, s, P.FR_VOLATILE_TIMEOUT).result == Success(cfg.timeout.value)
    case 2 => cfg.nonvolatilePinglight.Some? ==>
      P.GetFlag(true, s, P.FR_NONVOLATILE_PINGLIGHT_BUZZER, P.PINGLIGHT_BIT).result == Success(cfg.nonvolatilePinglight.value)
    case 3 => cfg.pinglight.Some? ==>
      P.GetFlag(true, s, P.FR_VOLATILE_PINGLIGHT_BUZZER, P.PINGLIGHT_BIT).result == Success(cfg.pinglight.value)
    case 4 => cfg.nonvolatileBuzzer.Some? ==>
      P.GetFlag(true, s, P.FR_NONVOLATILE_PINGLIGHT_BUZZER, P.BUZZER_BIT).result == Success(cfg.nonvolatileBuzzer.value)
    case 5 => cfg.buzzer.Some? ==>
      P.GetFlag(true, s, P.FR_VOLATILE_PINGLIGHT_BUZZER, P.BUZZER_BIT).result == Success(cfg.buzzer.value)
    case 6 => cfg.nonvolatileBuzzerFrequency.Some? ==>
      P.GetFrequency(true, s, P.FR_NONVOLATILE_BUZZER_FREQUENCY).result == Success(cfg.nonvolatileBuzzerFrequency.value)
    case 7 => cfg.buzzerFrequency.Some? ==>
      P.GetFrequency(true, s, P.FR_VOLATILE_BUZZER_FREQUENCY).result == Success(cfg.buzzerFrequency.value)
    case 8 => BeaconModeOption(cfg).Some? ==>
      P.GetBeaconMode(true, s).result == Success(BeaconModeOption(cfg).value)
    case 9 => cfg.clearRebootIndicator ==>
      P.FR_REBOOT_INDICATOR in s.features && s.features[P.FR_REBOOT_INDICATOR] == [P.FR_REBOOT_INDICATOR, 1]
    case _ => true
  }

  /** A timeout the transport accepted was a 16-bit value. */
  lemma {:induction false} SentTimeoutIsUint16(s: HidState, reportId: int, value: int)
    requires P.SetTimeout(true, s, reportId, value).result.Success?
    ensures !s.writeFaulty && 0 <= value <= MAX_UINT16
  {
    assert value <= MAX_UINT16;
    var data := [reportId, value % 256, value / 256];
    assert AllBytes(data);
    assert 0 <= data[2];
  }

  /** A frequency the transport accepted was a byte. */
  lemma {:induction false} SentFrequencyIsByte(s: HidState, reportId: int, value: int)
    requires P.SetFrequency(true, s, reportId, value).result.Success?
    ensures !s.writeFaulty && 0 <= value <= MAX_UINT8
  {
    assert value <= MAX_UINT8;
    var data := [reportId, value];
    assert AllBytes(data);
    assert 0 <= data[1];
  }

  /** A setting change that succeeds is observed right after it, on a device
      whose reads work. */
  lemma {:induction false} SettingObserved(s: HidState, cfg: Config, k: nat)
    requires k < SETTINGS_COUNT && !s.readFaulty
    requires ApplySetting(true, s, cfg, k, false).result.Success?
    ensures Observed(ApplySetting(true, s, cfg, k, false).next, cfg, k)
  {
    if k == 0 && cfg.nonvolatileTimeout.Some? {
      SentTimeoutIsUint16(s, P.FR_NONVOLATILE_TIMEOUT, cfg.nonvolatileTimeout.value);
      PP.TimeoutRoundTrip(s, P.FR_NONVOLATILE_TIMEOUT, cfg.nonvolatileTimeout.value);
    } else if k == 1 && cfg.timeout.Some? {
      SentTimeoutIsUint16(s, P.FR_VOLATILE_TIMEOUT, cfg.timeout.value);
      PP.TimeoutRoundTrip(s, P.FR_VOLATILE_TIMEOUT, cfg.timeout.value);
    } else if k == 2 && cfg.nonvolatilePinglight.Some? {
      PP.PinglightKeepsBuzzer(s, P.FR_NONVOLATILE_PINGLIGHT_BUZZER, cfg.nonvolatilePinglight.value);
    } else if k == 3 && cfg.pinglight.Some? {
      PP.PinglightKeepsBuzzer(s, P.FR_VOLATILE_PINGLIGHT_BUZZER, cfg.pinglight.value);
    } else if k == 4 && cfg.nonvolatileBuzzer.Some? {
      PP.BuzzerKeepsPinglight(s, P.FR_NONVOLATILE_PINGLIGHT_BUZZER, cfg.nonvolatileBuzzer.value);
    } else if k == 5 && cfg.buzzer.Some? {
      PP.BuzzerKeepsPinglight(s, P.FR_VOLATILE_PINGLIGHT_BUZZER, cfg.buzzer.value);
    } else if k == 6 && cfg.nonvolatileBuzzerFrequency.Some? {
      SentFrequencyIsByte(s, P.FR_NONVOLATILE_BUZZER_FREQUENCY, cfg.nonvolatileBuzzerFrequency.value);
      PP.FrequencyRoundTrip(s, P.FR_NONVOLATILE_BUZZER_FREQUENCY, cfg.nonvolatileBuzzerFrequency.value);
    } else if k == 7 && cfg.buzzerFrequency.Some? {
      SentFrequencyIsByte(s, P.FR_VOLATILE_BUZZER_FREQUENCY, cfg.buzzerFrequency.value);
      PP.FrequencyRoundTrip(s, P.FR_VOLATILE_BUZZER_FREQUENCY, cfg.buzzerFrequency.value);
    } else if k == 8 && BeaconModeOption(cfg).Some? {
      PP.BeaconModeRoundTrip(s, BeaconModeOption(cfg).value);
    }
  }

  /** A setting change touches at most its own register, and never the
      device's health. */
  lemma {:induction false} SettingFrame(s: HidState, cfg: Config, k: nat)
    requires k < SETTINGS_COUNT
    requires ApplySetting(true, s, cfg, k, false).result.Success?
    ensures var t := ApplySetting(true, s, cfg, k, false).next;
      && t.readFaulty == s.readFaulty && t.writeFaulty == s.writeFaulty
      && (t.features == s.features ||
          (SettingRegister(k) in t.features && t.features == s.features[SettingRegister(k) := t.features[SettingRegister(k)]]))
  {
    // one position at a time keeps each case small
    if k < 2 {
    } else if k < 6 {
    } else if k < 8 {
    } else {
    }
  }

  /** What is observed of the setting at position j depends only on the
      device's health and on the register j writes. */
  lemma {:induction false} ObservedFrame(s: HidState, t: HidState, cfg: Config, j: nat)
    requires j < SETTINGS_COUNT && Observed(s, cfg, j)
    requires t.readFaulty == s.readFaulty
    requires SettingRegister(j) in s.features <==> SettingRegister(j) in t.features
    requires SettingRegister(j) in s.features ==> t.features[SettingRegister(j)] == s.features[SettingRegister(j)]
    ensures Observed(t, cfg, j)
  {
  }

  /** A later setting change keeps what an earlier one established: they
      write different registers, except the ping light and the buzzer, which
      share one and where the merge leaves the sibling bit alone. */
  lemma {:induction false} SettingKeeps(s: HidState, cfg: Config, j: nat, k: nat)
    requires j < k < SETTINGS_COUNT && Observed(s, cfg, j)
    requires ApplySetting(true, s, cfg, k, false).result.Success?
    ensures Observed(ApplySetting(true, s, cfg, k, false).next, cfg, j)
  {
    var t := ApplySetting(true, s, cfg, k, false).next;
    SettingFrame(s, cfg, k);
    if j == 2 && k == 4 && cfg.nonvolatileBuzzer.Some? {
      PP.BuzzerKeepsPinglight(s, P.FR_NONVOLATILE_PINGLIGHT_BUZZER, cfg.nonvolatileBuzzer.value);
    } else if j == 3 && k == 5 && cfg.buzzer.Some? {
      PP.BuzzerKeepsPinglight(s, P.FR_VOLATILE_PINGLIGHT_BUZZER, cfg.buzzer.value);
    } else {
      ObservedFrame(s, t, cfg, j);
    }
  }

  lemma {:induction false} ConfigureKeeps(s: HidState, cfg: Config, j: nat, k: nat)
    requires j < k <= SETTINGS_COUNT && Observed(s, cfg, j)
    requires ConfigureFrom(true, s, cfg, k, false).result.Success?
    ensures Observed(ConfigureFrom(true, s, cfg, k, false).next, cfg, j)
    decreases SETTINGS_COUNT - k
  {
    if k < SETTINGS_COUNT {
      var r := ApplySetting(true, s, cfg, k, false);
      SettingKeeps(s, cfg, j, k);
      ConfigureKeeps(r.next, cfg, j, k + 1);
    }
  }

  lemma {:induction false} ConfigureObserved(s: HidState, cfg: Config, k: nat)
    requires k <= SETTINGS_COUNT && !s.readFaulty
    requires ConfigureFrom(true, s, cfg, k, false).result.Success?
    ensures forall j :: k <= j < SETTINGS_COUNT ==> Observed(ConfigureFrom(true, s, cfg, k, false).next, cfg, j)
    decreases SETTINGS_COUNT - k
  {
    if k < SETTINGS_COUNT {
      var r := ApplySetting(true, s, cfg, k, false);
      SettingObserved(s, cfg, k);
      SettingFrame(s, cfg, k);
      ConfigureKeeps(r.next, cfg, k, k + 1);
      ConfigureObserved(r.next, cfg, k + 1);
    }
  }

  /** When general_configure succeeds, every setting given on the command
      line reads back as given, whatever the later changes, and the
      reboot-indicator register holds the clearing report when that was asked.
      Reading back needs a device whose reads work. */
  lemma {:induction false} ConfigureReadsBack(s: HidState, cfg: Config)
    requires !s.readFaulty && GeneralConfigure(true, s, cfg).result.Success?
    ensures var t := GeneralConfigure(true, s, cfg).next;
      && (cfg.nonvolatileTimeout.Some? ==>
            P.GetTimeout(true, t, P.FR_NONVOLATILE_TIMEOUT).result == Success(cfg.nonvolatileTimeout.value))
      && (cfg.timeout.Some? ==>
            P.GetTimeout(true, t, P.FR_VOLATILE_TIMEOUT).result == Success(cfg.timeout.value))
      && (cfg.nonvolatilePinglight.Some? ==>
            P.GetFlag(true, t, P.FR_NONVOLATILE_PINGLIGHT_BUZZER, P.PINGLIGHT_BIT).result == Success(cfg.nonvolatilePinglight.value))
      && (cfg.pinglight.Some? ==>
            P.GetFlag(true, t, P.FR_VOLATILE_PINGLIGHT_BUZZER, P.PINGLIGHT_BIT).result == Success(cfg.pinglight.value))
      && (cfg.nonvolatileBuzzer.Some? ==>
            P.GetFlag(true, t, P.FR_NONVOLATILE_PINGLIGHT_BUZZER, P.BUZZER_BIT).result == Success(cfg.nonvolatileBuzzer.value))
      && (cfg.buzzer.Some? ==>
            P.GetFlag(true, t, P.FR_VOLATILE_PINGLIGHT_BUZZER, P.BUZZER_BIT).result == Success(cfg.buzzer.value))
      && (cfg.nonvolatileBuzzerFrequency.Some? ==>
            P.GetFrequency(true, t, P.FR_NONVOLATILE_BUZZER_FREQUENCY).result == Success(cfg.nonvolatileBuzzerFrequency.value))
      && (cfg.buzzerFrequency.Some? ==>
            P.GetFrequency(true, t, P.FR_VOLATILE_BUZZER_FREQUENCY).result == Success(cfg.buzzerFrequency.value))
      && (cfg.action == Configure && cfg.nonvolatileBeaconMode.Some? ==>
            P.GetBeaconMode(true, t).result == Success(cfg.nonvolatileBeaconMode.value))
      && (cfg.clearRebootIndicator ==>
            P.FR_REBOOT_INDICATOR in t.features && t.features[P.FR_REBOOT_INDICATOR] == [P.FR_REBOOT_INDICATOR, 1])
  {
    var t := GeneralConfigure(true, s, cfg).next;
    ConfigureObserved(s, cfg, 0);
    assert Observed(t, cfg, 0) && Observed(t, cfg, 1) && Observed(t, cfg, 2) && Observed(t, cfg, 3);
    assert Observed(t, cfg, 4) && Observed(t, cfg, 5) && Observed(t, cfg, 6) && Observed(t, cfg, 7);
    assert Observed(t, cfg, 8) && Observed(t, cfg, 9);
  }

  // ---------------------------------------------------------------------------
  // Which calls each phase makes

  /** From s to t the log only grew, by feature-report requests and sends,
      and the input queue, the health and the presence are as they were. */
  ghost predicate FeatureTraffic(s: HidState, t: HidState) {
    && |s.log| <= |t.log| && t.log[..|s.log|] == s.log
    && (forall i :: |s.log| <= i < |t.log| ==> t.log[i].GetFeature? || t.log[i].SendFeature?)
    && t.inputs == s.inputs && t.present == s.present
    && t.readFaulty == s.readFaulty && t.writeFaulty == s.writeFaulty
  }

  /** From s to t the log only grew, and by calls on an open handle: no
      second open and no close. */
  ghost predicate DeviceTraffic(s: HidState, t: HidState) {
    && |s.log| <= |t.log| && t.log[..|s.log|] == s.log
    && (forall i :: |s.log| <= i < |t.log| ==> !t.log[i].Open? && !t.log[i].Close?)
    && t.present == s.present
  }

  lemma {:induction false} FeatureTrafficTransitive(s: HidState, t: HidState, u: HidState)
    requires FeatureTraffic(s, t) && FeatureTraffic(t, u)
    ensures FeatureTraffic(s, u)
  {
    assert u.log[..|s.log|] == u.log[..|t.log|][..|s.log|];
  }

  lemma {:induction false} DeviceTrafficTransitive(s: HidState, t: HidState, u: HidState)
    requires DeviceTraffic(s, t) && DeviceTraffic(t, u)
    ensures DeviceTraffic(s, u)
  {
    assert u.log[..|s.log|] == u.log[..|t.log|][..|s.log|];
  }

  lemma {:induction false} FeatureTrafficIsDeviceTraffic(s: HidState, t: HidState)
    requires FeatureTraffic(s, t)
    ensures DeviceTraffic(s, t)
  {
  }

  lemma {:induction false} SendTraffic(s: HidState, data: seq<int>)
    requires |data| > 0
    ensures FeatureTraffic(s, P.SendFeatureReport(true, s, data).next)
  {
    assert s.log[..|s.log|] == s.log;
  }

  lemma {:induction false} FlagsTraffic(s: HidState, reportId: Byte, pinglight: Option<bool>, buzzer: Option<bool>)
    ensures FeatureTraffic(s, P.SetPinglightBuzzer(true, s, reportId, pinglight, buzzer).next)
  {
    var g := P.GetLightsBuzzer(true, s, reportId);
    assert g.next.log == s.log + [GetFeature(reportId, 2)];
    if g.result.Success? {
      SendTraffic(g.next, [reportId, P.MergeFlags(g.result.value, pinglight, buzzer)]);
      FeatureTrafficTransitive(s, g.next, P.SetPinglightBuzzer(true, s, reportId, pinglight, buzzer).next);
    }
  }

  lemma {:induction false} SettingTraffic(s: HidState, cfg: Config, k: nat, asWritten: bool)
    ensures FeatureTraffic(s, ApplySetting(true, s, cfg, k, asWritten).next)
  {
    var r := ApplySetting(true, s, cfg, k, asWritten);
    if r.next == s {
      assert s.log[..|s.log|] == s.log;
    } else if k == 0 {
      SendTraffic(s, [P.FR_NONVOLATILE_TIMEOUT, cfg.nonvolatileTimeout.value % 256, cfg.nonvolatileTimeout.value / 256]);
    } else if k == 1 {
      SendTraffic(s, [P.FR_VOLATILE_TIMEOUT, cfg.timeout.value % 256, cfg.timeout.value / 256]);
    } else if k == 2 {
      FlagsTraffic(s, P.FR_NONVOLATILE_PINGLIGHT_BUZZER, cfg.nonvolatilePinglight, None);
    } else if k == 3 {
      FlagsTraffic(s, P.FR_VOLATILE_PINGLIGHT_BUZZER, cfg.pinglight, None);
    } else if k == 4 {
      FlagsTraffic(s, P.FR_NONVOLATILE_PINGLIGHT_BUZZER, None, cfg.nonvolatileBuzzer);
    } else if k == 5 {
      FlagsTraffic(s, P.FR_VOLATILE_PINGLIGHT_BUZZER, None, cfg.buzzer);
    } else if k == 6 {
      SendTraffic(s, [P.FR_NONVOLATILE_BUZZER_FREQUENCY, cfg.nonvolatileBuzzerFrequency.value]);
    } else if k == 7 {
      SendTraffic(s, [P.FR_VOLATILE_BUZZER_FREQUENCY, cfg.buzzerFrequency.value]);
    } else if k == 8 {
      SendTraffic(s, [P.FR_NONVOLATILE_BEACON_MODE, if BeaconModeOption(cfg).value then 1 else 0]);
    } else {
      SendTraffic(s, [P.FR_REBOOT_INDICATOR, 1]);
    }
  }

  /** general_configure, as written or corrected, only exchanges feature
      reports: it neither reads an input report nor pets. */
  lemma {:induction false} ConfigureTraffic(s: HidState, cfg: Config, k: nat, asWritten: bool)
    ensures FeatureTraffic(s, ConfigureFrom(true, s, cfg, k, asWritten).next)
    decreases SETTINGS_COUNT - k
  {
    if k < SETTINGS_COUNT {
      var r := ApplySetting(true, s, cfg, k, asWritten);
      SettingTraffic(s, cfg, k, asWritten);
      if r.result.Success? {
        ConfigureTraffic(r.next, cfg, k + 1, asWritten);
        FeatureTrafficTransitive(s, r.next, ConfigureFrom(true, s, cfg, k, asWritten).next);
      }
    } else {
      assert s.log[..|s.log|] == s.log;
    }
  }

  // ---------------------------------------------------------------------------
  // The handlers' decisions and exit statuses

  /** get_status can read two status reports of the right length. */
  ghost predicate StatusReadable(s: HidState) {
    !s.readFaulty && |s.inputs| >= 2 && |s.inputs[0]| == P.IN_WATCHDOG_STATUS_LEN + 1 && |s.inputs[1]| == P.IN_WATCHDOG_STATUS_LEN + 1
  }

  /** The status the handlers act on: the second of the two samples. */
  function Sample(s: HidState): P.Status
    requires StatusReadable(s)
  {
    P.DecodeStatus(s.inputs[1])
  }

  const STATUS_READS := [Read(4, P.DEFAULT_STATUS_TIMEOUT_MS), Read(4, P.DEFAULT_STATUS_TIMEOUT_MS)]

  /** handle_petting pets on this status: not in beacon mode, and no reboot or
      trigger that it was asked to detect. */
  predicate PetAllowed(st: P.Status, cfg: Config) {
    !st.beaconMode && !(st.rebootIndicator && cfg.detectReboot) && !(st.triggered && cfg.detectTriggered)
  }

  /** handle_petting sends the pet report exactly when the status is readable
      and shows neither beacon mode nor a reboot or trigger it was asked to
      detect, and exits 0 exactly when the device then accepts the report; a
      pet the device does not accept exits 1. Beacon mode is refused with 1
      before the detection flags are looked at; a detected reboot takes
      precedence over a detected trigger. */
  lemma {:induction false} PettingDecision(s: HidState, cfg: Config)
    ensures var o := Petting(true, s, cfg);
      && (o.code == 0 <==> StatusReadable(s) && PetAllowed(Sample(s), cfg) && !s.writeFaulty)
      && (o.code == 2 <==>
            StatusReadable(s) && !Sample(s).beaconMode && Sample(s).rebootIndicator && cfg.detectReboot)
      && (o.code == 3 <==>
            StatusReadable(s) && !Sample(s).beaconMode
            && !(Sample(s).rebootIndicator && cfg.detectReboot)
            && Sample(s).triggered && cfg.detectTriggered)
      && (StatusReadable(s) && Sample(s).beaconMode ==> o.code == 1)
      && (StatusReadable(s) && PetAllowed(Sample(s), cfg) && s.writeFaulty ==> o.code == 1)
      && o.code in {0, 1, 2, 3}
      && (StatusReadable(s) && PetAllowed(Sample(s), cfg) ==>
            o.next.log == s.log + STATUS_READS + [Write([P.OUT_PET_WATCHDOG, 3])])
      && (!(StatusReadable(s) && PetAllowed(Sample(s), cfg)) ==>
            o.next.log == s.log + [STATUS_READS[0]] || o.next.log == s.log + STATUS_READS)
      && o.next.features == s.features
  {
    var status := P.GetStatus(true, s, P.DEFAULT_STATUS_TIMEOUT_MS);
    if status.result.Success? {
      assert status.result.value == Sample(s);
    }
  }

  /** The three query sub-commands only read the status: each exits 1 when it
      cannot be read, otherwise 2 (rebooted, mode) or 3 (triggered) when its
      bit is set and 0 when not, and all three leave the transport alike. */
  lemma {:induction false} QueryExitCodes(s: HidState)
    ensures var r := HandleRebooted(true, s);
      && (!StatusReadable(s) ==> r.code == 1)
      && (StatusReadable(s) ==> r.code == if Sample(s).rebootIndicator then 2 else 0)
    ensures var r := HandleTriggered(true, s);
      && (!StatusReadable(s) ==> r.code == 1)
      && (StatusReadable(s) ==> r.code == if Sample(s).triggered then 3 else 0)
    ensures var r := HandleMode(true, s);
      && (!StatusReadable(s) ==> r.code == 1)
      && (StatusReadable(s) ==> r.code == if Sample(s).beaconMode then 2 else 0)
    ensures HandleRebooted(true, s).next == HandleTriggered(true, s).next == HandleMode(true, s).next
    ensures var t := HandleRebooted(true, s).next;
      && (t.log == s.log + [STATUS_READS[0]] || t.log == s.log + STATUS_READS)
      && t.features == s.features
  {
    var status := P.GetStatus(true, s, P.DEFAULT_STATUS_TIMEOUT_MS);
    if status.result.Success? {
      assert status.result.value == Sample(s);
    }
  }

  /** The beacon sub-command sets the output state only in beacon mode:
      outside it, or when the status cannot be read, it exits 1 having
      written nothing. In beacon mode it sends the report carrying the
      requested state in its timeout bit, and exits 0 exactly when the device
      accepts it, 1 when it does not. */
  lemma {:induction false} BeaconOnlyInBeaconMode(s: HidState, cfg: Config)
    ensures var o := HandleBeacon(true, s, cfg);
      && (o.code == 0 <==> StatusReadable(s) && Sample(s).beaconMode && !s.writeFaulty)
      && o.code in {0, 1}
      && (StatusReadable(s) && Sample(s).beaconMode ==>
            o.next.log == s.log + STATUS_READS + [Write([P.OUT_PET_WATCHDOG, if cfg.beaconState then 3 else 2])])
      && (!(StatusReadable(s) && Sample(s).beaconMode) ==>
            o.next.log == s.log + [STATUS_READS[0]] || o.next.log == s.log + STATUS_READS)
  {
    var status := P.GetStatus(true, s, P.DEFAULT_STATUS_TIMEOUT_MS);
    if status.result.Success? {
      assert status.result.value == Sample(s);
    }
  }

  /** The continuous loop never ends with status 0: it stops only on a
      refusal, an error or the interrupt. */
  lemma {:induction false} PetRoundsNeverZero(s: HidState, cfg: Config, rounds: nat)
    ensures PetRounds(true, s, cfg, rounds).code in {1, 2, 3}
    decreases rounds
  {
    if rounds > 0 {
      PettingDecision(s, cfg);
      var p := Petting(true, s, cfg);
      if p.code == 0 {
        PetRoundsNeverZero(p.next, cfg, rounds - 1);
      }
    }
  }

  /** The calls of one round that pets: two status reads, then the pet report. */
  const PET_ROUND := STATUS_READS + [Write([P.OUT_PET_WATCHDOG, 3])]

  function Repeat(calls: seq<Call>, n: nat): (r: seq<Call>)
    ensures |r| == n * |calls|
  {
    if n == 0 then [] else calls + Repeat(calls, n - 1)
  }

  /** The input queue holds n rounds' worth of well-formed status pairs
      whose second sample never leads handle_petting to refuse. */
  ghost predicate CalmRounds(inputs: seq<seq<Byte>>, cfg: Config, n: nat) {
    && 2 * n <= |inputs|
    && (forall i :: 0 <= i < 2 * n ==> |inputs[i]| == P.IN_WATCHDOG_STATUS_LEN + 1)
    && (forall i :: 0 <= i < n ==> PetAllowed(P.DecodeStatus(inputs[2 * i + 1]), cfg))
  }

  lemma {:induction false} PetsWhenCalm(s: HidState, cfg: Config, n: nat)
    requires !s.readFaulty && !s.writeFaulty && n > 0 && CalmRounds(s.inputs, cfg, n)
    ensures Petting(true, s, cfg) == Outcome(0, s.(inputs := s.inputs[2..], log := s.log + PET_ROUND))
  {
    assert PetAllowed(P.DecodeStatus(s.inputs[2 * 0 + 1]), cfg);
    PettingDecision(s, cfg);
  }

  lemma {:induction false} CalmRoundsShift(inputs: seq<seq<Byte>>, cfg: Config, n: nat)
    requires n > 0 && CalmRounds(inputs, cfg, n)
    ensures CalmRounds(inputs[2..], cfg, n - 1)
  {
    var rest := inputs[2..];
    forall i | 0 <= i < n - 1 ensures PetAllowed(P.DecodeStatus(rest[2 * i + 1]), cfg) {
      assert rest[2 * i + 1] == inputs[2 * (i + 1) + 1];
    }
  }

  /** With a working device whose status never refuses, the continuous loop
      pets once per round, consumes two status reports per round and changes
      nothing else, until the interrupt ends it with status 1. */
  lemma {:induction false} PetRoundsUntilInterrupt(s: HidState, cfg: Config, n: nat)
    requires !s.readFaulty && !s.writeFaulty && CalmRounds(s.inputs, cfg, n)
    ensures PetRounds(true, s, cfg, n) ==
      Outcome(1, s.(inputs := s.inputs[2 * n..], log := s.log + Repeat(PET_ROUND, n)))
    decreases n
  {
    if n == 0 {
      assert s.inputs[0..] == s.inputs;
    } else {
      var p := Petting(true, s, cfg);
      PetsWhenCalm(s, cfg, n);
      var rest := s.inputs[2..];
      CalmRoundsShift(s.inputs, cfg, n);
      PetRoundsUntilInterrupt(p.next, cfg, n - 1);
      assert rest[2 * (n - 1)..] == s.inputs[2 * n..];
      AppendAssociates(s.log, PET_ROUND, Repeat(PET_ROUND, n - 1));
    }
  }

  // ---------------------------------------------------------------------------
  // main

  lemma {:induction false} AppendedCalls(s: HidState, t: HidState, calls: seq<Call>)
    requires t.log == s.log + calls && t.present == s.present
    requires forall i :: 0 <= i < |calls| ==> !calls[i].Open? && !calls[i].Close?
    ensures DeviceTraffic(s, t)
  {
    assert t.log[..|s.log|] == s.log;
    forall i | |s.log| <= i < |t.log| ensures !t.log[i].Open? && !t.log[i].Close? {
      assert t.log[i] == calls[i - |s.log|];
    }
  }

  lemma {:induction false} StatusTraffic(s: HidState)
    ensures DeviceTraffic(s, P.GetStatus(true, s, P.DEFAULT_STATUS_TIMEOUT_MS).next)
  {
    var t := P.GetStatus(true, s, P.DEFAULT_STATUS_TIMEOUT_MS).next;
    if t.log == s.log + [STATUS_READS[0]] {
      AppendedCalls(s, t, [STATUS_READS[0]]);
    } else {
      AppendedCalls(s, t, STATUS_READS);
    }
  }

  lemma {:induction false} ReadTraffic(s: HidState, k: nat)
    requires k <= QUERIES_COUNT
    ensures FeatureTraffic(s, ReadFrom(true, s, k).next)
    decreases QUERIES_COUNT - k
  {
    if k < QUERIES_COUNT {
      ReadSettingEffect(s, k);
      var r := ReadSetting(true, s, k);
      assert FeatureTraffic(s, r.next) by {
        assert r.next.log[..|s.log|] == s.log;
      }
      if r.result.Success? {
        ReadTraffic(r.next, k + 1);
        FeatureTrafficTransitive(s, r.next, ReadFrom(true, s, k).next);
      }
    } else {
      assert s.log[..|s.log|] == s.log;
    }
  }

  lemma {:induction false} PettingTraffic(s: HidState, cfg: Config)
    ensures DeviceTraffic(s, Petting(true, s, cfg).next)
  {
    PettingDecision(s, cfg);
    var o := Petting(true, s, cfg);
    if o.code == 0 {
      AppendedCalls(s, o.next, STATUS_READS + [Write([P.OUT_PET_WATCHDOG, 3])]);
    } else {
      StatusTraffic(s);
    }
  }

  lemma {:induction false} PetRoundsTraffic(s: HidState, cfg: Config, rounds: nat)
    ensures DeviceTraffic(s, PetRounds(true, s, cfg, rounds).next)
    decreases rounds
  {
    if rounds == 0 {
      assert s.log[..|s.log|] == s.log;
    } else {
      var p := Petting(true, s, cfg);
      PettingTraffic(s, cfg);
      if p.code == 0 {
        PetRoundsTraffic(p.next, cfg, rounds - 1);
        DeviceTrafficTransitive(s, p.next, PetRounds(true, s, cfg, rounds).next);
      }
    }
  }

  lemma {:induction false} HandleConfigureTraffic(s: HidState, cfg: Config, asWritten: bool)
    ensures FeatureTraffic(s, HandleConfigure(true, s, cfg, asWritten).next)
    ensures HandleConfigure(true, s, cfg, asWritten).code in {0, 1}
  {
    var c := ConfigureFrom(true, s, cfg, 0, asWritten);
    ConfigureTraffic(s, cfg, 0, asWritten);
    if c.result.Success? {
      ReadTraffic(c.next, 0);
      FeatureTrafficTransitive(s, c.next, HandleConfigure(true, s, cfg, asWritten).next);
    }
  }

  lemma {:induction false} OneshotTraffic(s: HidState, cfg: Config, asWritten: bool)
    ensures HandleOneshot(true, s, cfg, asWritten).code in {0, 1, 2, 3}
    ensures DeviceTraffic(s, HandleOneshot(true, s, cfg, asWritten).next)
  {
    var c := HandleConfigure(true, s, cfg, asWritten);
    HandleConfigureTraffic(s, cfg, asWritten);
    FeatureTrafficIsDeviceTraffic(s, c.next);
    if c.code == 0 {
      PettingDecision(c.next, cfg);
      PettingTraffic(c.next, cfg);
      DeviceTrafficTransitive(s, c.next, HandleOneshot(true, s, cfg, asWritten).next);
    }
  }

  lemma {:induction false} ContinuousTraffic(s: HidState, cfg: Config, asWritten: bool)
    ensures HandleContinuous(true, s, cfg, asWritten).code in {1, 2, 3}
    ensures DeviceTraffic(s, HandleContinuous(true, s, cfg, asWritten).next)
  {
    var c := HandleConfigure(true, s, cfg, asWritten);
    HandleConfigureTraffic(s, cfg, asWritten);
    FeatureTrafficIsDeviceTraffic(s, c.next);
    if c.code == 0 {
      PetRoundsNeverZero(c.next, cfg, cfg.rounds);
      PetRoundsTraffic(c.next, cfg, cfg.rounds);
      DeviceTrafficTransitive(s, c.next, HandleContinuous(true, s, cfg, asWritten).next);
    }
  }

  lemma {:induction false} BeaconTraffic(s: HidState, cfg: Config)
    ensures DeviceTraffic(s, HandleBeacon(true, s, cfg).next)
  {
    BeaconOnlyInBeaconMode(s, cfg);
    var o := HandleBeacon(true, s, cfg);
    if o.code == 0 {
      AppendedCalls(s, o.next, STATUS_READS + [Write([P.OUT_PET_WATCHDOG, if cfg.beaconState then 3 else 2])]);
    } else {
      StatusTraffic(s);
    }
  }

  /** Every sub-command exits with 0, 1, 2 or 3 and, on the open handle,
      makes no call that opens or closes it. */
  lemma {:induction false} DispatchTraffic(s: HidState, cfg: Config, asWritten: bool)
    ensures Dispatch(true, s, cfg, asWritten).code in {0, 1, 2, 3}
    ensures DeviceTraffic(s, Dispatch(true, s, cfg, asWritten).next)
  {
    match cfg.action
    case Configure =>
      HandleConfigureTraffic(s, cfg, asWritten);
      FeatureTrafficIsDeviceTraffic(s, HandleConfigure(true, s, cfg, asWritten).next);
    case Oneshot => OneshotTraffic(s, cfg, asWritten);
    case Continuous => ContinuousTraffic(s, cfg, asWritten);
    case Rebooted => QueryExitCodes(s); StatusTraffic(s);
    case Triggered => QueryExitCodes(s); StatusTraffic(s);
    case Mode => QueryExitCodes(s); StatusTraffic(s);
    case Beacon => BeaconOnlyInBeaconMode(s, cfg); BeaconTraffic(s, cfg);
  }

  /** main exits 1 having only tried to open when no matching dongle is
      attached. Otherwise it opens once, runs the sub-command on the open
      handle, and closes it as its last call whatever the outcome; the exit
      status is 0, 1, 2 or 3. */
  lemma {:induction false} MainClosesWhatItOpened(s: HidState, cfg: Config, asWritten: bool)
    ensures var o := RunWith(s, cfg, asWritten);
      var opening := Open(P.VENDOR_ID, P.PRODUCT_ID, cfg.serialNumber);
      && (!s.present ==> o == Outcome(1, s.(log := s.log + [opening])))
      && (s.present ==>
            && o.code in {0, 1, 2, 3}
            && |s.log| + 2 <= |o.next.log|
            && o.next.log[..|s.log| + 1] == s.log + [opening]
            && o.next.log[|o.next.log| - 1] == Close
            && forall i :: |s.log| < i < |o.next.log| - 1 ==> !o.next.log[i].Open? && !o.next.log[i].Close?)
  {
    var start := HidOpen(s, P.VENDOR_ID, P.PRODUCT_ID, cfg.serialNumber);
    if s.present {
      var d := Dispatch(true, start.next, cfg, asWritten);
      DispatchTraffic(start.next, cfg, asWritten);
      var c := P.Close(true, d.next);
      assert c.next.log == d.next.log + [Close];
      assert c.next.log[..|s.log| + 1] == d.next.log[..|start.next.log|];
      forall i | |s.log| < i < |c.next.log| - 1 ensures !c.next.log[i].Open? && !c.next.log[i].Close? {
        assert c.next.log[i] == d.next.log[i];
      }
    }
  }

  /** The continuous sub-command never exits 0. */
  lemma {:induction false} ContinuousNeverExitsZero(s: HidState, cfg: Config)
    requires cfg.action == Continuous
    ensures Run(s, cfg).code != 0
    ensures RunAsWritten(s, cfg).code != 0
  {
    var start := HidOpen(s, P.VENDOR_ID, P.PRODUCT_ID, cfg.serialNumber);
    if s.present {
      ContinuousTraffic(start.next, cfg, false);
      ContinuousTraffic(start.next, cfg, true);
    }
  }

  // ---------------------------------------------------------------------------
  // The beacon-mode attribute of oneshot and continuous

  /** As written, the setting changes from any position up to the beacon-mode
      one fail for a sub-command without that option: the missing attribute
      is looked up even when every earlier change succeeded. */
  lemma {:induction false} AsWrittenConfigureFails(s: HidState, cfg: Config, k: nat)
    requires k <= 8 && !HasBeaconModeOption(cfg.action)
    ensures ConfigureFrom(true, s, cfg, k, true).result.Failure?
    decreases SETTINGS_COUNT - k
  {
    var r := ApplySetting(true, s, cfg, k, true);
    if k < 8 && r.result.Success? {
      AsWrittenConfigureFails(r.next, cfg, k + 1);
    }
  }

  /** As written, oneshot and continuous always exit 1 and never send a pet
      report, whatever the device and the options. */
  lemma {:induction false} OneshotAsWrittenNeverPets(s: HidState, cfg: Config)
    requires cfg.action == Oneshot || cfg.action == Continuous
    ensures var o := RunAsWritten(s, cfg);
      && o.code == 1
      && |s.log| <= |o.next.log|
      && forall i :: |s.log| <= i < |o.next.log| ==> !o.next.log[i].Write?
  {
    var start := HidOpen(s, P.VENDOR_ID, P.PRODUCT_ID, cfg.serialNumber);
    if s.present {
      AsWrittenConfigureFails(start.next, cfg, 0);
      var c := HandleConfigure(true, start.next, cfg, true);
      HandleConfigureTraffic(start.next, cfg, true);
      var o := RunAsWritten(s, cfg);
      assert o.next.log == c.next.log + [Close];
      forall i | |s.log| <= i < |o.next.log| ensures !o.next.log[i].Write? {
        if i < |o.next.log| - 1 {
          assert o.next.log[i] == c.next.log[i];
          if i == |s.log| {
            assert c.next.log[..|start.next.log|][i] == start.next.log[i];
          }
        }
      }
    }
  }

  /** No setting change was asked for. */
  predicate NoSettings(cfg: Config) {
    && cfg.nonvolatileTimeout.None? && cfg.timeout.None?
    && cfg.nonvolatilePinglight.None? && cfg.pinglight.None?
    && cfg.nonvolatileBuzzer.None? && cfg.buzzer.None?
    && cfg.nonvolatileBuzzerFrequency.None? && cfg.buzzerFrequency.None?
    && cfg.nonvolatileBeaconMode.None? && !cfg.clearRebootIndicator
  }

  lemma {:induction false} NoSettingsConfigureNothing(s: HidState, cfg: Config, k: nat)
    requires NoSettings(cfg)
    ensures ConfigureFrom(true, s, cfg, k, false) == Reply(Success(()), s)
    decreases SETTINGS_COUNT - k
  {
    if k < SETTINGS_COUNT {
      assert ApplySetting(true, s, cfg, k, false) == Reply(Success(()), s);
      NoSettingsConfigureNothing(s, cfg, k + 1);
    }
  }

  /** Corrected, a oneshot with no settings on a dongle that answers every
      read and whose status allows petting sends the pet report and exits 0,
      or 1 when the device does not accept it; the script as written exits 1. */
  lemma {:induction false} OneshotPetsHealthyDevice(s: HidState, cfg: Config)
    requires cfg.action == Oneshot && NoSettings(cfg)
    requires s.present && forall j :: 0 <= j < QUERIES_COUNT ==> Readable(s, j)
    requires StatusReadable(s) && PetAllowed(Sample(s), cfg)
    ensures Run(s, cfg).code == if s.writeFaulty then 1 else 0
    ensures Write([P.OUT_PET_WATCHDOG, 3]) in Run(s, cfg).next.log
    ensures RunAsWritten(s, cfg).code == 1
  {
    var start := HidOpen(s, P.VENDOR_ID, P.PRODUCT_ID, cfg.serialNumber);
    NoSettingsConfigureNothing(start.next, cfg, 0);
    assert forall j :: 0 <= j < QUERIES_COUNT ==> Readable(start.next, j) by {
      forall j | 0 <= j < QUERIES_COUNT ensures Readable(start.next, j) {
        assert Readable(s, j);
      }
    }
    ReadFromSucceeds(start.next, 0);
    var printed := PrintSettings(true, start.next);
    assert StatusReadable(printed.next) && Sample(printed.next) == Sample(s);
    PettingDecision(printed.next, cfg);
    var p := Petting(true, printed.next, cfg);
    assert p.next.log[|p.next.log| - 1] == Write([P.OUT_PET_WATCHDOG, 3]);
    assert Run(s, cfg).next.log == p.next.log + [Close];
    OneshotAsWrittenNeverPets(s, cfg);
  }
}
