/** The script's functions run against a USBWatchDog: each method performs
    the source's calls in the source's order and is proved to have the
    outcome the function of the same name in module Actions gives. */
module Script {
  import opened Types
  import opened Hid
  import P = Protocol
  import A = Actions
  import opened Watchdog

  /** What general_configure has done after running positions k and k+1 of
      its order from state `before`: on a failure, the outcome of the whole
      run from position k; otherwise the rest is the run from position k+2. */
  ghost predicate Advanced(open: bool, before: HidState, cfg: A.Config, k: nat, asWritten: bool, r: Result<()>, after: HidState) {
    if r.Failure? then Reply(r, after) == A.ConfigureFrom(open, before, cfg, k, asWritten)
    else r == Success(()) && A.ConfigureFrom(open, before, cfg, k, asWritten) == A.ConfigureFrom(open, after, cfg, k + 2, asWritten)
  }

  /** general_configure on the two timeouts (positions 0 and 1 of its order). */
  method ConfigureTimeouts(w: USBWatchDog, cfg: A.Config, asWritten: bool) returns (r: Result<()>)
    requires w.Valid()
    modifies w.dev
    ensures w.Valid() && w.h == old(w.h)
    ensures Advanced(old(w.IsOpen()), old(w.dev.State()), cfg, 0, asWritten, r, w.dev.State())
  {
    ghost var open := w.IsOpen();
    ghost var whole := A.ConfigureFrom(open, w.dev.State(), cfg, 0, asWritten);
    r := Success(());
    if cfg.nonvolatileTimeout.Some? {
      r := w.SetNonvolatileTimeout(cfg.nonvolatileTimeout.value);
      if r.Failure? { return; }
    }
    assert whole == A.ConfigureFrom(open, w.dev.State(), cfg, 1, asWritten);
    if cfg.timeout.Some? {
      r := w.SetVolatileTimeout(cfg.timeout.value);
      if r.Failure? { return; }
    }
    assert whole == A.ConfigureFrom(open, w.dev.State(), cfg, 2, asWritten);
  }

  /** One position of general_configure: when `r` and `after` are what the
      setting at position k does from `before`, the run from k is either
      that failure or the run from k+1 on `after`. */
  lemma ConfigureStep(open: bool, before: HidState, cfg: A.Config, k: nat, asWritten: bool, r: Result<()>, after: HidState)
    requires k < A.SETTINGS_COUNT && Reply(r, after) == A.ApplySetting(open, before, cfg, k, asWritten)
    ensures r.Failure? ==> Reply(r, after) == A.ConfigureFrom(open, before, cfg, k, asWritten)
    ensures r.Success? ==> A.ConfigureFrom(open, before, cfg, k, asWritten) == A.ConfigureFrom(open, after, cfg, k + 1, asWritten)
  {
  }

  /** general_configure on the two ping-light settings (positions 2 and 3 of its order). */
  method ConfigurePinglights(w: USBWatchDog, cfg: A.Config, asWritten: bool) returns (r: Result<()>)
    requires w.Valid()
    modifies w.dev
    ensures w.Valid() && w.h == old(w.h)
    ensures Advanced(old(w.IsOpen()), old(w.dev.State()), cfg, 2, asWritten, r, w.dev.State())
  {
    ghost var open := w.IsOpen();
    ghost var before := w.dev.State();
    r := Success(());
    if cfg.nonvolatilePinglight.Some? {
      r := w.SetNonvolatilePinglight(cfg.nonvolatilePinglight.value);
    }
    ConfigureStep(open, before, cfg, 2, asWritten, r, w.dev.State());
    if r.Failure? { return; }
    ghost var middle := w.dev.State();
    if cfg.pinglight.Some? {
      r := w.SetVolatilePinglight(cfg.pinglight.value);
    }
    ConfigureStep(open, middle, cfg, 3, asWritten, r, w.dev.State());
  }

  /** general_configure on the two buzzer settings (positions 4 and 5 of its order). */
  method ConfigureBuzzers(w: USBWatchDog, cfg: A.Config, asWritten: bool) returns (r: Result<()>)
    requires w.Valid()
    modifies w.dev
    ensures w.Valid() && w.h == old(w.h)
    ensures Advanced(old(w.IsOpen()), old(w.dev.State()), cfg, 4, asWritten, r, w.dev.State())
  {
    ghost var open := w.IsOpen();
    ghost var before := w.dev.State();
    r := Success(());
    if cfg.nonvolatileBuzzer.Some? {
      r := w.SetNonvolatileBuzzer(cfg.nonvolatileBuzzer.value);
    }
    ConfigureStep(open, before, cfg, 4, asWritten, r, w.dev.State());
    if r.Failure? { return; }
    ghost var middle := w.dev.State();
    if cfg.buzzer.Some? {
      r := w.SetVolatileBuzzer(cfg.buzzer.value);
    }
    ConfigureStep(open, middle, cfg, 5, asWritten, r, w.dev.State());
  }

  /** general_configure on the two buzzer frequencies (positions 6 and 7 of its order). */
  method ConfigureFrequencies(w: USBWatchDog, cfg: A.Config, asWritten: bool) returns (r: Result<()>)
    requires w.Valid()
    modifies w.dev
    ensures w.Valid() && w.h == old(w.h)
    ensures Advanced(old(w.IsOpen()), old(w.dev.State()), cfg, 6, asWritten, r, w.dev.State())
  {
    ghost var open := w.IsOpen();
    ghost var whole := A.ConfigureFrom(open, w.dev.State(), cfg, 6, asWritten);
    r := Success(());
    if cfg.nonvolatileBuzzerFrequency.Some? {
      r := w.SetNonvolatileBuzzerFrequency(cfg.nonvolatileBuzzerFrequency.value);
      if r.Failure? { return; }
    }
    assert whole == A.ConfigureFrom(open, w.dev.State(), cfg, 7, asWritten);
    if cfg.buzzerFrequency.Some? {
      r := w.SetVolatileBuzzerFrequency(cfg.buzzerFrequency.value);
      if r.Failure? { return; }
    }
    assert whole == A.ConfigureFrom(open, w.dev.State(), cfg, 8, asWritten);
  }

  /** general_configure on the beacon mode and the reboot indicator
      (positions 8 and 9 of its order). */
  method ConfigureModeAndIndicator(w: USBWatchDog, cfg: A.Config, asWritten: bool) returns (r: Result<()>)
    requires w.Valid()
    modifies w.dev
    ensures w.Valid() && w.h == old(w.h)
    ensures Advanced(old(w.IsOpen()), old(w.dev.State()), cfg, 8, asWritten, r, w.dev.State())
  {
    ghost var open := w.IsOpen();
    ghost var whole := A.ConfigureFrom(open, w.dev.State(), cfg, 8, asWritten);
    r := Success(());
    if asWritten && !A.HasBeaconModeOption(cfg.action) {
      return Failure(AttributeMissing);
    }
    var beaconMode := A.BeaconModeOption(cfg);
    if beaconMode.Some? {
      r := w.SetNonvolatileBeaconMode(beaconMode.value);
      if r.Failure? { return; }
    }
    assert whole == A.ConfigureFrom(open, w.dev.State(), cfg, 9, asWritten);
    if cfg.clearRebootIndicator {
      r := w.SetRebootIndicator();
      if r.Failure? { return; }
    }
    assert whole == A.ConfigureFrom(open, w.dev.State(), cfg, 10, asWritten);
  }

  method GeneralConfigure(w: USBWatchDog, cfg: A.Config, asWritten: bool) returns (r: Result<()>)
    requires w.Valid()
    modifies w.dev
    ensures w.Valid() && w.h == old(w.h)
    ensures Reply(r, w.dev.State()) == A.ConfigureFrom(old(w.IsOpen()), old(w.dev.State()), cfg, 0, asWritten)
  {
    r := ConfigureTimeouts(w, cfg, asWritten);
    if r.Failure? { return; }
    r := ConfigurePinglights(w, cfg, asWritten);
    if r.Failure? { return; }
    r := ConfigureBuzzers(w, cfg, asWritten);
    if r.Failure? { return; }
    r := ConfigureFrequencies(w, cfg, asWritten);
    if r.Failure? { return; }
    r := ConfigureModeAndIndicator(w, cfg, asWritten);
  }

  /** print_settings' reads of the serial number and the two timeouts
      (positions 0 to 2 of its order). */
  method ReadIdentity(w: USBWatchDog) returns (r: Result<()>)
    requires w.Valid()
    modifies w.dev
    ensures w.Valid() && w.h == old(w.h)
    ensures Read(old(w.IsOpen()), old(w.dev.State()), 0, 3, r, w.dev.State())
  {
    ghost var open := w.IsOpen();
    ghost var whole := A.ReadFrom(open, w.dev.State(), 0);
    var serialNumber := w.GetSerialNumber();
    match serialNumber { case Failure(e) => return Failure(e); case Success(_) => }
    assert whole == A.ReadFrom(open, w.dev.State(), 1);
    var nonvolatileTimeout := w.GetNonvolatileTimeout();
    match nonvolatileTimeout { case Failure(e) => return Failure(e); case Success(_) => }
    assert whole == A.ReadFrom(open, w.dev.State(), 2);
    var volatileTimeout := w.GetVolatileTimeout();
    match volatileTimeout { case Failure(e) => return Failure(e); case Success(_) => }
    assert whole == A.ReadFrom(open, w.dev.State(), 3);
    r := Success(());
  }

  /** print_settings' reads of the four ping-light and buzzer flags
      (positions 3 to 6 of its order). */
  method ReadFlags(w: USBWatchDog) returns (r: Result<()>)
    requires w.Valid()
    modifies w.dev
    ensures w.Valid() && w.h == old(w.h)
    ensures Read(old(w.IsOpen()), old(w.dev.State()), 3, 7, r, w.dev.State())
  {
    ghost var open := w.IsOpen();
    ghost var whole := A.ReadFrom(open, w.dev.State(), 3);
    var nonvolatilePinglight := w.GetNonvolatilePinglight();
    match nonvolatilePinglight { case Failure(e) => return Failure(e); case Success(_) => }
    assert whole == A.ReadFrom(open, w.dev.State(), 4);
    var nonvolatileBuzzer := w.GetNonvolatileBuzzer();
    match nonvolatileBuzzer { case Failure(e) => return Failure(e); case Success(_) => }
    assert whole == A.ReadFrom(open, w.dev.State(), 5);
    var volatilePinglight := w.GetVolatilePinglight();
    match volatilePinglight { case Failure(e) => return Failure(e); case Success(_) => }
    assert whole == A.ReadFrom(open, w.dev.State(), 6);
    var volatileBuzzer := w.GetVolatileBuzzer();
    match volatileBuzzer { case Failure(e) => return Failure(e); case Success(_) => }
    assert whole == A.ReadFrom(open, w.dev.State(), 7);
    r := Success(());
  }

  /** print_settings' reads of the two frequencies, the beacon mode and the
      reboot indicator (positions 7 to 10 of its order). */
  method ReadModes(w: USBWatchDog) returns (r: Result<()>)
    requires w.Valid()
    modifies w.dev
    ensures w.Valid() && w.h == old(w.h)
    ensures Read(old(w.IsOpen()), old(w.dev.State()), 7, 11, r, w.dev.State())
  {
    ghost var open := w.IsOpen();
    ghost var whole := A.ReadFrom(open, w.dev.State(), 7);
    var nonvolatileFrequency := w.GetNonvolatileBuzzerFrequency();
    match nonvolatileFrequency { case Failure(e) => return Failure(e); case Success(_) => }
    assert whole == A.ReadFrom(open, w.dev.State(), 8);
    var volatileFrequency := w.GetVolatileBuzzerFrequency();
    match volatileFrequency { case Failure(e) => return Failure(e); case Success(_) => }
    assert whole == A.ReadFrom(open, w.dev.State(), 9);
    var beaconMode := w.GetNonvolatileBeaconMode();
    match beaconMode { case Failure(e) => return Failure(e); case Success(_) => }
    assert whole == A.ReadFrom(open, w.dev.State(), 10);
    var rebootIndicator := w.GetRebootIndicator();
    match rebootIndicator { case Failure(e) => return Failure(e); case Success(_) => }
    assert whole == A.ReadFrom(open, w.dev.State(), 11);
    r := Success(());
  }

  /** What print_settings has done after its reads at positions from .. to-1
      from state `before`, in the manner of Advanced. */
  ghost predicate Read(open: bool, before: HidState, from: nat, to: nat, r: Result<()>, after: HidState) {
    if r.Failure? then Reply(r, after) == A.ReadFrom(open, before, from)
    else r == Success(()) && A.ReadFrom(open, before, from) == A.ReadFrom(open, after, to)
  }

  method PrintSettings(w: USBWatchDog) returns (r: Result<()>)
    requires w.Valid()
    modifies w.dev
    ensures w.Valid() && w.h == old(w.h)
    ensures Reply(r, w.dev.State()) == A.PrintSettings(old(w.IsOpen()), old(w.dev.State()))
  {
    r := ReadIdentity(w);
    if r.Failure? { return; }
    r := ReadFlags(w);
    if r.Failure? { return; }
    r := ReadModes(w);
  }

  method HandlePetting(w: USBWatchDog, cfg: A.Config) returns (code: int)
    requires w.Valid()
    modifies w.dev
    ensures w.Valid() && w.h == old(w.h)
    ensures A.Outcome(code, w.dev.State()) == A.Petting(old(w.IsOpen()), old(w.dev.State()), cfg)
  {
    var status := w.GetStatus(P.DEFAULT_STATUS_TIMEOUT_MS);
    if status.Failure? {
      return 1;
    }
    if status.value.beaconMode {
      return 1;
    }
    if status.value.rebootIndicator && cfg.detectReboot {
      return 2;
    }
    if status.value.triggered && cfg.detectTriggered {
      return 3;
    }
    var pet := w.Pet(true);
    code := if pet.Failure? then 1 else 0;
  }

  method HandleConfigureAction(w: USBWatchDog, cfg: A.Config, asWritten: bool) returns (code: int)
    requires w.Valid()
    modifies w.dev
    ensures w.Valid() && w.h == old(w.h)
    ensures A.Outcome(code, w.dev.State()) == A.HandleConfigure(old(w.IsOpen()), old(w.dev.State()), cfg, asWritten)
  {
    var configured := GeneralConfigure(w, cfg, asWritten);
    if configured.Failure? {
      return 1;
    }
    var printed := PrintSettings(w);
    code := if printed.Failure? then 1 else 0;
  }

  method HandleOneshotAction(w: USBWatchDog, cfg: A.Config, asWritten: bool) returns (code: int)
    requires w.Valid()
    modifies w.dev
    ensures w.Valid() && w.h == old(w.h)
    ensures A.Outcome(code, w.dev.State()) == A.HandleOneshot(old(w.IsOpen()), old(w.dev.State()), cfg, asWritten)
  {
    code := HandleConfigureAction(w, cfg, asWritten);
    if code != 0 {
      return;
    }
    code := HandlePetting(w, cfg);
  }

  /** handle_continuous_action's `while 1` loop: pet until a pet fails or is
      refused, or until the interrupt that follows the last of cfg.rounds
      pets. */
  method PetContinuously(w: USBWatchDog, cfg: A.Config) returns (code: int)
    requires w.Valid()
    modifies w.dev
    ensures w.Valid() && w.h == old(w.h)
    ensures A.Outcome(code, w.dev.State()) == A.PetRounds(old(w.IsOpen()), old(w.dev.State()), cfg, cfg.rounds)
  {
    ghost var open := w.IsOpen();
    ghost var whole := A.PetRounds(open, w.dev.State(), cfg, cfg.rounds);
    var n := 0;
    while n < cfg.rounds
      invariant 0 <= n <= cfg.rounds
      invariant w.Valid() && w.h == old(w.h)
      invariant whole == A.PetRounds(open, w.dev.State(), cfg, cfg.rounds - n)
      decreases cfg.rounds - n
    {
      code := HandlePetting(w, cfg);
      if code != 0 {
        return;
      }
      n := n + 1;
    }
    code := 1;  // the keyboard interrupt
  }

  method HandleContinuousAction(w: USBWatchDog, cfg: A.Config, asWritten: bool) returns (code: int)
    requires w.Valid()
    modifies w.dev
    ensures w.Valid() && w.h == old(w.h)
    ensures A.Outcome(code, w.dev.State()) == A.HandleContinuous(old(w.IsOpen()), old(w.dev.State()), cfg, asWritten)
  {
    code := HandleConfigureAction(w, cfg, asWritten);
    if code != 0 {
      return;
    }
    code := PetContinuously(w, cfg);
  }

  method HandleRebootedAction(w: USBWatchDog) returns (code: int)
    requires w.Valid()
    modifies w.dev
    ensures w.Valid() && w.h == old(w.h)
    ensures A.Outcome(code, w.dev.State()) == A.HandleRebooted(old(w.IsOpen()), old(w.dev.State()))
  {
    var status := w.GetStatus(P.DEFAULT_STATUS_TIMEOUT_MS);
    if status.Failure? {
      return 1;
    }
    code := if status.value.rebootIndicator then 2 else 0;
  }

  method HandleTriggeredAction(w: USBWatchDog) returns (code: int)
    requires w.Valid()
    modifies w.dev
    ensures w.Valid() && w.h == old(w.h)
    ensures A.Outcome(code, w.dev.State()) == A.HandleTriggered(old(w.IsOpen()), old(w.dev.State()))
  {
    var status := w.GetStatus(P.DEFAULT_STATUS_TIMEOUT_MS);
    if status.Failure? {
      return 1;
    }
    code := if status.value.triggered then 3 else 0;
  }

  method HandleModeAction(w: USBWatchDog) returns (code: int)
    requires w.Valid()
    modifies w.dev
    ensures w.Valid() && w.h == old(w.h)
    ensures A.Outcome(code, w.dev.State()) == A.HandleMode(old(w.IsOpen()), old(w.dev.State()))
  {
    var status := w.GetStatus(P.DEFAULT_STATUS_TIMEOUT_MS);
    if status.Failure? {
      return 1;
    }
    code := if status.value.beaconMode then 2 else 0;
  }

  method HandleBeaconAction(w: USBWatchDog, cfg: A.Config) returns (code: int)
    requires w.Valid()
    modifies w.dev
    ensures w.Valid() && w.h == old(w.h)
    ensures A.Outcome(code, w.dev.State()) == A.HandleBeacon(old(w.IsOpen()), old(w.dev.State()), cfg)
  {
    var status := w.GetStatus(P.DEFAULT_STATUS_TIMEOUT_MS);
    if status.Failure? {
      return 1;
    }
    if !status.value.beaconMode {
      return 1;
    }
    var sent := w.SetBeaconState(cfg.beaconState);
    code := if sent.Failure? then 1 else 0;
  }

  /** main, with the transport and the parsed command line passed in; returns
      the exit status. With asWritten, general_configure reads the beacon-mode
      attribute whatever the sub-command, as the script does; without it, a
      sub-command lacking the option skips that step. */
  method Run(device: HidDevice, cfg: A.Config, asWritten: bool) returns (code: int)
    modifies device
    ensures A.Outcome(code, device.State()) == A.RunWith(old(device.State()), cfg, asWritten)
  {
    var handle := USBWatchDog.Open(device, cfg.serialNumber);
    if handle.Failure? {
      return 1;
    }
    var w := handle.value;
    match cfg.action {
      case Configure => code := HandleConfigureAction(w, cfg, asWritten);
      case Oneshot => code := HandleOneshotAction(w, cfg, asWritten);
      case Continuous => code := HandleContinuousAction(w, cfg, asWritten);
      case Rebooted => code := HandleRebootedAction(w);
      case Triggered => code := HandleTriggeredAction(w);
      case Mode => code := HandleModeAction(w);
      case Beacon => code := HandleBeaconAction(w, cfg);
    }
    var closed := w.Close();
  }
}
