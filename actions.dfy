/** The script around the USBWatchDog class: the settings general_configure
    applies, print_settings' reads, the petting decision, the handlers of the
    seven sub-commands and main's open/dispatch/close, as functions of the
    parsed command line and the transport state. Module Script runs the same
    steps on a USBWatchDog and is proved to agree with these functions. */
module Actions {
  import opened Types
  import opened Hid
  import P = Protocol

  datatype Action = Rebooted | Triggered | Configure | Oneshot | Continuous | Mode | Beacon

  /** The parsed command line, standing for the script's global `args`. An
      option the sub-command does not offer is None (false for the flags).
      `rounds` is how many pets the continuous loop completes before the
      keyboard interrupt that ends it. */
  datatype Config = Config(
    action: Action,
    serialNumber: Option<string>,
    nonvolatileTimeout: Option<int>,
    timeout: Option<int>,
    nonvolatilePinglight: Option<bool>,
    pinglight: Option<bool>,
    nonvolatileBuzzer: Option<bool>,
    buzzer: Option<bool>,
    nonvolatileBuzzerFrequency: Option<int>,
    buzzerFrequency: Option<int>,
    nonvolatileBeaconMode: Option<bool>,
    clearRebootIndicator: bool,
    detectReboot: bool,
    detectTriggered: bool,
    beaconState: bool,
    rounds: nat)

  /** Of the sub-commands that configure, only `configure` has a parser that
      defines --nonvolatile-beacon-mode; for oneshot and continuous the
      attribute does not exist at all. */
  predicate HasBeaconModeOption(action: Action) {
    action == Configure
  }

  /** How a sub-command ended: the exit status it leads to (0 when the
      handler returns normally) and the transport state left behind. */
  datatype Outcome = Outcome(code: int, next: HidState)

  // ---------------------------------------------------------------------------
  // general_configure

  /** general_configure makes up to ten setting changes, each only when its
      option was given, in this fixed order: nonvolatile timeout, timeout,
      nonvolatile ping light, ping light, nonvolatile buzzer, buzzer,
      nonvolatile buzzer frequency, buzzer frequency, nonvolatile beacon mode,
      clearing the reboot indicator. */
  const SETTINGS_COUNT := 10

  /** The beacon-mode option as the corrected script reads it: a sub-command
      without the option counts as not having been given it. */
  function BeaconModeOption(cfg: Config): Option<bool> {
    if HasBeaconModeOption(cfg.action) then cfg.nonvolatileBeaconMode else None
  }

  /** The setting change at position k of the order, if its option was given.
      asWritten reads the beacon-mode attribute unconditionally, as the script
      does, so a sub-command without that option fails there. */
  function ApplySetting(open: bool, s: HidState, cfg: Config, k: nat, asWritten: bool): Reply<()> {
    var kept := Reply(Success(()), s);
    match k
    case 0 =>
      if cfg.nonvolatileTimeout.None? then kept
      else P.SetTimeout(open, s, P.FR_NONVOLATILE_TIMEOUT, cfg.nonvolatileTimeout.value)
    case 1 =>
      if cfg.timeout.None? then kept
      else P.SetTimeout(open, s, P.FR_VOLATILE_TIMEOUT, cfg.timeout.value)
    case 2 =>
      if cfg.nonvolatilePinglight.None? then kept
      else P.SetPinglightBuzzer(open, s, P.FR_NONVOLATILE_PINGLIGHT_BUZZER, cfg.nonvolatilePinglight, None)
    case 3 =>
      if cfg.pinglight.None? then kept
      else P.SetPinglightBuzzer(open, s, P.FR_VOLATILE_PINGLIGHT_BUZZER, cfg.pinglight, None)
    case 4 =>
      if cfg.nonvolatileBuzzer.None? then kept
      else P.SetPinglightBuzzer(open, s, P.FR_NONVOLATILE_PINGLIGHT_BUZZER, None, cfg.nonvolatileBuzzer)
    case 5 =>
      if cfg.buzzer.None? then kept
      else P.SetPinglightBuzzer(open, s, P.FR_VOLATILE_PINGLIGHT_BUZZER, None, cfg.buzzer)
    case 6 =>
      if cfg.nonvolatileBuzzerFrequency.None? then kept
      else P.SetFrequency(open, s, P.FR_NONVOLATILE_BUZZER_FREQUENCY, cfg.nonvolatileBuzzerFrequency.value)
    case 7 =>
      if cfg.buzzerFrequency.None? then kept
      else P.SetFrequency(open, s, P.FR_VOLATILE_BUZZER_FREQUENCY, cfg.buzzerFrequency.value)
    case 8 =>
      if asWritten && !HasBeaconModeOption(cfg.action) then Reply(Failure(AttributeMissing), s)
      else if BeaconModeOption(cfg).None? then kept
      else P.SetBeaconMode(open, s, BeaconModeOption(cfg).value)
    case 9 =>
      if !cfg.clearRebootIndicator then kept
      else P.SetRebootIndicator(open, s)
    case _ => kept
  }

  /** The setting changes from position k on, stopping at the first failure. */
  function ConfigureFrom(open: bool, s: HidState, cfg: Config, k: nat, asWritten: bool): Reply<()>
    decreases SETTINGS_COUNT - k
  {
    if k >= SETTINGS_COUNT then Reply(Success(()), s)
    else
      var r := ApplySetting(open, s, cfg, k, asWritten);
      if r.result.Failure? then r else ConfigureFrom(open, r.next, cfg, k + 1, asWritten)
  }

  /** general_configure with a missing beacon-mode attribute read as "not given". */
  function GeneralConfigure(open: bool, s: HidState, cfg: Config): Reply<()> {
    ConfigureFrom(open, s, cfg, 0, false)
  }

  /** general_configure as the script has it. */
  function GeneralConfigureAsWritten(open: bool, s: HidState, cfg: Config): Reply<()> {
    ConfigureFrom(open, s, cfg, 0, true)
  }

  // ---------------------------------------------------------------------------
  // print_settings

  /** print_settings calls eleven getters, in this order: serial number,
      nonvolatile and volatile timeout, nonvolatile ping light and buzzer,
      volatile ping light and buzzer, nonvolatile and volatile buzzer
      frequency, beacon mode, reboot indicator. The values are only printed. */
  const QUERIES_COUNT := 11

  function Discard<T>(r: Reply<T>): Reply<()> {
    Reply(if r.result.Success? then Success(()) else Failure(r.result.error), r.next)
  }

  /** The getter at position k of print_settings' order. */
  function ReadSetting(open: bool, s: HidState, k: nat): Reply<()> {
    match k
    case 0 => Discard(P.GetSerialNumber(open, s))
    case 1 => Discard(P.GetTimeout(open, s, P.FR_NONVOLATILE_TIMEOUT))
    case 2 => Discard(P.GetTimeout(open, s, P.FR_VOLATILE_TIMEOUT))
    case 3 => Discard(P.GetFlag(open, s, P.FR_NONVOLATILE_PINGLIGHT_BUZZER, P.PINGLIGHT_BIT))
    case 4 => Discard(P.GetFlag(open, s, P.FR_NONVOLATILE_PINGLIGHT_BUZZER, P.BUZZER_BIT))
    case 5 => Discard(P.GetFlag(open, s, P.FR_VOLATILE_PINGLIGHT_BUZZER, P.PINGLIGHT_BIT))
    case 6 => Discard(P.GetFlag(open, s, P.FR_VOLATILE_PINGLIGHT_BUZZER, P.BUZZER_BIT))
    case 7 => Discard(P.GetFrequency(open, s, P.FR_NONVOLATILE_BUZZER_FREQUENCY))
    case 8 => Discard(P.GetFrequency(open, s, P.FR_VOLATILE_BUZZER_FREQUENCY))
    case 9 => Discard(P.GetBeaconMode(open, s))
    case 10 => Discard(P.GetRebootIndicator(open, s))
    case _ => Reply(Success(()), s)
  }

  function ReadFrom(open: bool, s: HidState, k: nat): Reply<()>
    decreases QUERIES_COUNT - k
  {
    if k >= QUERIES_COUNT then Reply(Success(()), s)
    else
      var r := ReadSetting(open, s, k);
      if r.result.Failure? then r else ReadFrom(open, r.next, k + 1)
  }

  function PrintSettings(open: bool, s: HidState): Reply<()> {
    ReadFrom(open, s, 0)
  }

  // ---------------------------------------------------------------------------
  // Handlers

  /** handle_petting: read the status; refuse in beacon mode, then on a
      detected reboot, then on a detected trigger; otherwise pet. */
  function Petting(open: bool, s: HidState, cfg: Config): Outcome {
    var status := P.GetStatus(open, s, P.DEFAULT_STATUS_TIMEOUT_MS);
    if status.result.Failure? then Outcome(1, status.next)
    else
      var st := status.result.value;
      if st.beaconMode then Outcome(1, status.next)
      else if st.rebootIndicator && cfg.detectReboot then Outcome(2, status.next)
      else if st.triggered && cfg.detectTriggered then Outcome(3, status.next)
      else
        var pet := P.Pet(open, status.next, true);
        Outcome(if pet.result.Failure? then 1 else 0, pet.next)
  }

  /** handle_configure_action: configure, then read every setting back. */
  function HandleConfigure(open: bool, s: HidState, cfg: Config, asWritten: bool): Outcome {
    var c := ConfigureFrom(open, s, cfg, 0, asWritten);
    if c.result.Failure? then Outcome(1, c.next)
    else
      var p := PrintSettings(open, c.next);
      Outcome(if p.result.Failure? then 1 else 0, p.next)
  }

  function HandleOneshot(open: bool, s: HidState, cfg: Config, asWritten: bool): Outcome {
    var c := HandleConfigure(open, s, cfg, asWritten);
    if c.code != 0 then c else Petting(open, c.next, cfg)
  }

  /** The `while 1` petting loop, ended by the interrupt after `rounds` pets. */
  function PetRounds(open: bool, s: HidState, cfg: Config, rounds: nat): Outcome
    decreases rounds
  {
    if rounds == 0 then Outcome(1, s)
    else
      var p := Petting(open, s, cfg);
      if p.code != 0 then p else PetRounds(open, p.next, cfg, rounds - 1)
  }

  function HandleContinuous(open: bool, s: HidState, cfg: Config, asWritten: bool): Outcome {
    var c := HandleConfigure(open, s, cfg, asWritten);
    if c.code != 0 then c else PetRounds(open, c.next, cfg, cfg.rounds)
  }

  function HandleRebooted(open: bool, s: HidState): Outcome {
    var status := P.GetStatus(open, s, P.DEFAULT_STATUS_TIMEOUT_MS);
    if status.result.Failure? then Outcome(1, status.next)
    else if status.result.value.rebootIndicator then Outcome(2, status.next)
    else Outcome(0, status.next)
  }

  function HandleTriggered(open: bool, s: HidState): Outcome {
    var status := P.GetStatus(open, s, P.DEFAULT_STATUS_TIMEOUT_MS);
    if status.result.Failure? then Outcome(1, status.next)
    else if status.result.value.triggered then Outcome(3, status.next)
    else Outcome(0, status.next)
  }

  function HandleMode(open: bool, s: HidState): Outcome {
    var status := P.GetStatus(open, s, P.DEFAULT_STATUS_TIMEOUT_MS);
    if status.result.Failure? then Outcome(1, status.next)
    else if status.result.value.beaconMode then Outcome(2, status.next)
    else Outcome(0, status.next)
  }

  function HandleBeacon(open: bool, s: HidState, cfg: Config): Outcome {
    var status := P.GetStatus(open, s, P.DEFAULT_STATUS_TIMEOUT_MS);
    if status.result.Failure? then Outcome(1, status.next)
    else if !status.result.value.beaconMode then Outcome(1, status.next)
    else
      var sent := P.SetBeaconState(open, status.next, cfg.beaconState);
      Outcome(if sent.result.Failure? then 1 else 0, sent.next)
  }

  function Dispatch(open: bool, s: HidState, cfg: Config, asWritten: bool): Outcome {
    match cfg.action
    case Configure => HandleConfigure(open, s, cfg, asWritten)
    case Oneshot => HandleOneshot(open, s, cfg, asWritten)
    case Continuous => HandleContinuous(open, s, cfg, asWritten)
    case Rebooted => HandleRebooted(open, s)
    case Triggered => HandleTriggered(open, s)
    case Mode => HandleMode(open, s)
    case Beacon => HandleBeacon(open, s, cfg)
  }

  /** main: open the dongle (exit 1 if that fails), run the sub-command,
      then close the handle whatever the sub-command's outcome. */
  function RunWith(s: HidState, cfg: Config, asWritten: bool): Outcome {
    var o := HidOpen(s, P.VENDOR_ID, P.PRODUCT_ID, cfg.serialNumber);
    if o.result.Failure? then Outcome(1, o.next)
    else
      var d := Dispatch(true, o.next, cfg, asWritten);
      var c := P.Close(true, d.next);
      Outcome(d.code, c.next)
  }

  function Run(s: HidState, cfg: Config): Outcome {
    RunWith(s, cfg, false)
  }

  function RunAsWritten(s: HidState, cfg: Config): Outcome {
    RunWith(s, cfg, true)
  }
}
