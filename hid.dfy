/** The HID transport the watchdog talks to, as an abstract device.

    The state holds, per feature-report id, the bytes the device answers a
    "get feature report" with (the leading report-id byte included, and
    possibly trailing bytes, as some hosts deliver); the queue of input
    reports, each exactly what one `read` call returns; whether transfers
    from the device fail and, separately, whether transfers to it fail; and a
    transcript of every call made on the transport.

    A feature report that is accepted becomes the register's new reply (a
    register-file device). A list holding a value outside 0..255 cannot be
    converted by the HID library and is refused before anything is sent. */
module Hid {
  import opened Types

  datatype Call =
    | Open(vendorId: int, productId: int, serialNumber: Option<string>)
    | GetFeature(reportId: int, maxLength: int)
    | SendFeature(data: seq<int>)
    | Read(maxLength: int, timeoutMs: int)
    | Write(data: seq<int>)
    | Close

  datatype HidState = HidState(
    present: bool,                      // a matching dongle is attached, so `open` succeeds
    features: map<int, seq<Byte>>,      // reply to "get feature report", per report id
    inputs: seq<seq<Byte>>,             // pending input reports, oldest first
    readFaulty: bool,                   // transfers from the device fail (get feature report, read)
    writeFaulty: bool,                  // transfers to the device fail (send feature report, write)
    log: seq<Call>)                     // every call made, in order

  /** What one call returns, and the transport state after it. */
  datatype Reply<+T> = Reply(result: Result<T>, next: HidState)

  predicate AllBytes(data: seq<int>) {
    forall i :: 0 <= i < |data| ==> 0 <= data[i] < 256
  }

  function HidOpen(s: HidState, vendorId: int, productId: int, serialNumber: Option<string>): Reply<()> {
    var t := s.(log := s.log + [Open(vendorId, productId, serialNumber)]);
    Reply(if s.present then Success(()) else Failure(IOFailure), t)
  }

  /** hid get_feature_report: raises IOError when the transfer fails. */
  function HidGetFeatureReport(s: HidState, reportId: int, maxLength: int): Reply<seq<Byte>> {
    var t := s.(log := s.log + [GetFeature(reportId, maxLength)]);
    if s.readFaulty || reportId !in s.features then Reply(Failure(IOFailure), t)
    else Reply(Success(s.features[reportId]), t)
  }

  /** hid send_feature_report: returns the byte count written, -1 when it fails. */
  function HidSendFeatureReport(s: HidState, data: seq<int>): Reply<int>
    requires |data| > 0
  {
    if !AllBytes(data) then Reply(Failure(NotAByte), s)
    else
      var t := s.(log := s.log + [SendFeature(data)]);
      if s.writeFaulty then Reply(Success(-1), t)
      else
        var stored: seq<Byte> := data;
        Reply(Success(|data|), t.(features := s.features[data[0] := stored]))
  }

  /** hid read: the next queued input report, or nothing when the timeout
      passes with the queue empty; raises IOError when the transfer fails. */
  function HidRead(s: HidState, maxLength: int, timeoutMs: int): Reply<seq<Byte>> {
    var t := s.(log := s.log + [Read(maxLength, timeoutMs)]);
    if s.readFaulty then Reply(Failure(IOFailure), t)
    else if s.inputs == [] then Reply(Success([]), t)
    else Reply(Success(s.inputs[0]), t.(inputs := s.inputs[1..]))
  }

  /** hid write: returns the byte count written, -1 when it fails. */
  function HidWrite(s: HidState, data: seq<int>): Reply<int> {
    if !AllBytes(data) then Reply(Failure(NotAByte), s)
    else
      var t := s.(log := s.log + [Write(data)]);
      Reply(Success(if s.writeFaulty then -1 else |data|), t)
  }

  function HidClose(s: HidState): HidState {
    s.(log := s.log + [Close])
  }

  /** The transport object behind the watchdog's handle. Each method performs
      one call and is the transition function of the same name. */
  class HidDevice {
    var present: bool
    var features: map<int, seq<Byte>>
    var inputs: seq<seq<Byte>>
    var readFaulty: bool
    var writeFaulty: bool
    var log: seq<Call>

    function State(): HidState
      reads this
    {
      HidState(present, features, inputs, readFaulty, writeFaulty, log)
    }

    constructor (initial: HidState)
      ensures State() == initial
    {
      present, features, inputs, readFaulty, writeFaulty, log :=
        initial.present, initial.features, initial.inputs, initial.readFaulty, initial.writeFaulty, initial.log;
    }

    method Open(vendorId: int, productId: int, serialNumber: Option<string>) returns (r: Result<()>)
      modifies this
      ensures Reply(r, State()) == HidOpen(old(State()), vendorId, productId, serialNumber)
    {
      log := log + [Call.Open(vendorId, productId, serialNumber)];
      r := if present then Success(()) else Failure(IOFailure);
    }

    method GetFeatureReport(reportId: int, maxLength: int) returns (r: Result<seq<Byte>>)
      modifies this
      ensures Reply(r, State()) == HidGetFeatureReport(old(State()), reportId, maxLength)
    {
      log := log + [GetFeature(reportId, maxLength)];
      if readFaulty || reportId !in features {
        r := Failure(IOFailure);
      } else {
        r := Success(features[reportId]);
      }
    }

    method SendFeatureReport(data: seq<int>) returns (r: Result<int>)
      requires |data| > 0
      modifies this
      ensures Reply(r, State()) == HidSendFeatureReport(old(State()), data)
    {
      if !AllBytes(data) {
        return Failure(NotAByte);
      }
      log := log + [SendFeature(data)];
      if writeFaulty {
        r := Success(-1);
      } else {
        features := features[data[0] := data];
        r := Success(|data|);
      }
    }

    method Read(maxLength: int, timeoutMs: int) returns (r: Result<seq<Byte>>)
      modifies this
      ensures Reply(r, State()) == HidRead(old(State()), maxLength, timeoutMs)
    {
      log := log + [Call.Read(maxLength, timeoutMs)];
      if readFaulty {
        r := Failure(IOFailure);
      } else if inputs == [] {
        r := Success([]);
      } else {
        r := Success(inputs[0]);
        inputs := inputs[1..];
      }
    }

    method Write(data: seq<int>) returns (r: Result<int>)
      modifies this
      ensures Reply(r, State()) == HidWrite(old(State()), data)
    {
      if !AllBytes(data) {
        return Failure(NotAByte);
      }
      log := log + [Call.Write(data)];
      r := Success(if writeFaulty then -1 else |data|);
    }

    method Close()
      modifies this
      ensures State() == HidClose(old(State()))
    {
      log := log + [Call.Close];
    }
  }
}
