/** Pure value codecs of the watchdog tool: the command-line value checkers,
    the little-endian 16-bit codec, single-bit tests on a flags byte, the
    serial-number pattern and the byte/character conversions. */
module Codec {
  import opened Types

  const MAX_UINT16 := 0xFFFF   // 2**16 - 1
  const MAX_UINT8 := 0xFF      // 2**8 - 1
  const MIN_FREQUENCY := 42

  // ---------------------------------------------------------------------------
  // Command-line value checkers (the parsed integer is given; argparse's
  // string-to-int conversion is not part of the model)

  /** check_timeout: rejects 0 and anything above 2**16 - 1, and nothing else. */
  function CheckTimeout(value: int): (r: Option<int>)
    ensures r.Some? <==> value != 0 && value <= MAX_UINT16
    ensures r.Some? ==> r.value == value
  {
    if value == 0 || value > MAX_UINT16 then None else Some(value)
  }

  /** check_frequency: accepts exactly 42..255. */
  function CheckFrequency(value: int): (r: Option<int>)
    ensures r.Some? <==> MIN_FREQUENCY <= value <= MAX_UINT8
    ensures r.Some? ==> r.value == value
  {
    if value < MIN_FREQUENCY || value > MAX_UINT8 then None else Some(value)
  }

  /** check_serialnumber: accepts what re.match('^[\w-]+$', value) matches. */
  function CheckSerialNumber(value: string): (r: Option<string>)
    ensures r.Some? <==> MatchesSerialPattern(value)
    ensures r.Some? ==> r.value == value
  {
    if MatchesSerialPattern(value) then Some(value) else None
  }

  // ---------------------------------------------------------------------------
  // Serial-number pattern: `\w` on a Python 2 byte string without flags is
  // [A-Za-z0-9_], and `$` matches at the end or just before a final newline.

  predicate IsSerialChar(c: char) {
    ('a' <= c <= 'z') || ('A' <= c <= 'Z') || ('0' <= c <= '9') || c == '_' || c == '-'
  }

  predicate AllSerialChars(s: string) {
    forall i :: 0 <= i < |s| ==> IsSerialChar(s[i])
  }

  predicate MatchesSerialPattern(s: string) {
    || (|s| > 0 && AllSerialChars(s))
    || (|s| > 1 && s[|s| - 1] == '\n' && AllSerialChars(s[..|s| - 1]))
  }

  /** Every character of a matching string is ASCII, so `ord` of each one is a byte. */
  lemma MatchedCharsAreAscii(s: string)
    requires MatchesSerialPattern(s)
    ensures forall i :: 0 <= i < |s| ==> 0 <= s[i] as int < 128
  {
    if !AllSerialChars(s) {
      forall i | 0 <= i < |s|
        ensures 0 <= s[i] as int < 128
      {
        if i < |s| - 1 {
          assert s[i] == s[..|s| - 1][i];
        }
      }
    }
  }

  /** As written, the pattern also accepts a run of word characters followed by
      one newline, so a 19-character serial number plus '\n' has length 20. */
  lemma {:induction false} PatternAcceptsTrailingNewline(t: string)
    requires |t| > 0 && AllSerialChars(t)
    ensures MatchesSerialPattern(t + "\n")
    ensures !AllSerialChars(t + "\n")
  {
    var s := t + "\n";
    assert s[..|s| - 1] == t;
    assert s[|s| - 1] == '\n';
  }

  // ---------------------------------------------------------------------------
  // Little-endian unsigned 16-bit codec (__to_uint16, __from_uint16)

  /** __to_uint16: array[1]*256 + array[0]; the low byte comes first. */
  function ToUint16(a: seq<Byte>): (v: int)
    requires |a| >= 2
    ensures 0 <= v <= MAX_UINT16
    ensures v % 256 == a[0] && v / 256 == a[1]
  {
    (a[1] as int) * 256 + (a[0] as int)
  }

  /** __from_uint16: fails above 2**16 - 1; otherwise [val % 256, val // 256]
      with Python's floor division, which Dafny's `/` and `%` by a positive
      divisor agree with. Negative values are not rejected. */
  function FromUint16(v: int): (r: Result<seq<int>>)
    ensures r.Success? <==> v <= MAX_UINT16
    ensures r.Failure? ==> r.error == ValueTooLarge
    ensures r.Success? ==> |r.value| == 2 && 0 <= r.value[0] < 256 && r.value[0] + 256 * r.value[1] == v
    ensures r.Success? ==> (0 <= r.value[1] < 256 <==> 0 <= v)
  {
    if v > MAX_UINT16 then Failure(ValueTooLarge) else Success([v % 256, v / 256])
  }

  /** Decoding inverts encoding on the whole 16-bit range. */
  lemma {:induction false} Uint16RoundTrip(v: int)
    requires 0 <= v <= MAX_UINT16
    ensures FromUint16(v).Success?
    ensures var a := FromUint16(v).value; 0 <= a[1] < 256 && ToUint16([a[0], a[1]]) == v
  {
  }

  /** Encoding inverts decoding on every byte pair. */
  lemma {:induction false} Uint16BytesRoundTrip(a: seq<Byte>)
    requires |a| == 2
    ensures FromUint16(ToUint16(a)) == Success(a)
  {
    var v := ToUint16(a);
    assert FromUint16(v).value == [a[0], a[1]];
    assert a == [a[0], a[1]];
  }

  /** Every timeout check_timeout accepts can be encoded, and the encoding is a
      pair of bytes exactly when the timeout is positive: a negative timeout
      passes the checker and yields a negative high byte. */
  lemma CheckedTimeoutEncodes(v: int)
    requires CheckTimeout(v).Some?
    ensures FromUint16(v).Success?
    ensures (0 <= FromUint16(v).value[1] < 256) <==> 0 < v
  {
  }

  // ---------------------------------------------------------------------------
  // Bitwise operators on bytes (Python's `&` and `|` on values in 0..255)

  function And(x: Byte, y: Byte): Byte
  {
    ((x as bv8) & (y as bv8)) as int
  }

  function Or(x: Byte, y: Byte): Byte
  {
    ((x as bv8) | (y as bv8)) as int
  }

  /** bool(x & mask) */
  predicate HasBit(x: Byte, mask: Byte) {
    And(x, mask) != 0
  }

  // ---------------------------------------------------------------------------
  // Byte/character conversions: chr of each received byte, ord of each character

  function BytesToText(b: seq<Byte>): (t: string)
    ensures |t| == |b|
    ensures forall i :: 0 <= i < |b| ==> t[i] as int == b[i]
  {
    seq(|b|, i requires 0 <= i < |b| => b[i] as char)
  }

  function TextToCodes(t: string): (c: seq<int>)
    ensures |c| == |t|
    ensures forall i :: 0 <= i < |t| ==> c[i] == t[i] as int
  {
    seq(|t|, i requires 0 <= i < |t| => t[i] as int)
  }

  /** chr(ord(c)) == c for every character below 256. */
  lemma TextCodesRoundTrip(t: string)
    requires forall i :: 0 <= i < |t| ==> t[i] as int < 256
    ensures var c := TextToCodes(t);
      (forall i :: 0 <= i < |c| ==> 0 <= c[i] < 256) &&
      BytesToText(seq(|c|, i requires 0 <= i < |c| => c[i] as Byte)) == t
  {
    var c := TextToCodes(t);
    var b := seq(|c|, i requires 0 <= i < |c| => c[i] as Byte);
    assert BytesToText(b) == t;
  }
}
