/** The policy of an instance and the text forms of its values. */
module RuntimePolicy {
  import opened Input
  import opened InstanceNames

  const UINT32_MAX: nat := 0xffff_ffff
  const UINT64_MAX: nat := 0xffff_ffff_ffff_ffff

  datatype Config = Config(
    source: Option<string>,
    name: Option<string>,
    activityTimeoutMs: nat,
    detectionThrottleMs: nat,
    runningMotionActivity: bool,
    pausedMotionActivity: bool,
    startPaused: bool,
    verbose: bool)

  const DEFAULTS := Config(None, None, 5000, 250, true, true, false, false)

  // ----- Decimals -----

  function DigitOf(n: nat): char
    requires n < 10
  {
    '0' + n as char
  }

  function ValueOf(c: char): nat
    requires IsDigit(c)
  {
    (c - '0') as nat
  }

  predicate AllDigits(text: string) {
    forall c | c in text :: IsDigit(c)
  }

  /** The number a digit string stands for; leading zeros do not matter. */
  function DecimalValue(text: string): nat
    requires AllDigits(text)
  {
    if text == [] then 0
    else
      assert text[|text| - 1] in text;
      10 * DecimalValue(text[..|text| - 1]) + ValueOf(text[|text| - 1])
  }

  /** What printing a number yields. */
  function Decimal(n: nat): string {
    if n < 10 then [DigitOf(n)] else Decimal(n / 10) + [DigitOf(n % 10)]
  }

  lemma {:induction false} DecimalRoundTrip(n: nat)
    ensures Decimal(n) != [] && AllDigits(Decimal(n)) && DecimalValue(Decimal(n)) == n
  {
    if n >= 10 {
      DecimalRoundTrip(n / 10);
      assert Decimal(n)[..|Decimal(n)| - 1] == Decimal(n / 10);
    } else {
      assert Decimal(n)[..0] == [];
    }
  }

  /** Digits are printed and read from the most significant on. */
  lemma DefaultDurationsInDecimal()
    ensures Decimal(5000) == "5000" && Decimal(250) == "250"
    ensures DecimalValue("5000") == 5000 && DecimalValue("250") == 250
  {
    assert Decimal(5) == "5" && Decimal(50) == "50" && Decimal(500) == "500";
    assert Decimal(2) == "2" && Decimal(25) == "25";
    DecimalRoundTrip(5000);
    DecimalRoundTrip(250);
  }

  lemma {:induction false} PrefixIsSmaller(text: string, i: nat)
    requires AllDigits(text) && i <= |text|
    ensures AllDigits(text[..i]) && DecimalValue(text[..i]) <= DecimalValue(text)
    decreases |text| - i
  {
    if i < |text| {
      PrefixIsSmaller(text, i + 1);
      assert text[..i + 1][..i] == text[..i];
    } else {
      assert text[..i] == text;
    }
  }

  /** Reads a digit string the way strtoumax does: too large a value is
      reported, whatever its length. */
  method StrToUMax(text: string) returns (value: nat, range: bool)
    requires AllDigits(text)
    ensures range <==> DecimalValue(text) > UINT64_MAX
    ensures value == if range then UINT64_MAX else DecimalValue(text)
  {
    value, range := 0, false;
    for i := 0 to |text|
      invariant AllDigits(text[..i])
      invariant range <==> DecimalValue(text[..i]) > UINT64_MAX
      invariant !range ==> value == DecimalValue(text[..i])
    {
      PrefixIsSmaller(text, i + 1);
      assert text[..i + 1][..i] == text[..i];
      assert text[i] in text;
      if !range {
        value := 10 * value + ValueOf(text[i]);
        range := value > UINT64_MAX;
      }
    }
    assert text[..|text|] == text;
    if range {
      value := UINT64_MAX;
    }
  }

  predicate ValidDuration(text: string) {
    text != [] && AllDigits(text) && DecimalValue(text) <= UINT32_MAX
  }

  /** Accepts exactly the non-empty digit strings, of any length, whose value
      fits 32 bits. */
  method ParseDuration(text: string) returns (durationMs: Option<nat>)
    ensures durationMs == if ValidDuration(text) then Some(DecimalValue(text)) else None
    ensures durationMs.Some? <==>
      text != [] && (forall c | c in text :: '0' <= c <= '9') && DecimalValue(text) <= 0xffff_ffff
  {
    if text == [] {
      return None;
    }
    for i := 0 to |text|
      invariant forall j | 0 <= j < i :: IsDigit(text[j])
    {
      if !IsDigit(text[i]) {
        assert text[i] in text;
        return None;
      }
    }
    var value, range := StrToUMax(text);
    if range || value > UINT32_MAX {
      return None;
    }
    return Some(value);
  }

  function OnOff(enabled: bool): string {
    if enabled then "on" else "off"
  }

  method ParseOnOff(text: string) returns (enabled: Option<bool>)
    ensures forall b: bool :: enabled == Some(b) <==> text == OnOff(b)
    ensures enabled == Some(true) <==> text == "on"
    ensures enabled == Some(false) <==> text == "off"
  {
    if text == "on" {
      return Some(true);
    }
    if text == "off" {
      return Some(false);
    }
    return None;
  }
}
