/**
 * The argument checks of the moderation commands in main.py: the duration string
 * of `mute` and the amount of `purge`.
 */
module Moderation {
  import opened Common

  // ---------------------------------------------------------------------------
  // Python's int() on a base-10 string

  predicate IsDigit(c: char) {
    '0' <= c <= '9'
  }

  /**
   * The characters int() ignores around a number: the ASCII whitespace tab, line feed,
   * vertical tab, form feed, carriage return and space, and the non-ASCII Unicode
   * whitespace. The separators U+001C to U+001F count as whitespace for `str.isspace`
   * but make int() raise.
   */
  predicate IsSpace(c: char) {
    var n := c as int;
    (9 <= n <= 13) || n == 32 || n == 0x85 || n == 0xA0 || n == 0x1680
    || (0x2000 <= n <= 0x200A) || n == 0x2028 || n == 0x2029 || n == 0x202F
    || n == 0x205F || n == 0x3000
  }

  function StripLeft(s: string): string
  {
    if s != [] && IsSpace(s[0]) then StripLeft(s[1..]) else s
  }

  function StripRight(s: string): string
  {
    if s != [] && IsSpace(s[|s| - 1]) then StripRight(s[..|s| - 1]) else s
  }

  function Strip(s: string): string {
    StripRight(StripLeft(s))
  }

  /**
   * A run of decimal digits in which single underscores may separate digits
   * ("1_000"), as int() accepts: the grammar digit ("_"? digit)*, read from the end.
   */
  predicate WellFormedDigits(s: string)
    decreases |s|
  {
    && |s| > 0 && IsDigit(s[|s| - 1])
    && (|s| == 1 ||
        if s[|s| - 2] == '_' then |s| > 2 && WellFormedDigits(s[..|s| - 2])
        else WellFormedDigits(s[..|s| - 1]))
  }

  function DigitValue(c: char): nat
    requires IsDigit(c)
  {
    (c as int) - ('0' as int)
  }

  /** The number the digits spell, underscores ignored. */
  function DigitsValue(s: string): nat
    requires WellFormedDigits(s)
    decreases |s|
  {
    var d := DigitValue(s[|s| - 1]);
    if |s| == 1 then d
    else if s[|s| - 2] == '_' then DigitsValue(s[..|s| - 2]) * 10 + d
    else DigitsValue(s[..|s| - 1]) * 10 + d
  }

  /** `int(s)`: None where Python raises ValueError. */
  function ParseInt(s: string): Option<int> {
    ParseSignedDigits(Strip(s))
  }

  /** An optional sign followed by digits, nothing around them. */
  function ParseSignedDigits(t: string): Option<int> {
    if |t| > 0 && (t[0] == '+' || t[0] == '-') then
      if WellFormedDigits(t[1..]) then
        var magnitude: int := DigitsValue(t[1..]);
        Some(if t[0] == '-' then -magnitude else magnitude)
      else None
    else if WellFormedDigits(t) then Some(DigitsValue(t) as int)
    else None
  }

  /** The decimal numeral of `n`, as `str(n)` writes it. */
  function Decimal(n: nat): string {
    var d := ["0123456789"[n % 10]];
    if n < 10 then d else Decimal(n / 10) + d
  }

  /** `str(n)` is a run of digits with no whitespace around it, and it spells `n`. */
  lemma {:induction false} DecimalDigits(n: nat)
    ensures WellFormedDigits(Decimal(n))
    ensures !IsSpace(Decimal(n)[0]) && !IsSpace(Decimal(n)[|Decimal(n)| - 1])
    ensures DigitsValue(Decimal(n)) == n
  {
    var s := Decimal(n);
    if n >= 10 {
      DecimalDigits(n / 10);
      var p := Decimal(n / 10);
      assert s[..|s| - 1] == p;
      assert s[|s| - 2] == p[|p| - 1];
      assert s[0] == p[0];
    }
  }

  /** A well-formed run of digits starts with a digit. */
  lemma {:induction false} WellFormedStartsWithDigit(s: string)
    requires WellFormedDigits(s)
    ensures IsDigit(s[0])
  {
    if |s| > 1 {
      var p := if s[|s| - 2] == '_' then s[..|s| - 2] else s[..|s| - 1];
      WellFormedStartsWithDigit(p);
      assert s[0] == p[0];
    }
  }

  /** Digits without underscores are well formed. */
  lemma {:induction false} PlainDigitsWellFormed(s: string)
    requires |s| > 0 && forall i :: 0 <= i < |s| ==> IsDigit(s[i])
    ensures WellFormedDigits(s)
  {
    if |s| > 1 {
      PlainDigitsWellFormed(s[..|s| - 1]);
    }
  }

  /** Stripping leaves alone a string that starts and ends with something other than whitespace. */
  lemma StripUnpadded(s: string)
    requires |s| > 0 && !IsSpace(s[0]) && !IsSpace(s[|s| - 1])
    ensures Strip(s) == s
  {
  }

  /** int() of an unsigned, unpadded run of digits. */
  lemma ParseUnsigned(t: string)
    requires WellFormedDigits(t)
    ensures ParseInt(t) == Some(DigitsValue(t) as int)
  {
    WellFormedStartsWithDigit(t);
    StripUnpadded(t);
  }

  /** int() of a sign followed by an unpadded run of digits. */
  lemma ParseSigned(sign: char, t: string)
    requires sign == '-' || sign == '+'
    requires WellFormedDigits(t)
    ensures ParseInt([sign] + t) == Some(if sign == '-' then -(DigitsValue(t) as int) else DigitsValue(t) as int)
  {
    var st := [sign] + t;
    assert st[1..] == t;
    assert ParseSignedDigits(st) == Some(if sign == '-' then -(DigitsValue(t) as int) else DigitsValue(t) as int);
    assert st[0] == sign && st[|st| - 1] == t[|t| - 1];
    assert !IsSpace(t[|t| - 1]);
    StripUnpadded(st);
  }

  /** int() reads back what str() writes. */
  lemma ParseDecimal(n: nat)
    ensures ParseInt(Decimal(n)) == Some(n as int)
  {
    DecimalDigits(n);
    ParseUnsigned(Decimal(n));
  }

  // ---------------------------------------------------------------------------
  // mute

  const MinMuteSeconds := 60
  const MaxMuteSeconds := 2419200  // 28 days, the platform's longest timeout

  /** `{'m': 60, 'h': 3600, 'd': 86400}.get(unit, 60)` */
  function UnitSeconds(unit: char): nat {
    if unit == 'm' then 60
    else if unit == 'h' then 3600
    else if unit == 'd' then 86400
    else 60
  }

  datatype MuteDecision =
    | Timeout(seconds: int)      // the user is timed out for this many seconds
    | OutOfRange(seconds: int)   // "Duration must be between 1 minute and 28 days"
    | InvalidFormat              // an exception was caught: "Invalid duration format"

  /**
   * The duration check of `mute`: the last character is the unit, the rest goes through
   * int(); an empty string raises at `duration[-1]`.
   */
  function MuteDuration(duration: string): (d: MuteDecision)
    ensures d.InvalidFormat? <==> |duration| == 0 || ParseInt(duration[..|duration| - 1]).None?
    ensures !d.InvalidFormat? ==>
      d.seconds == ParseInt(duration[..|duration| - 1]).value * UnitSeconds(duration[|duration| - 1])
    ensures d.Timeout? ==> MinMuteSeconds <= d.seconds <= MaxMuteSeconds
    ensures d.OutOfRange? ==> d.seconds < MinMuteSeconds || d.seconds > MaxMuteSeconds
  {
    if |duration| == 0 then InvalidFormat
    else
      match ParseInt(duration[..|duration| - 1])
      case None => InvalidFormat
      case Some(amount) =>
        CheckSeconds(amount * UnitSeconds(duration[|duration| - 1]))
  }

  /** `if seconds < 60 or seconds > 2419200`: refuse, else time the user out. */
  function CheckSeconds(seconds: int): MuteDecision {
    if seconds < MinMuteSeconds || seconds > MaxMuteSeconds then OutOfRange(seconds)
    else Timeout(seconds)
  }

  /** The unit is split off the end and the rest goes through int(). */
  lemma MuteSplitsUnit(prefix: string, unit: char, amount: int)
    requires ParseInt(prefix) == Some(amount)
    ensures MuteDuration(prefix + [unit]) == CheckSeconds(amount * UnitSeconds(unit))
  {
    assert (prefix + [unit])[..|prefix|] == prefix;
  }

  /**
   * A written duration `<digits><unit>` is a timeout of the number times the unit's length
   * exactly when that lies between one minute and 28 days, and is refused as out of range
   * otherwise.
   */
  lemma MuteWrittenDuration(digits: string, unit: char)
    requires WellFormedDigits(digits)
    ensures var seconds := DigitsValue(digits) * UnitSeconds(unit);
      MuteDuration(digits + [unit])
        == if MinMuteSeconds <= seconds <= MaxMuteSeconds then Timeout(seconds) else OutOfRange(seconds)
  {
    ParseUnsigned(digits);
    MuteSplitsUnit(digits, unit, DigitsValue(digits));
  }

  /** A negative amount is refused as out of range, whatever the unit. */
  lemma MuteNegativeAmount(prefix: string, unit: char, magnitude: nat)
    requires ParseInt(prefix) == Some(-(magnitude as int))
    ensures MuteDuration(prefix + [unit]).OutOfRange?
    ensures MuteDuration(prefix + [unit]).seconds <= 0
  {
    MuteSplitsUnit(prefix, unit, -(magnitude as int));
    assert -(magnitude as int) * UnitSeconds(unit) <= 0;
  }

  /** A signed amount goes through int() too, so "-5m" is refused as out of range. */
  lemma MuteNegativeDuration(digits: string, unit: char)
    requires WellFormedDigits(digits)
    ensures MuteDuration(['-'] + digits + [unit]).OutOfRange?
    ensures MuteDuration(['-'] + digits + [unit]).seconds <= 0
  {
    ParseSigned('-', digits);
    MuteNegativeAmount(['-'] + digits, unit, DigitsValue(digits));
  }

  /**
   * A bare number is read with its last digit as an unknown unit worth a minute:
   * "10" is one minute, "25" two minutes.
   */
  lemma MuteBareNumber(digits: string)
    requires |digits| >= 2 && forall i :: 0 <= i < |digits| ==> IsDigit(digits[i])
    ensures MuteDuration(digits) == MuteDuration(digits[..|digits| - 1] + "m")
  {
    var prefix := digits[..|digits| - 1];
    var last := digits[|digits| - 1];
    PlainDigitsWellFormed(prefix);
    assert digits == prefix + [last];
    assert UnitSeconds(last) == UnitSeconds('m');
    MuteWrittenDuration(prefix, last);
    MuteWrittenDuration(prefix, 'm');
  }

  /** int() of a one- or two-digit numeral. */
  lemma ParseSmall(a: char, b: char)
    requires IsDigit(a) && IsDigit(b)
    ensures ParseInt([b]) == Some(DigitValue(b) as int)
    ensures ParseInt([a, b]) == Some((DigitValue(a) * 10 + DigitValue(b)) as int)
  {
    assert [a, b][..1] == [a];
    assert WellFormedDigits([a]) && DigitsValue([a]) == DigitValue(a);
    assert WellFormedDigits([b]) && DigitsValue([b]) == DigitValue(b);
    assert WellFormedDigits([a, b]) && DigitsValue([a, b]) == DigitValue(a) * 10 + DigitValue(b);
    ParseUnsigned([b]);
    ParseUnsigned([a, b]);
  }

  /** The units of the command's help text ("10m, 1h, 2d"). */
  lemma MuteExampleUnits()
    ensures MuteDuration("10m") == Timeout(600)
    ensures MuteDuration("1h") == Timeout(3600)
    ensures MuteDuration("2d") == Timeout(172800)
  {
    ParseSmall('1', '0');
    MuteSplitsUnit("10", 'm', 10);
    assert "10" + ['m'] == "10m";
    ParseSmall('0', '1');
    MuteSplitsUnit("1", 'h', 1);
    assert "1" + ['h'] == "1h";
    ParseSmall('0', '2');
    MuteSplitsUnit("2", 'd', 2);
    assert "2" + ['d'] == "2d";
  }

  /** The edges of the accepted range: 28 days is the longest timeout, 29 days is refused. */
  lemma MuteExampleLongest()
    ensures MuteDuration("28d") == Timeout(2419200)
    ensures MuteDuration("29d") == OutOfRange(2505600)
  {
    ParseSmall('2', '8');
    MuteSplitsUnit("28", 'd', 28);
    assert "28" + ['d'] == "28d";
    ParseSmall('2', '9');
    MuteSplitsUnit("29", 'd', 29);
    assert "29" + ['d'] == "29d";
  }

  /** Zero and negative amounts are refused. */
  lemma MuteExampleNonPositive()
    ensures MuteDuration("0m") == OutOfRange(0)
    ensures MuteDuration("-5m").OutOfRange?
  {
    ParseSmall('0', '0');
    MuteSplitsUnit("0", 'm', 0);
    assert "0" + ['m'] == "0m";
    ParseSmall('0', '5');
    ParseSigned('-', "5");
    MuteNegativeAmount("-5", 'm', 5);
    assert "-5" + ['m'] == "-5m";
  }

  /** Unknown units count as minutes, and a string too short to hold a number is refused. */
  lemma MuteExampleQuirks()
    ensures MuteDuration("30s") == Timeout(1800)
    ensures MuteDuration("10") == Timeout(60)
    ensures MuteDuration("m") == InvalidFormat
    ensures MuteDuration("") == InvalidFormat
  {
    ParseSmall('3', '0');
    MuteSplitsUnit("30", 's', 30);
    assert "30" + ['s'] == "30s";
    ParseSmall('0', '1');
    MuteSplitsUnit("1", '0', 1);
    assert "1" + ['0'] == "10";
    assert Strip("") == "";
  }

  /** Whitespace around the amount is ignored, but an information separator is not. */
  lemma MuteExampleWhitespace()
    ensures MuteDuration(" 5m") == Timeout(300)
    ensures MuteDuration([28 as char, '5', 'm']) == InvalidFormat
  {
    assert StripLeft(" 5") == "5";
    ParseSmall('0', '5');
    MuteSplitsUnit(" 5", 'm', 5);
    assert " 5" + ['m'] == " 5m";
    var sep := [28 as char, '5'];
    assert !WellFormedDigits(sep[..1]);
    assert ParseInt(sep) == None;
    assert [28 as char, '5', 'm'][..2] == sep;
  }

  // ---------------------------------------------------------------------------
  // purge

  const MaxPurge := 100

  /** `purge` accepts amounts 1..100 and then asks for exactly that many messages. */
  function PurgeLimit(amount: int): (r: Option<nat>)
    ensures r.Some? <==> 1 <= amount <= MaxPurge
    ensures r.Some? ==> r.value == amount
  {
    if amount < 1 || amount > MaxPurge then None else Some(amount)
  }
}
