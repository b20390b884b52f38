/**
 * The formatting helpers (src/assets/js/utils.js): zero-padding a number to a
 * fixed count of digits, and formatting a count of seconds as h:mm:ss.
 */
module Utils {
  import opened Options
  import opened JsValues

  // ---------------------------------------------------------------------
  // Decimal digits
  // ---------------------------------------------------------------------

  function Pow10(k: nat): (p: nat)
    ensures p >= 1
  {
    if k == 0 then 1 else 10 * Pow10(k - 1)
  }

  predicate IsDigit(c: char) {
    '0' <= c <= '9'
  }

  predicate AllDigits(s: string) {
    forall i :: 0 <= i < |s| ==> IsDigit(s[i])
  }

  function DigitChar(d: int): (c: char)
    requires 0 <= d <= 9
    ensures IsDigit(c) && c as int - '0' as int == d
  {
    ('0' as int + d) as char
  }

  /** The value of a string of decimal digits, most significant first. */
  function DecimalValue(s: string): (v: nat)
    requires AllDigits(s)
    ensures v < Pow10(|s|)
  {
    if s == [] then 0
    else DecimalValue(s[..|s| - 1]) * 10 + (s[|s| - 1] as int - '0' as int)
  }

  /**
   * ToNumber on the values the helpers are handed: `x - 0`. A string is read
   * as a plain run of decimal digits (the empty string is 0); NaN is None.
   */
  function ToNumber(v: JsValue): (r: Option<int>)
    ensures v.Num? ==> r == Some(v.n)
    ensures v.Undefined? || v.NaN? || v.Object? || v.Function? ==> r.None?
  {
    match v
    case Undefined => None
    case Null => Some(0)
    case Bool(b) => Some(if b then 1 else 0)
    case Num(n) => Some(n)
    case NaN => None
    case Str(s) => if AllDigits(s) then Some(DecimalValue(s)) else None
    case Object(_) => None
    case Function(_) => None
  }

  // ---------------------------------------------------------------------
  // getZeroBaseDigit as written
  // ---------------------------------------------------------------------

  /** `~~(n / 10)`: the next value of `n` in the digit loop. */
  function Next(n: int): int {
    ToInt32(TruncDiv(n, 10))
  }

  /** The value of `n` after `i` rounds of the digit loop. */
  function Iterate(n: int, i: nat): int {
    if i == 0 then n else Next(Iterate(n, i - 1))
  }

  /**
   * The last `i` slots of the result array after `i` rounds of the digit
   * loop started from `n`: round `j` writes `n % 10` of its own `n` one slot
   * further to the left.
   */
  function Written(n: int, i: nat): (w: seq<int>)
    ensures |w| == i
    ensures forall j :: 0 <= j < i ==> -10 < w[j] < 10
  {
    if i == 0 then [] else [TruncRem(Iterate(n, i - 1), 10)] + Written(n, i - 1)
  }

  /** How `join('')` renders one slot: a single-digit Number, possibly negative. */
  function DigitText(d: int): (t: string)
    requires -10 < d < 10
    ensures |t| == (if d < 0 then 2 else 1)
  {
    if d < 0 then "-" + [DigitChar(-d)] else [DigitChar(d)]
  }

  /** `result.join('')` over slots holding single-digit Numbers ('0' renders as 0 does). */
  function Join(parts: seq<int>): (s: string)
    requires forall j :: 0 <= j < |parts| ==> -10 < parts[j] < 10
    ensures |parts| <= |s| <= 2 * |parts|
    ensures |s| == |parts| <==> forall j :: 0 <= j < |parts| ==> parts[j] >= 0
  {
    if parts == [] then "" else Join(parts[..|parts| - 1]) + DigitText(parts[|parts| - 1])
  }

  function ZeroSlots(count: nat): (z: seq<int>)
    ensures |z| == count && forall j :: 0 <= j < count ==> z[j] == 0
  {
    seq(count, _ => 0)
  }

  /** The string getZeroBaseDigit builds for the Number `n` (lines 9-27). */
  function ZeroBaseDigitText(n: int, length: int): (r: string)
    ensures var count := if length > 0 then length else 0;
      && count <= |r| <= 2 * count
      && (n < 10 * TwoTo31 ==> |r| == count && AllDigits(r))
  {
    var count := if length > 0 then length else 0;
    if n > 0 then
      if n < 10 * TwoTo31 then WrittenIsPadded(n, count); Join(Written(n, count))
      else Join(Written(n, count))
    else ZeroSlotsArePadded(count); Join(ZeroSlots(count))
  }

  /** getZeroBaseDigit(num, length) as written: a non-number comes back as `num || ''`. */
  function ZeroBaseDigit(num: JsValue, length: int): (r: JsValue)
    ensures ToNumber(num).None? ==> r == Or(num, Str(""))
    ensures ToNumber(num).Some? ==> r == Str(ZeroBaseDigitText(ToNumber(num).value, length))
  {
    match ToNumber(num)
    case None => Or(num, Str(""))
    case Some(n) => Str(ZeroBaseDigitText(n, length))
  }

  /** getZeroBaseDigit (lines 8-28): fill `length` slots with '0', then overwrite them from the right with digits. */
  method GetZeroBaseDigit(num: JsValue, length: int) returns (r: JsValue)
    ensures r == ZeroBaseDigit(num, length)
  {
    var converted := ToNumber(num);
    if converted.None? {
      return Or(num, Str(""));
    }
    var n := converted.value;
    var result: seq<int> := [];
    var i := 0;
    while i < length
      invariant 0 <= i && (length > 0 ==> i <= length) && (length <= 0 ==> i == 0)
      invariant result == ZeroSlots(i)
    {
      result := result + [0];
      i := i + 1;
    }
    var count := |result|;
    assert count == if length > 0 then length else 0;
    if n > 0 {
      var j := 0;
      while j < count
        invariant 0 <= j <= count == |result|
        invariant n == Iterate(converted.value, j)
        invariant result[..count - j] == ZeroSlots(count - j)
        invariant result[count - j..] == Written(converted.value, j)
      {
        result := result[length - j - 1 := TruncRem(n, 10)];
        n := Next(n);
        j := j + 1;
        assert result[count - j..] == [result[count - j]] + result[count - j + 1..];
      }
      assert result == result[count - count..];
    }
    r := Str(Join(result));
  }

  // ---------------------------------------------------------------------
  // The intended zero-padding
  // ---------------------------------------------------------------------

  /** `n` as exactly `k` decimal digits: its low `k` digits, zero-padded on the left. */
  function PaddedDigits(n: nat, k: nat): (s: string)
    ensures |s| == k && AllDigits(s)
  {
    if k == 0 then "" else PaddedDigits(n / 10, k - 1) + [DigitChar(n % 10)]
  }

  /** getZeroBaseDigit as evidently intended: exactly `length` digits for every Number. */
  function ZeroBaseDigitIntended(n: int, length: int): (s: string)
    ensures |s| == if length > 0 then length else 0
    ensures AllDigits(s)
  {
    PaddedDigits(if n > 0 then n else 0, if length > 0 then length else 0)
  }

  lemma MulAtLeast(k: int, d: int)
    requires k >= 1 && d > 0
    ensures k * d >= d
  {
    assert k * d == (k - 1) * d + d;
  }

  /** `n % d` is the remainder of any division of `n` by `d` with a remainder in [0, d). */
  lemma ModUnique(n: int, d: int, x: int, y: int)
    requires d > 0 && n == x * d + y && 0 <= y < d
    ensures n % d == y
  {
    var q := n / d;
    var r := n % d;
    assert n == q * d + r;
    assert (q - x) * d == y - r by {
      assert (q - x) * d == q * d - x * d;
    }
    if q > x {
      MulAtLeast(q - x, d);
    } else if q < x {
      MulAtLeast(x - q, d);
    }
  }

  lemma ModOfSplit(n: nat, p: nat)
    requires p >= 1
    ensures ((n / 10) % p) * 10 + n % 10 == n % (10 * p)
  {
    var q := n / 10;
    var a := q / p;
    var b := q % p;
    assert n == 10 * q + n % 10;
    assert q == a * p + b;
    assert 10 * q == a * (10 * p) + 10 * b;
    assert 0 <= b * 10 + n % 10 < 10 * p by {
      assert b <= p - 1;
      assert b * 10 <= (p - 1) * 10;
    }
    ModUnique(n, 10 * p, a, b * 10 + n % 10);
  }

  /** The padded digits read back as the number modulo 10^k. */
  lemma {:induction false} PaddedDigitsValue(n: nat, k: nat)
    ensures DecimalValue(PaddedDigits(n, k)) == n % Pow10(k)
  {
    if k > 0 {
      var s := PaddedDigits(n, k);
      assert s[..k - 1] == PaddedDigits(n / 10, k - 1);
      PaddedDigitsValue(n / 10, k - 1);
      ModOfSplit(n, Pow10(k - 1));
    }
  }

  /** Padding a digit string back to its own length returns it unchanged. */
  lemma {:induction false} PaddedDigitsOfValue(s: string)
    requires AllDigits(s)
    ensures PaddedDigits(DecimalValue(s), |s|) == s
  {
    if s != [] {
      var init := s[..|s| - 1];
      var d := s[|s| - 1] as int - '0' as int;
      var v := DecimalValue(s);
      assert v == DecimalValue(init) * 10 + d;
      assert v / 10 == DecimalValue(init) && v % 10 == d;
      PaddedDigitsOfValue(init);
      assert s == init + [s[|s| - 1]];
    }
  }

  // ---------------------------------------------------------------------
  // The code as written against the intended padding
  // ---------------------------------------------------------------------

  lemma IterateShift(n: int, i: nat)
    ensures Iterate(n, i + 1) == Iterate(Next(n), i)
  {
    if i > 0 {
      IterateShift(n, i - 1);
    }
  }

  /** One more round is the rounds from the next value, followed by this round's slot. */
  lemma {:induction false} WrittenShift(n: int, i: nat)
    ensures Written(n, i + 1) == Written(Next(n), i) + [TruncRem(n, 10)]
  {
    if i > 0 {
      WrittenShift(n, i - 1);
      IterateShift(n, i - 1);
      assert Iterate(n, i) == Iterate(Next(n), i - 1);
    }
  }

  lemma JoinSnoc(parts: seq<int>, d: int)
    requires forall j :: 0 <= j < |parts| ==> -10 < parts[j] < 10
    requires -10 < d < 10
    ensures Join(parts + [d]) == Join(parts) + DigitText(d)
  {
    assert (parts + [d])[..|parts|] == parts;
  }

  /** Below 10 * 2^31 one round of the loop neither wraps nor goes negative. */
  lemma NextNoWrap(n: int)
    requires 0 <= n < 10 * TwoTo31
    ensures Next(n) == n / 10 && 0 <= n / 10 < 10 * TwoTo31
    ensures TruncRem(n, 10) == n % 10 && DigitText(n % 10) == [DigitChar(n % 10)]
  {
    assert TruncDiv(n, 10) == n / 10 < TwoTo31;
  }

  /** Below 10 * 2^31 no division wraps, and the loop writes the padded digits. */
  lemma {:induction false} WrittenIsPadded(n: int, k: nat)
    requires 0 <= n < 10 * TwoTo31
    ensures Join(Written(n, k)) == PaddedDigits(n, k)
  {
    if k > 0 {
      WrittenShift(n, k - 1);
      NextNoWrap(n);
      WrittenIsPadded(n / 10, k - 1);
      JoinSnoc(Written(n / 10, k - 1), n % 10);
    }
  }

  lemma {:induction false} ZeroSlotsArePadded(k: nat)
    ensures Join(ZeroSlots(k)) == PaddedDigits(0, k)
  {
    if k > 0 {
      ZeroSlotsArePadded(k - 1);
      assert ZeroSlots(k) == ZeroSlots(k - 1) + [0];
      JoinSnoc(ZeroSlots(k - 1), 0);
    }
  }

  /** For every Number below 21474836480 the code as written pads correctly. */
  lemma ZeroBaseDigitAgrees(n: int, length: int)
    requires n < 10 * TwoTo31
    ensures ZeroBaseDigitText(n, length) == ZeroBaseDigitIntended(n, length)
  {
    var count := if length > 0 then length else 0;
    if n > 0 {
      WrittenIsPadded(n, count);
    } else {
      ZeroSlotsArePadded(count);
    }
  }

  /** The input that shows line 23: `~~` wraps 2147483648 to -2147483648, and 21474836480 pads to "-80". */
  lemma WrapAroundCounterexample()
    ensures ZeroBaseDigitText(21474836480, 2) == "-80"
    ensures |ZeroBaseDigitText(21474836480, 2)| != 2
  {
    assert Next(21474836480) == -2147483648;
    assert TruncRem(-2147483648, 10) == -8;
    assert Written(21474836480, 2) == [-8, 0];
    assert Join([-8, 0]) == Join([-8]) + "0";
  }

  // ---------------------------------------------------------------------
  // timeformat
  // ---------------------------------------------------------------------

  /** `!maxUnit || maxUnit === 'h'`. */
  predicate HourUnit(maxUnit: JsValue) {
    !Truthy(maxUnit) || maxUnit == Str("h")
  }

  /** `str.slice(0, k)`. */
  function Take(s: string, k: nat): string {
    if |s| <= k then s else s[..k]
  }

  /**
   * timeformat(time, maxUnit) (lines 30-51) for an integral Number of
   * seconds, padding with the intended getZeroBaseDigit; TimeFormatMatchesCode
   * shows that the code as written pads these fields the same way.
   */
  function TimeFormat(time: int, maxUnit: JsValue): (r: string)
    ensures time == 0 ==> r == (if maxUnit == Str("m") then "00:00.000" else "00:00:00.000")
    ensures time != 0 && !HourUnit(maxUnit) && maxUnit != Str("m") ==> r == ""
  {
    if time == 0 then
      if HourUnit(maxUnit) then "00:00:00.000"
      else if maxUnit == Str("m") then "00:00.000"
      else "00:00:00.000"
    else if HourUnit(maxUnit) then
      var h := ToInt32(TruncDiv(time, 3600));
      var m := ToInt32(TruncDiv(TruncRem(time, 3600), 60));
      var s := TruncRem(time, 60);
      ZeroBaseDigitIntended(h, 2) + ":" + ZeroBaseDigitIntended(m, 2) + ":" + Take(ZeroBaseDigitIntended(s, 2), 6)
    else if maxUnit == Str("m") then
      var m := ToInt32(TruncDiv(TruncRem(time, 3600), 60));
      var s := TruncRem(time, 60);
      ZeroBaseDigitIntended(m, 2) + ":" + Take(ZeroBaseDigitIntended(s, 2), 6)
    else
      ""
  }

  /** Reads an "hh:mm:ss" prefix back as seconds. */
  function ClockValue(r: string): int
    requires |r| >= 8 && AllDigits(r[0..2]) && AllDigits(r[3..5]) && AllDigits(r[6..8])
  {
    DecimalValue(r[0..2]) * 3600 + DecimalValue(r[3..5]) * 60 + DecimalValue(r[6..8])
  }

  /** Reads an "mm:ss" prefix back as seconds. */
  function MinuteClockValue(r: string): int
    requires |r| >= 5 && AllDigits(r[0..2]) && AllDigits(r[3..5])
  {
    DecimalValue(r[0..2]) * 60 + DecimalValue(r[3..5])
  }

  /** Two padded digits of a value of at most two digits read back as that value. */
  lemma TwoDigitsValue(n: nat)
    ensures DecimalValue(PaddedDigits(n, 2)) == n % 100
  {
    PaddedDigitsValue(n, 2);
  }

  /** Seconds split into minutes and seconds below an hour, and hours. */
  lemma ClockSplit(time: nat)
    ensures time % 3600 == ((time % 3600) / 60) * 60 + time % 60
    ensures (time % 3600) / 60 < 60
    ensures time % 360000 == ((time / 3600) % 100) * 3600 + time % 3600
  {
    var h := time / 3600;
    var rest := time % 3600;
    var m := rest / 60;
    assert time == h * 3600 + rest;
    assert rest == m * 60 + rest % 60;
    ModUnique(time, 60, h * 60 + m, rest % 60);
    var a := h / 100;
    var b := h % 100;
    assert time == a * 360000 + (b * 3600 + rest) by {
      assert h == a * 100 + b;
      assert h * 3600 == a * 360000 + b * 3600;
    }
    assert b * 3600 + rest < 360000 by {
      assert b <= 99;
      assert b * 3600 <= 99 * 3600;
    }
    ModUnique(time, 360000, a, b * 3600 + rest);
  }

  lemma ClockFields(hh: string, mm: string, ss: string)
    requires |hh| == 2 && |mm| == 2 && |ss| == 2
    ensures var r := hh + ":" + mm + ":" + ss;
      |r| == 8 && r[0..2] == hh && r[2] == ':' && r[3..5] == mm && r[5] == ':' && r[6..8] == ss
  {
  }

  lemma MinuteFields(mm: string, ss: string)
    requires |mm| == 2 && |ss| == 2
    ensures var r := mm + ":" + ss;
      |r| == 5 && r[0..2] == mm && r[2] == ':' && r[3..5] == ss
  {
  }

  lemma MinuteClockOf(time: nat, mm: string, ss: string)
    requires |mm| == 2 && |ss| == 2 && AllDigits(mm) && AllDigits(ss)
    requires DecimalValue(mm) == ((time % 3600) / 60) % 100
    requires DecimalValue(ss) == (time % 60) % 100
    ensures var r := mm + ":" + ss;
      && |r| == 5 && r[2] == ':' && r[0..2] == mm && r[3..5] == ss
      && MinuteClockValue(r) == time % 3600
  {
    MinuteFields(mm, ss);
    var r := mm + ":" + ss;
    var m, sec := DecimalValue(mm), DecimalValue(ss);
    assert MinuteClockValue(r) == m * 60 + sec;
    ClockSplit(time);
    var rest := time % 3600;
    assert rest / 60 < 60 && time % 60 < 60;
    assert m == rest / 60 && sec == time % 60;
  }

  lemma DoubleZeroValue()
    ensures AllDigits("00") && DecimalValue("00") == 0
  {
    assert "00"[..1] == "0";
  }

  /** The fields timeformat pads for a non-negative time below 2^31 hours. */
  lemma FieldsArePadded(time: int)
    requires 0 < time < 3600 * TwoTo31
    ensures ZeroBaseDigitIntended(ToInt32(TruncDiv(time, 3600)), 2) == PaddedDigits(time / 3600, 2)
    ensures ZeroBaseDigitIntended(ToInt32(TruncDiv(TruncRem(time, 3600), 60)), 2) == PaddedDigits((time % 3600) / 60, 2)
    ensures Take(ZeroBaseDigitIntended(TruncRem(time, 60), 2), 6) == PaddedDigits(time % 60, 2)
  {
    assert ToInt32(TruncDiv(time, 3600)) == time / 3600;
    assert ToInt32(TruncDiv(TruncRem(time, 3600), 60)) == (time % 3600) / 60;
  }

  /**
   * Every field timeformat pads is an int32 value (hours and minutes pass
   * through `~~`, seconds lie in (-60, 60)), where getZeroBaseDigit as
   * written and as intended agree: the wrap-around never shows here.
   */
  lemma TimeFormatMatchesCode(time: int)
    ensures var h := ToInt32(TruncDiv(time, 3600));
      var m := ToInt32(TruncDiv(TruncRem(time, 3600), 60));
      var s := TruncRem(time, 60);
      && ZeroBaseDigitText(h, 2) == ZeroBaseDigitIntended(h, 2)
      && ZeroBaseDigitText(m, 2) == ZeroBaseDigitIntended(m, 2)
      && ZeroBaseDigitText(s, 2) == ZeroBaseDigitIntended(s, 2)
  {
    ZeroBaseDigitAgrees(ToInt32(TruncDiv(time, 3600)), 2);
    ZeroBaseDigitAgrees(ToInt32(TruncDiv(TruncRem(time, 3600), 60)), 2);
    ZeroBaseDigitAgrees(TruncRem(time, 60), 2);
  }

  /**
   * With hours as the largest unit, a non-negative time formats as
   * "hh:mm:ss" with the hours taken modulo 100 (and ".000" only for zero):
   * reading the fields back gives the time modulo 100 hours.
   */
  lemma TimeFormatHoursRoundTrip(time: int, maxUnit: JsValue)
    requires HourUnit(maxUnit) && 0 <= time < 3600 * TwoTo31
    ensures var r := TimeFormat(time, maxUnit);
      && |r| == (if time == 0 then 12 else 8)
      && r[2] == ':' && r[5] == ':'
      && AllDigits(r[0..2]) && AllDigits(r[3..5]) && AllDigits(r[6..8])
      && ClockValue(r) == time % 360000
  {
    var r := TimeFormat(time, maxUnit);
    if time != 0 {
      FieldsArePadded(time);
      var hh := PaddedDigits(time / 3600, 2);
      var mm := PaddedDigits((time % 3600) / 60, 2);
      var ss := PaddedDigits(time % 60, 2);
      assert r == hh + ":" + mm + ":" + ss;
      TwoDigitsValue(time / 3600);
      TwoDigitsValue((time % 3600) / 60);
      TwoDigitsValue(time % 60);
      HoursClockValue(time, hh, mm, ss);
    } else {
      assert r[0..2] == "00" && r[3..5] == "00" && r[6..8] == "00";
      DoubleZeroValue();
    }
  }

  lemma HoursClockValue(time: nat, hh: string, mm: string, ss: string)
    requires |hh| == 2 && |mm| == 2 && |ss| == 2 && AllDigits(hh) && AllDigits(mm) && AllDigits(ss)
    requires DecimalValue(hh) == (time / 3600) % 100
    requires DecimalValue(mm) == ((time % 3600) / 60) % 100
    requires DecimalValue(ss) == (time % 60) % 100
    ensures var r := hh + ":" + mm + ":" + ss;
      && |r| == 8 && r[2] == ':' && r[5] == ':'
      && r[0..2] == hh && r[3..5] == mm && r[6..8] == ss
      && ClockValue(r) == time % 360000
  {
    ClockFields(hh, mm, ss);
    var r := hh + ":" + mm + ":" + ss;
    var h, m, sec := DecimalValue(hh), DecimalValue(mm), DecimalValue(ss);
    assert ClockValue(r) == h * 3600 + m * 60 + sec;
    ClockSplit(time);
    var rest := time % 3600;
    assert rest / 60 < 60 && time % 60 < 60;
    assert m == rest / 60 && sec == time % 60;
    assert rest == m * 60 + sec;
  }

  /** With minutes as the largest unit, a non-negative time formats as "mm:ss" of its part below one hour. */
  lemma TimeFormatMinutesRoundTrip(time: int)
    requires 0 <= time
    ensures var r := TimeFormat(time, Str("m"));
      && |r| == (if time == 0 then 9 else 5)
      && r[2] == ':'
      && AllDigits(r[0..2]) && AllDigits(r[3..5])
      && MinuteClockValue(r) == time % 3600
  {
    var r := TimeFormat(time, Str("m"));
    if time != 0 {
      assert ToInt32(TruncDiv(TruncRem(time, 3600), 60)) == (time % 3600) / 60;
      var mm := PaddedDigits((time % 3600) / 60, 2);
      var ss := PaddedDigits(time % 60, 2);
      assert r == mm + ":" + ss;
      TwoDigitsValue((time % 3600) / 60);
      TwoDigitsValue(time % 60);
      MinuteClockOf(time, mm, ss);
    } else {
      assert r[0..2] == "00" && r[3..5] == "00";
      DoubleZeroValue();
    }
  }

  /**
   * A negative time has no positive field: every field pads as zero. Only
   * the hours pass through `~~` with a quotient that can leave the int32
   * range, so only the hours format needs the time above -2^31 hours.
   */
  lemma NegativeTimeIsZeroClock(time: int, maxUnit: JsValue)
    requires time < 0
    ensures HourUnit(maxUnit) && -3600 * TwoTo31 < time ==> TimeFormat(time, maxUnit) == "00:00:00"
    ensures maxUnit == Str("m") ==> TimeFormat(time, maxUnit) == "00:00"
  {
    assert PaddedDigits(0, 2) == "00";
  }
}
