/** `formatDuration`, written out identically in
    components/billiards/SessionControlModal.tsx, pages/billiards/FloorPage.tsx
    and pages/billiards/SessionHistoryPage.tsx: milliseconds to "HH:MM:SS". */
module Duration {
  import opened Text

  /** `Math.trunc(a / b)`: integer division rounding toward zero. */
  function TruncDiv(a: int, b: int): int
    requires b > 0
  {
    if a >= 0 then a / b else -((-a) / b)
  }

  /** JavaScript's `%` on integers: the remainder has the sign of the dividend
      and completes the division that rounds toward zero. */
  function JsRem(a: int, b: int): (r: int)
    requires b > 0
    ensures a >= 0 ==> r == a % b
    ensures a < 0 ==> -b < r <= 0
    ensures a == TruncDiv(a, b) * b + r
  {
    if a >= 0 then a % b else -((-a) % b)
  }

  /** `String(n).padStart(2, '0')`. */
  function Pad2(n: int): string
  {
    PadStart(IntToString(n), 2, '0')
  }

  /** The whole seconds in `ms`, hours, the minutes within the hour and the
      seconds within the minute, joined by colons. `Math.floor` on a positive
      divisor is Dafny's `/`; the remainders are JavaScript's. */
  function FormatDuration(ms: int): string
  {
    var totalSeconds := ms / 1000;
    var hours := totalSeconds / 3600;
    var minutes := JsRem(totalSeconds, 3600) / 60;
    var seconds := JsRem(totalSeconds, 60);
    Pad2(hours) + ":" + Pad2(minutes) + ":" + Pad2(seconds)
  }

  lemma Pad2Small(n: int)
    requires 0 <= n < 100
    ensures |Pad2(n)| == 2 && AllDigits(Pad2(n)) && DigitsValue(Pad2(n)) == n
  {
    NatToStringValue(n);
    ZeroPaddedValue(NatToString(n), 2);
    if n >= 10 {
      assert |NatToString(n / 10)| == 1;
    }
  }

  lemma Pad2Wide(n: int)
    requires n >= 0
    ensures |Pad2(n)| >= 2 && AllDigits(Pad2(n)) && DigitsValue(Pad2(n)) == n
  {
    NatToStringValue(n);
    ZeroPaddedValue(NatToString(n), 2);
  }

  /** Whole seconds split into hours, minutes within the hour and seconds
      within the minute. */
  lemma SplitSeconds(s: nat)
    ensures (s % 3600) / 60 < 60 && s % 60 < 60
    ensures (s / 3600) * 3600 + ((s % 3600) / 60) * 60 + s % 60 == s
  {
    var h, t := s / 3600, s % 3600;
    assert s == h * 3600 + t && 0 <= t < 3600;
    var m, u := t / 60, t % 60;
    assert t == m * 60 + u && 0 <= u < 60;
    assert m < 60;
    assert s == (h * 60 + m) * 60 + u;
    assert s % 60 == u;
  }

  lemma FormatNonNegative(ms: int)
    requires ms >= 0
    ensures var s := ms / 1000;
      FormatDuration(ms) == Pad2(s / 3600) + ":" + Pad2((s % 3600) / 60) + ":" + Pad2(s % 60)
  {
  }

  lemma JoinedFields(a: string, b: string, c: string)
    requires |a| >= 2 && |b| == 2 && |c| == 2
    ensures var r := a + ":" + b + ":" + c;
      |r| >= 8 && r[|r| - 3] == ':' && r[|r| - 6] == ':'
      && r[..|r| - 6] == a && r[|r| - 5..|r| - 3] == b && r[|r| - 2..] == c
  {
  }

  /** For a non-negative duration the string reads back as the hours, the
      minutes (0..59) and the seconds (0..59) that make up its whole seconds:
      the hour field is at least two digits, the other two exactly two. */
  lemma FormatDurationReadsBack(ms: int)
    requires ms >= 0
    ensures var r := FormatDuration(ms);
      |r| >= 8 && r[|r| - 3] == ':' && r[|r| - 6] == ':'
      && AllDigits(r[..|r| - 6]) && AllDigits(r[|r| - 5..|r| - 3]) && AllDigits(r[|r| - 2..])
      && DigitsValue(r[..|r| - 6]) == ms / 1000 / 3600
      && DigitsValue(r[|r| - 5..|r| - 3]) < 60
      && DigitsValue(r[|r| - 2..]) < 60
      && DigitsValue(r[..|r| - 6]) * 3600 + DigitsValue(r[|r| - 5..|r| - 3]) * 60
         + DigitsValue(r[|r| - 2..]) == ms / 1000
  {
    var s := ms / 1000;
    var h, m, sec := s / 3600, (s % 3600) / 60, s % 60;
    SplitSeconds(s);
    Pad2Wide(h);
    Pad2Small(m);
    Pad2Small(sec);
    FormatNonNegative(ms);
    JoinedFields(Pad2(h), Pad2(m), Pad2(sec));
  }

  /** Below 100 hours the string is exactly "HH:MM:SS", eight characters. */
  lemma FormatDurationWidth(ms: int)
    requires 0 <= ms < 360000000
    ensures |FormatDuration(ms)| == 8
  {
    var s := ms / 1000;
    assert s < 360000;
    SplitSeconds(s);
    Pad2Small(s / 3600);
    Pad2Small((s % 3600) / 60);
    Pad2Small(s % 60);
  }
}
