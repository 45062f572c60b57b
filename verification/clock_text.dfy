/** Rendering a minute of the day as `HH:MM` the way the detail report does
    it: `String(n).padStart(2, '0')` for the hour and for the minute. */
module ClockText {
  import opened Common

  function DigitChar(d: nat): (c: char)
    requires d < 10
    ensures '0' <= c <= '9'
  {
    (48 + d) as char
  }

  function DigitValue(c: char): (d: nat)
    requires '0' <= c <= '9'
    ensures d < 10
  {
    (c as int) - 48
  }

  lemma DigitRoundTrip(d: nat)
    requires d < 10
    ensures DigitValue(DigitChar(d)) == d
  {
  }

  predicate AllDigits(s: string) {
    forall i :: 0 <= i < |s| ==> '0' <= s[i] <= '9'
  }

  /** The number a string of decimal digits spells, most significant digit
      first; the empty string reads as 0. */
  function DecimalValue(s: string): nat
    requires AllDigits(s)
  {
    if |s| == 0 then 0 else DecimalValue(s[..|s| - 1]) * 10 + DigitValue(s[|s| - 1])
  }

  /** `String(n)` for a non-negative integer: its decimal digits, without
      leading zeros, spelling n. */
  function DecimalText(n: nat): (s: string)
    ensures 1 <= |s| && AllDigits(s)
    ensures DecimalValue(s) == n
    ensures |s| > 1 ==> s[0] != '0'
    ensures n < 10 <==> |s| == 1
    decreases n
  {
    if n < 10 then
      DigitRoundTrip(n);
      [DigitChar(n)]
    else
      var hi := DecimalText(n / 10);
      var s := hi + [DigitChar(n % 10)];
      assert s[..|s| - 1] == hi;
      DigitRoundTrip(n % 10);
      s
  }

  /** `s.padStart(2, '0')`: zeros in front up to length 2. */
  function PadStart2(s: string): (r: string)
    ensures |r| == if |s| < 2 then 2 else |s|
    ensures r[|r| - |s|..] == s
    ensures forall i :: 0 <= i < |r| - |s| ==> r[i] == '0'
  {
    if |s| == 0 then "00" else if |s| == 1 then "0" + s else s
  }

  /** Two decimal digits for every value below 100. */
  lemma {:induction false} TwoDigits(n: nat)
    requires n < 100
    ensures PadStart2(DecimalText(n)) == [DigitChar(n / 10), DigitChar(n % 10)]
  {
    if n < 10 {
      OneDigit(n);
      assert DigitChar(n / 10) == '0';
    } else {
      TwoDigitText(n);
    }
  }

  lemma OneDigit(n: nat)
    requires n < 10
    ensures DecimalText(n) == [DigitChar(n)]
  {
  }

  lemma TwoDigitText(n: nat)
    requires 10 <= n < 100
    ensures DecimalText(n) == [DigitChar(n / 10), DigitChar(n % 10)]
  {
    OneDigit(n / 10);
  }

  /** `${hh}:${mm}` with `hh = String(Math.floor(m / 60)).padStart(2, '0')`
      and `mm = String(m % 60).padStart(2, '0')`. */
  function Clock(m: nat): string {
    Field(m / 60) + ":" + Field(m % 60)
  }

  /** `String(n).padStart(2, '0')` */
  function Field(n: nat): string {
    PadStart2(DecimalText(n))
  }

  /** Reads `HH:MM` back as a minute of the day. */
  function ParseClock(s: string): Option<nat> {
    if |s| == 5 && s[2] == ':'
       && '0' <= s[0] <= '9' && '0' <= s[1] <= '9' && '0' <= s[3] <= '9' && '0' <= s[4] <= '9'
    then
      var hh := DigitValue(s[0]) * 10 + DigitValue(s[1]);
      var mm := DigitValue(s[3]) * 10 + DigitValue(s[4]);
      if hh < 24 && mm < 60 then Some(hh * 60 + mm) else None
    else None
  }

  /** Two padded fields joined by a colon. */
  lemma {:induction false} JoinChars(h: nat, mi: nat)
    requires h < 100 && mi < 100
    ensures Field(h) + ":" + Field(mi)
            == [DigitChar(h / 10), DigitChar(h % 10), ':', DigitChar(mi / 10), DigitChar(mi % 10)]
  {
    FieldChars(h);
    FieldChars(mi);
    JoinTwo(Field(h), Field(mi));
  }

  lemma JoinTwo(a: string, b: string)
    requires |a| == 2 && |b| == 2
    ensures a + ":" + b == [a[0], a[1], ':', b[0], b[1]]
  {
  }

  lemma FieldChars(n: nat)
    requires n < 100
    ensures Field(n) == [DigitChar(n / 10), DigitChar(n % 10)]
  {
    TwoDigits(n);
  }

  /** The five characters of `HH:MM` for a minute of the day. */
  lemma ClockChars(m: nat)
    requires m < 1440
    ensures Clock(m) == [DigitChar(m / 60 / 10), DigitChar(m / 60 % 10), ':',
                         DigitChar(m % 60 / 10), DigitChar(m % 60 % 10)]
  {
    JoinChars(m / 60, m % 60);
  }

  /** Every minute of a day renders as five characters, `HH:MM` with an
      hour of at most 23, and reads back as the same minute. */
  lemma ClockRoundTrip(m: nat)
    requires m < 1440
    ensures |Clock(m)| == 5 && Clock(m)[2] == ':'
    ensures ParseClock(Clock(m)) == Some(m)
  {
    var h := m / 60;
    var mi := m % 60;
    ClockChars(m);
    assert h / 10 * 10 + h % 10 == h;
    assert mi / 10 * 10 + mi % 10 == mi;
    ParseDigits(h / 10, h % 10, mi / 10, mi % 10);
  }

  /** Four digits around a colon read back as hours and minutes. */
  lemma ParseDigits(a: nat, b: nat, c: nat, d: nat)
    requires a < 10 && b < 10 && c < 10 && d < 10
    requires a * 10 + b < 24 && c * 10 + d < 60
    ensures ParseClock([DigitChar(a), DigitChar(b), ':', DigitChar(c), DigitChar(d)])
            == Some((a * 10 + b) * 60 + c * 10 + d)
  {
    DigitRoundTrip(a);
    DigitRoundTrip(b);
    DigitRoundTrip(c);
    DigitRoundTrip(d);
  }

  /** Minute 420 is 07:00. */
  lemma SevenOClock()
    ensures Clock(420) == "07:00"
  {
    assert Field(7) == "07" by {
      FieldChars(7);
      assert DigitChar(0) == '0' && DigitChar(7) == '7';
    }
    assert Field(0) == "00" by {
      FieldChars(0);
      assert DigitChar(0) == '0';
    }
    JoinTwo("07", "00");
  }
}
