/** The arithmetic of the countdown: the duration read from the timer
    selector and the `minutes:seconds` text of the timer display. */
module Countdown {
  import opened Common
  import opened Numbers

  /** Seconds used when the selector's value does not parse to a non-zero number. */
  const DefaultSeconds: int := 30

  /** `parseInt(value, 10) || 30`: a `NaN` or zero reading falls back to 30
      seconds, any other reading (negative ones included) is kept. */
  function Duration(selected: string): (d: int)
    ensures d != 0
    ensures ParseInt(selected) == None ==> d == DefaultSeconds
  {
    match ParseInt(selected)
    case None => DefaultSeconds
    case Some(v) => if v == 0 then DefaultSeconds else v
  }

  /** Every positive option of the selector, written in decimal, is taken as is. */
  lemma DurationOfOption(n: nat)
    requires n > 0
    ensures Duration(NatToString(n)) == n
  {
    ParseNatToString(n);
  }

  /** A zero reading is falsy and falls back to the default. */
  lemma DurationOfZero()
    ensures Duration("0") == DefaultSeconds
  {
    ParseNatToString(0);
  }

  /** The quotient of `a / b` rounded toward zero, as `Math.trunc` gives. */
  function Truncated(a: int, b: int): int
    requires b > 0
  {
    if a >= 0 then a / b else -((-a) / b)
  }

  /** JavaScript's `%` on integers: the remainder of division truncated
      toward zero, so it takes the sign of the dividend. */
  function Remainder(a: int, b: int): (r: int)
    requires b > 0
    ensures a == Truncated(a, b) * b + r
    ensures a >= 0 ==> 0 <= r < b
    ensures a < 0 ==> -b < r <= 0
  {
    if a >= 0 then a % b else -((-a) % b)
  }

  /** `s.padStart(width, fill)` for a one-character filler: `s` preceded by
      as many fillers as it takes to reach `width`. */
  function PadStart(s: string, width: nat, fill: char): (r: string)
    ensures |r| == if |s| >= width then |s| else width
    ensures r[|r| - |s|..] == s
    ensures forall i :: 0 <= i < |r| - |s| ==> r[i] == fill
  {
    if |s| >= width then s else seq(width - |s|, _ => fill) + s
  }

  /** The text of `updateTimerDisplay`: `Math.floor(t / 60)`, a colon, and
      `String(t % 60).padStart(2, '0')`. Dafny's `/` by a positive divisor
      rounds down, as `Math.floor` does; `%` is JavaScript's. */
  function TimerText(t: int): string
  {
    var minutes := t / 60;
    var seconds := Remainder(t, 60);
    IntToString(minutes) + ":" + PadStart(IntToString(seconds), 2, '0')
  }

  /** For a non-negative remaining time the text is minutes, a colon and
      exactly two second digits; reading them back gives the seconds below
      60 and `minutes * 60 + seconds == t`. */
  lemma TimerTextShape(t: int)
    requires t >= 0
    ensures var txt := TimerText(t);
      && |txt| >= 4
      && txt[|txt| - 3] == ':'
      && AllDigits(txt[|txt| - 2..])
      && txt[..|txt| - 3] == NatToString(t / 60)
      && ParseInt(txt[..|txt| - 3]).Some?
      && DigitsValue(txt[|txt| - 2..]) < 60
      && ParseInt(txt[..|txt| - 3]).value * 60 + DigitsValue(txt[|txt| - 2..]) == t
  {
    var q, r := t / 60, t % 60;
    assert q * 60 + r == t;
    assert Remainder(t, 60) == r;
    var m := NatToString(q);
    var p := PadStart(NatToString(r), 2, '0');
    var txt := m + ":" + p;
    assert TimerText(t) == txt;
    SecondsField(r);
    ColonSplit(m, p);
    assert txt[..|txt| - 3] == m;
    ParseNatToString(q);
  }

  /** Minutes, a colon and a two-character seconds field can be read back
      from the end of the text. */
  lemma ColonSplit(m: string, p: string)
    requires |p| == 2
    ensures var txt := m + ":" + p;
      txt[..|txt| - 3] == m && txt[|txt| - 3] == ':' && txt[|txt| - 2..] == p
  {
    var txt := m + ":" + p;
    assert txt[..|m|] == m;
    assert txt[|m| + 1..] == p;
  }

  /** The seconds field: a number below 60 padded to two digits, which
      read back give the number. */
  lemma SecondsField(n: nat)
    requires n < 60
    ensures var p := PadStart(NatToString(n), 2, '0');
      |p| == 2 && AllDigits(p) && DigitsValue(p) == n
  {
    var s := NatToString(n);
    var p := PadStart(s, 2, '0');
    NatToStringValue(n);
    if |s| == 1 {
      assert p == ['0'] + s;
      assert p[..1] == ['0'];
      assert DigitsValue(p) == 10 * DigitsValue(['0']) + DigitValue(s[0]);
      assert DigitsValue(s) == DigitValue(s[0]);
    } else {
      assert p == s;
    }
  }

  /** Worked examples: 65 seconds, zero, five minutes. */
  lemma TimerTextExamples()
    ensures TimerText(65) == "1:05"
    ensures TimerText(0) == "0:00"
    ensures TimerText(300) == "5:00"
  {
  }

  /** A negative remaining time (reachable only after a negative selector
      value) shows floored minutes and a signed remainder. */
  lemma TimerTextNegative()
    ensures TimerText(-5) == "-1:-5"
  {
  }
}
