/** The `formatTime` helper that renders a number of seconds as `MM:SS`, the
    JavaScript number-to-text conversions it uses, and a parser for its output. */
module TimeFormat {

  import opened Wrappers
  import JsMath

  predicate IsDigit(c: char)
  {
    '0' <= c <= '9'
  }

  predicate AllDigits(s: string)
  {
    forall i :: 0 <= i < |s| ==> IsDigit(s[i])
  }

  function DigitChar(d: int): (c: char)
    requires 0 <= d < 10
    ensures IsDigit(c)
  {
    ('0' as int + d) as char
  }

  function DigitValue(c: char): int
    requires IsDigit(c)
  {
    c as int - '0' as int
  }

  /** The decimal digits of `n` with no leading zero, as `Number.prototype.toString()` writes a non-negative integer. */
  function Decimal(n: nat): (s: string)
    ensures 1 <= |s| && AllDigits(s)
    ensures s[0] == '0' <==> n == 0
    ensures |s| == 1 <==> n < 10
    ensures n < 100 ==> |s| <= 2
  {
    if n < 10 then [DigitChar(n)] else Decimal(n / 10) + [DigitChar(n % 10)]
  }

  /** The number a string of decimal digits denotes (leading zeros allowed). */
  function Value(s: string): nat
    requires AllDigits(s)
  {
    if |s| == 0 then 0 else Value(s[..|s| - 1]) * 10 + DigitValue(s[|s| - 1])
  }

  /** `Number.prototype.toString()` on an integer: a minus sign, then the digits of the magnitude. */
  function NumberToString(n: int): string
  {
    if n < 0 then "-" + Decimal(-n) else Decimal(n)
  }

  function Repeat(c: char, k: nat): (s: string)
    ensures |s| == k
    ensures forall i :: 0 <= i < k ==> s[i] == c
  {
    if k == 0 then [] else [c] + Repeat(c, k - 1)
  }

  /** `String.prototype.padStart(len, fill)` with a one-character fill. */
  function PadStart(s: string, len: nat, fill: char): (r: string)
    ensures |r| == if |s| >= len then |s| else len
    ensures r[|r| - |s|..] == s
    ensures forall i :: 0 <= i < |r| - |s| ==> r[i] == fill
  {
    if |s| >= len then s else Repeat(fill, len - |s|) + s
  }

  /** One field of the display, `n.toString().padStart(2, '0')`: a
      non-negative number gives at least two digits, exactly two below 100. */
  function Field(n: int): (f: string)
    ensures n >= 0 ==> |f| >= 2 && AllDigits(f)
    ensures 0 <= n < 100 ==> |f| == 2
  {
    var f := PadStart(NumberToString(n), 2, '0');
    assert n >= 0 ==> |f| >= 2 && AllDigits(f) && (n < 100 ==> |f| == 2) by {
      if n >= 0 {
        assert NumberToString(n) == Decimal(n);
      }
    }
    f
  }

  /** A minute field and a second field joined by a colon. */
  function Join(mm: string, ss: string): (r: string)
    ensures |r| == |mm| + 1 + |ss|
    ensures |ss| == 2 ==> r[..|r| - 3] == mm && r[|r| - 3] == ':' && r[|r| - 2..] == ss
  {
    mm + ":" + ss
  }

  /** `formatTime(seconds)`: the minutes `Math.floor(seconds / 60)` and the
      remainder `seconds % 60`, each padded to two characters with zeros,
      joined by a colon. */
  function FormatTime(seconds: int): string
  {
    var mins := seconds / 60;  // a positive divisor: Dafny's `/` is Math.floor here
    var secs := JsMath.Rem(seconds, 60);
    Join(Field(mins), Field(secs))
  }

  /** For non-negative input the two fields are the quotient and the Euclidean remainder. */
  lemma FormatTimeFields(s: int)
    requires s >= 0
    ensures FormatTime(s) == Join(Field(s / 60), Field(s % 60))
  {
    assert JsMath.Rem(s, 60) == s % 60;
  }

  /** Any minute digits and two second digits joined by a colon make a well-shaped display. */
  lemma JoinShape(mm: string, ss: string)
    requires |mm| >= 2 && AllDigits(mm)
    requires |ss| == 2 && AllDigits(ss)
    ensures |Join(mm, ss)| >= 5
    ensures Join(mm, ss)[|Join(mm, ss)| - 3] == ':'
    ensures AllDigits(Join(mm, ss)[..|Join(mm, ss)| - 3])
    ensures AllDigits(Join(mm, ss)[|Join(mm, ss)| - 2..])
  {
  }

  /** For a non-negative count the display is at least two minute digits, a
      colon, and exactly two second digits. */
  lemma FormatTimeShape(s: int)
    requires s >= 0
    ensures |FormatTime(s)| >= 5
    ensures FormatTime(s)[|FormatTime(s)| - 3] == ':'
    ensures AllDigits(FormatTime(s)[..|FormatTime(s)| - 3])
    ensures AllDigits(FormatTime(s)[|FormatTime(s)| - 2..])
  {
    FormatTimeFields(s);
    JoinShape(Field(s / 60), Field(s % 60));
  }

  /** A reading of a clock face: whole minutes and seconds. */
  datatype Clock = Clock(mins: nat, secs: nat)

  function Seconds(c: Clock): nat
  {
    c.mins * 60 + c.secs
  }

  /** Reads back a `MM:SS` display: at least two minute digits, a colon, two
      second digits, and fewer than 60 seconds. Anything else is rejected. */
  function ParseClock(t: string): (r: Option<Clock>)
    ensures r.Some? ==> r.value.secs < 60
    ensures r.Some? ==> |t| >= 5 && t[|t| - 3] == ':'
  {
    if |t| >= 5 && t[|t| - 3] == ':' && AllDigits(t[..|t| - 3]) && AllDigits(t[|t| - 2..])
       && Value(t[|t| - 2..]) < 60
    then Some(Clock(Value(t[..|t| - 3]), Value(t[|t| - 2..])))
    else None
  }

  lemma {:induction false} ValueOfDecimal(n: nat)
    ensures Value(Decimal(n)) == n
  {
    if n >= 10 {
      var s := Decimal(n);
      assert s[..|s| - 1] == Decimal(n / 10);
      ValueOfDecimal(n / 10);
    }
  }

  /** Leading zeros do not change the value of a digit string. */
  lemma {:induction false} ValueIgnoresLeadingZeros(z: string, s: string)
    requires AllDigits(s)
    requires forall i :: 0 <= i < |z| ==> z[i] == '0'
    ensures AllDigits(z + s) && Value(z + s) == Value(s)
    decreases |s|
  {
    if |s| == 0 {
      ValueOfZeros(z);
      assert z + s == z;
    } else {
      var t := z + s;
      assert t[..|t| - 1] == z + s[..|s| - 1];
      ValueIgnoresLeadingZeros(z, s[..|s| - 1]);
    }
  }

  lemma {:induction false} ValueOfZeros(z: string)
    requires forall i :: 0 <= i < |z| ==> z[i] == '0'
    ensures AllDigits(z) && Value(z) == 0
  {
    if |z| > 0 {
      ValueOfZeros(z[..|z| - 1]);
    }
  }

  /** A non-negative number padded with zeros still denotes itself. */
  lemma FieldValue(n: nat)
    ensures Value(Field(n)) == n
  {
    var s := Decimal(n);
    assert NumberToString(n) == s;
    var p := PadStart(s, 2, '0');
    assert Field(n) == p;
    ValueOfDecimal(n);
    if |s| < 2 {
      ValueIgnoresLeadingZeros(p[..|p| - |s|], s);
      assert p == p[..|p| - |s|] + s;
    }
  }

  /** The parser reads back the two fields of any well-formed display. */
  lemma ParseJoin(mm: string, ss: string)
    requires |mm| >= 2 && AllDigits(mm)
    requires |ss| == 2 && AllDigits(ss) && Value(ss) < 60
    ensures ParseClock(Join(mm, ss)) == Some(Clock(Value(mm), Value(ss)))
  {
  }

  /** Reading a formatted duration back gives `s / 60` minutes and `s % 60`
      seconds, which add up to `s` again. */
  lemma FormatTimeRoundTrip(s: int)
    requires s >= 0
    ensures ParseClock(FormatTime(s)) == Some(Clock(s / 60, s % 60))
    ensures Seconds(ParseClock(FormatTime(s)).value) == s
  {
    FormatTimeFields(s);
    FieldValue(s / 60);
    FieldValue(s % 60);
    ParseJoin(Field(s / 60), Field(s % 60));
  }

  /** Distinct non-negative durations never share a display. */
  lemma FormatTimeInjective(a: int, b: int)
    requires a >= 0 && b >= 0 && a != b
    ensures FormatTime(a) != FormatTime(b)
  {
    FormatTimeRoundTrip(a);
    FormatTimeRoundTrip(b);
  }

}
