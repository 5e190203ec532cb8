/** The arithmetic behind the two time labels and the timer inputs of the clock page:
    JavaScript's `Math.floor` and `%` on numbers, the split of a number of seconds into
    hours/minutes/seconds (and days), decimal rendering, `padStart(2, '0')` and
    `parseInt(text) || 0`.  Numbers are exact reals: IEEE rounding is not modelled. */
module TimeFormat {

  // ---------------------------------------------------------------------------
  // Integer helpers
  // ---------------------------------------------------------------------------

  lemma MulAtLeast(e: int, d: int)
    requires e >= 1 && d > 0
    ensures e * d >= d
  {
  }

  /** Euclidean division is determined by its quotient and remainder. */
  lemma DivModUnique(n: int, d: int, q: int, r: int)
    requires d > 0 && 0 <= r < d && n == q * d + r
    ensures n / d == q && n % d == r
  {
    var q0, r0 := n / d, n % d;
    assert n == q0 * d + r0 && 0 <= r0 < d;
    if q0 > q {
      MulAtLeast(q0 - q, d);
      assert false;
    } else if q0 < q {
      MulAtLeast(q - q0, d);
      assert false;
    }
  }

  /** Dividing by `a` and then by `b` is dividing by `a * b`; the remainder modulo `a`
      survives a reduction modulo `a * b`. */
  lemma DivDiv(w: int, a: int, b: int)
    requires w >= 0 && a > 0 && b > 0
    ensures w / a / b == w / (a * b)
    ensures w % (a * b) % a == w % a
  {
    var q1 := w / a;
    var q2 := q1 / b;
    var r1 := w % a;
    var r2 := q1 % b;
    assert w == q1 * a + r1;
    assert q1 == q2 * b + r2;
    assert w == (q2 * b + r2) * a + r1;
    assert (q2 * b + r2) * a == q2 * (a * b) + r2 * a;
    var rr := r2 * a + r1;
    assert rr < a * b by {
      MulAtLeast(b - r2, a);
      assert (b - r2) * a == b * a - r2 * a;
    }
    assert 0 <= rr by {
      assert r2 * a >= 0;
    }
    DivModUnique(w, a * b, q2, rr);
    DivModUnique(rr, a, r2, r1);
  }

  // ---------------------------------------------------------------------------
  // Math.floor and % on reals
  // ---------------------------------------------------------------------------

  /** `Math.floor`. */
  function Floor(x: real): int
  {
    x.Floor
  }

  /** `Math.abs`. */
  function Abs(x: real): (r: real)
    ensures r >= 0.0 && (r == x || r == -x)
  {
    if x < 0.0 then -x else x
  }

  /** Truncation toward zero, the rounding JavaScript's `%` uses. */
  function Trunc(x: real): (t: int)
    ensures x >= 0.0 ==> t as real <= x < t as real + 1.0
    ensures x < 0.0 ==> t as real - 1.0 < x <= t as real
  {
    if x >= 0.0 then x.Floor else -((-x).Floor)
  }

  /** JavaScript's `x % m` on numbers: the remainder takes the sign of the dividend. */
  function JsRem(x: real, m: real): real
    requires m > 0.0
  {
    x - m * Trunc(x / m) as real
  }

  lemma MulLeReal(a: real, b: real, c: real)
    requires a <= b && c > 0.0
    ensures a * c <= b * c
  {
  }

  lemma MulLtReal(a: real, b: real, c: real)
    requires a < b && c > 0.0
    ensures a * c < b * c
  {
  }

  /** Multiplying `lo <= x / m < hi` through by the positive `m`. */
  lemma ScaleBounds(x: real, m: real, lo: real, hi: real)
    requires m > 0.0 && lo <= x / m < hi
    ensures lo * m <= x < hi * m
  {
    MulLeReal(lo, x / m, m);
    MulLtReal(x / m, hi, m);
  }

  /** The remainder lies strictly between `-m` and `m`, on the dividend's side of zero. */
  lemma JsRemBounds(x: real, m: real)
    requires m > 0.0
    ensures x >= 0.0 ==> 0.0 <= JsRem(x, m) < m
    ensures x < 0.0 ==> -m < JsRem(x, m) <= 0.0
  {
    var t := Trunc(x / m) as real;
    if x >= 0.0 {
      ScaleBounds(x, m, t, t + 1.0);
    } else {
      assert (-x) / m == -(x / m);
      ScaleBounds(-x, m, -t, -t + 1.0);
    }
  }

  /** For a non-negative number, flooring after dividing by `k` is integer division of
      its floor by `k`. */
  lemma FloorDiv(y: real, k: int)
    requires y >= 0.0 && k > 0
    ensures Floor(y / k as real) == Floor(y) / k
  {
    var w := y.Floor;
    var q := w / k;
    var kr := k as real;
    assert w == q * k + w % k && 0 <= w % k < k;
    assert w + 1 <= (q + 1) * k;
    assert (q * k) as real == q as real * kr;
    assert ((q + 1) * k) as real == (q as real + 1.0) * kr;
    var r := y / kr;
    assert r * kr == y;
    CancelLeReal(q as real, r, kr);
    CancelLtReal(r, q as real + 1.0, kr);
  }

  lemma CancelLeReal(a: real, b: real, c: real)
    requires c > 0.0 && a * c <= b * c
    ensures a <= b
  {
  }

  lemma CancelLtReal(a: real, b: real, c: real)
    requires c > 0.0 && a * c < b * c
    ensures a < b
  {
  }

  /** For a non-negative number, flooring its JavaScript remainder modulo `k` is the
      integer remainder of its floor. */
  lemma FloorRem(y: real, k: int)
    requires y >= 0.0 && k > 0
    ensures JsRem(y, k as real) >= 0.0
    ensures Floor(JsRem(y, k as real)) == Floor(y) % k
  {
    FloorDiv(y, k);
    var q := Floor(y) / k;
    assert Trunc(y / k as real) == q;
    assert JsRem(y, k as real) == y - (q * k) as real;
    assert Floor(y - (q * k) as real) == Floor(y) - q * k;
  }

  // ---------------------------------------------------------------------------
  // Decimal digits
  // ---------------------------------------------------------------------------

  predicate IsDigit(c: char)
  {
    '0' <= c <= '9'
  }

  predicate AllDigits(s: string)
  {
    forall i :: 0 <= i < |s| ==> IsDigit(s[i])
  }

  function DigitChar(d: nat): (c: char)
    requires d < 10
    ensures IsDigit(c)
  {
    ('0' as int + d) as char
  }

  function DigitValue(c: char): (d: nat)
    requires IsDigit(c)
    ensures d < 10 && DigitChar(d) == c
  {
    c as int - '0' as int
  }

  /** A digit of radix 10 or 16 as `parseInt` reads them: the decimal digits and, in radix
      16, the letters `a`-`f` in either case. */
  predicate IsRadixDigit(c: char, radix: nat)
  {
    IsDigit(c) || (radix == 16 && ('a' <= c <= 'f' || 'A' <= c <= 'F'))
  }

  predicate AllRadixDigits(s: string, radix: nat)
  {
    forall i :: 0 <= i < |s| ==> IsRadixDigit(s[i], radix)
  }

  function RadixDigitValue(c: char, radix: nat): (d: nat)
    requires IsRadixDigit(c, radix)
    ensures d < (if radix == 16 then 16 else 10)
    ensures IsDigit(c) ==> d == DigitValue(c)
    ensures 'a' <= c <= 'f' ==> d == c as int - 'a' as int + 10
    ensures 'A' <= c <= 'F' ==> d == c as int - 'A' as int + 10
  {
    if IsDigit(c) then DigitValue(c)
    else if 'a' <= c <= 'f' then c as int - 'a' as int + 10
    else c as int - 'A' as int + 10
  }

  /** The number a string of digits in the given radix denotes. */
  function RadixValue(s: string, radix: nat): nat
    requires AllRadixDigits(s, radix)
  {
    if s == [] then 0
    else RadixValue(s[..|s| - 1], radix) * radix + RadixDigitValue(s[|s| - 1], radix)
  }

  /** The number a string of decimal digits denotes. */
  function DigitsValue(s: string): nat
    requires AllDigits(s)
  {
    assert AllRadixDigits(s, 10);
    RadixValue(s, 10)
  }

  /** `Number.prototype.toString()` of a non-negative integer: its decimal digits with no
      leading zero. */
  function NatToString(n: nat): (s: string)
    ensures |s| >= 1 && AllDigits(s)
    ensures s[0] == '0' <==> n == 0
    ensures |s| == 1 <==> n < 10
  {
    if n < 10 then [DigitChar(n)] else NatToString(n / 10) + [DigitChar(n % 10)]
  }

  /** `Number.prototype.toString()` of any integer. */
  function IntToString(n: int): string
  {
    if n < 0 then "-" + NatToString(-n) else NatToString(n)
  }

  /** Reading back the digits of `NatToString(n)` gives `n`. */
  lemma {:induction false} NatToStringRoundTrip(n: nat)
    ensures DigitsValue(NatToString(n)) == n
  {
    if n >= 10 {
      var s := NatToString(n / 10);
      var t := s + [DigitChar(n % 10)];
      assert t[..|t| - 1] == s;
      NatToStringRoundTrip(n / 10);
      assert RadixValue(t, 10) == RadixValue(s, 10) * 10 + n % 10;
    } else {
      var t := [DigitChar(n)];
      assert t[..0] == [];
      assert RadixDigitValue(t[0], 10) == n;
      assert RadixValue(t, 10) == n;
    }
  }

  /** A leading zero does not change the value of a digit string. */
  lemma {:induction false} LeadingZeroValue(s: string)
    requires AllDigits(s)
    ensures AllDigits("0" + s) && DigitsValue("0" + s) == DigitsValue(s)
  {
    if s != [] {
      var t := "0" + s;
      assert t[..|t| - 1] == "0" + s[..|s| - 1];
      LeadingZeroValue(s[..|s| - 1]);
    }
  }

  /** `s.padStart(2, '0')`: `s` preceded by as many zeros as it takes to reach length 2. */
  function PadStart2(s: string): (r: string)
    ensures |r| == if |s| < 2 then 2 else |s|
    ensures r[|r| - |s|..] == s
    ensures forall i :: 0 <= i < |r| - |s| ==> r[i] == '0'
  {
    if |s| < 2 then seq(2 - |s|, _ => '0') + s else s
  }

  /** A two-digit field pads to exactly two digits that read back as the field. */
  lemma PadStart2RoundTrip(n: nat)
    requires n < 100
    ensures |PadStart2(NatToString(n))| == 2
    ensures AllDigits(PadStart2(NatToString(n)))
    ensures DigitsValue(PadStart2(NatToString(n))) == n
  {
    var s := NatToString(n);
    NatToStringRoundTrip(n);
    if n < 10 {
      assert PadStart2(s) == "0" + s;
      LeadingZeroValue(s);
    } else {
      assert |s| == 2 by {
        assert NatToString(n / 10) == [DigitChar(n / 10)];
      }
    }
  }

  // ---------------------------------------------------------------------------
  // The countdown text HH:MM:SS (script.js:416-418, 557-562)
  // ---------------------------------------------------------------------------

  datatype Hms = Hms(hours: int, minutes: int, seconds: int)

  /** The split of a remaining time `r` into hours, minutes and seconds, exactly as the
      mandala computes it. */
  function ClockFields(r: real): Hms
  {
    Hms(Floor(r / 3600.0), Floor(JsRem(r, 3600.0) / 60.0), Floor(JsRem(r, 60.0)))
  }

  /** The timer total `h*3600 + m*60 + s`. */
  function TotalSeconds(h: int, m: int, s: int): int
  {
    h * 3600 + m * 60 + s
  }

  /** For a non-negative remaining time the split is a mixed-radix decomposition of its
      whole seconds: minutes and seconds are below 60 and the fields add back up. */
  lemma ClockFieldsSplit(r: real)
    requires r >= 0.0
    ensures var f := ClockFields(r);
      && f.hours >= 0 && 0 <= f.minutes < 60 && 0 <= f.seconds < 60
      && TotalSeconds(f.hours, f.minutes, f.seconds) == Floor(r)
  {
    var w := Floor(r);
    FloorDiv(r, 3600);
    FloorRem(r, 3600);
    FloorRem(r, 60);
    var y := JsRem(r, 3600.0);
    FloorDiv(y, 60);
    DivDiv(w, 60, 60);
    var f := ClockFields(r);
    assert f.hours == w / 3600;
    assert f.minutes == (w % 3600) / 60;
    assert f.seconds == w % 60;
    assert w % 3600 == 60 * ((w % 3600) / 60) + (w % 3600) % 60;
  }

  /** Setting the timer to `h:m:s` and splitting the total again gives back `h`, `m`
      and `s`. */
  lemma ClockFieldsOfTotal(h: int, m: int, s: int)
    requires h >= 0 && 0 <= m < 60 && 0 <= s < 60
    ensures ClockFields(TotalSeconds(h, m, s) as real) == Hms(h, m, s)
  {
    var t := TotalSeconds(h, m, s);
    ClockFieldsSplit(t as real);
    var f := ClockFields(t as real);
    assert Floor(t as real) == t;
    DivModUnique(t, 3600, h, m * 60 + s);
    DivModUnique(t, 3600, f.hours, f.minutes * 60 + f.seconds);
    DivModUnique(m * 60 + s, 60, m, s);
    DivModUnique(m * 60 + s, 60, f.minutes, f.seconds);
  }

  /** Three fields as `HH:MM:SS`, each padded to at least two characters. */
  function HmsText(f: Hms): string
  {
    PadStart2(IntToString(f.hours)) + ":" + PadStart2(IntToString(f.minutes)) + ":"
      + PadStart2(IntToString(f.seconds))
  }

  /** The countdown text `HH:MM:SS` of a remaining time. */
  function ClockLabel(r: real): string
  {
    HmsText(ClockFields(r))
  }

  /** Three two-character pieces joined by colons sit at offsets 0, 3 and 6. */
  lemma ColonJoin(a: string, b: string, c: string)
    requires |a| == 2 && |b| == 2 && |c| == 2
    ensures var text := a + ":" + b + ":" + c;
      && |text| == 8 && text[2] == ':' && text[5] == ':'
      && text[0..2] == a && text[3..5] == b && text[6..8] == c
  {
  }

  /** Fields below 100 print as eight characters, two digits per field separated by
      colons, and each pair of digits reads back as its field. */
  lemma HmsTextFields(f: Hms)
    requires 0 <= f.hours < 100 && 0 <= f.minutes < 100 && 0 <= f.seconds < 100
    ensures var text := HmsText(f);
      && |text| == 8 && text[2] == ':' && text[5] == ':'
      && AllDigits(text[0..2]) && DigitsValue(text[0..2]) == f.hours
      && AllDigits(text[3..5]) && DigitsValue(text[3..5]) == f.minutes
      && AllDigits(text[6..8]) && DigitsValue(text[6..8]) == f.seconds
  {
    var a, b, c := PadStart2(IntToString(f.hours)), PadStart2(IntToString(f.minutes)),
      PadStart2(IntToString(f.seconds));
    assert a == PadStart2(NatToString(f.hours));
    assert b == PadStart2(NatToString(f.minutes));
    assert c == PadStart2(NatToString(f.seconds));
    PadStart2RoundTrip(f.hours);
    PadStart2RoundTrip(f.minutes);
    PadStart2RoundTrip(f.seconds);
    ColonJoin(a, b, c);
    assert HmsText(f) == a + ":" + b + ":" + c;
  }

  /** Below 100 hours the countdown text is eight characters, two digits per field
      separated by colons, and each pair of digits reads back as its field. */
  lemma ClockLabelFields(r: real)
    requires r >= 0.0 && ClockFields(r).hours < 100
    ensures var text := ClockLabel(r); var f := ClockFields(r);
      && |text| == 8 && text[2] == ':' && text[5] == ':'
      && AllDigits(text[0..2]) && DigitsValue(text[0..2]) == f.hours
      && AllDigits(text[3..5]) && DigitsValue(text[3..5]) == f.minutes
      && AllDigits(text[6..8]) && DigitsValue(text[6..8]) == f.seconds
  {
    ClockFieldsSplit(r);
    HmsTextFields(ClockFields(r));
  }

  /** A finished countdown reads `00:00:00`. */
  lemma ClockLabelAtZero()
    ensures ClockLabel(0.0) == "00:00:00"
  {
    assert ClockFields(0.0) == Hms(0, 0, 0) by {
      FloorRem(0.0, 3600);
      FloorRem(0.0, 60);
    }
    assert HmsText(Hms(0, 0, 0)) == "00:00:00";
  }

  // ---------------------------------------------------------------------------
  // The elapsed-time text T±Dd Hh Mm Ss (script.js:241-249)
  // ---------------------------------------------------------------------------

  datatype Dhms = Dhms(days: int, hours: int, minutes: int, seconds: int)

  /** The split of the pattern machine's elapsed time (in seconds, either sign) into days,
      hours, minutes and seconds of its magnitude, computed through milliseconds as the
      page does. */
  function ElapsedFields(elapsed: real): Dhms
  {
    var ms := Abs(elapsed * 1000.0);
    Dhms(Floor(ms / 86400000.0),
         Floor(JsRem(ms / 3600000.0, 24.0)),
         Floor(JsRem(ms / 60000.0, 60.0)),
         Floor(JsRem(ms / 1000.0, 60.0)))
  }

  /** The fields are the days, hours (mod 24), minutes (mod 60) and seconds (mod 60) of
      the whole seconds of `|elapsed|`. */
  lemma ElapsedFieldsWhole(elapsed: real)
    ensures var w := Floor(Abs(elapsed));
      ElapsedFields(elapsed) == Dhms(w / 86400, (w / 3600) % 24, (w / 60) % 60, w % 60)
  {
    var x := Abs(elapsed);
    var ms := Abs(elapsed * 1000.0);
    assert ms == x * 1000.0;
    assert ms / 86400000.0 == x / 86400.0;
    assert ms / 3600000.0 == x / 3600.0;
    assert ms / 60000.0 == x / 60.0;
    assert ms / 1000.0 == x;
    FloorDiv(x, 86400);
    FloorDiv(x, 3600);
    FloorDiv(x, 60);
    FloorRem(x / 3600.0, 24);
    FloorRem(x / 60.0, 60);
    FloorRem(x, 60);
  }

  /** Days, hours, minutes and seconds of `w` seconds, each within its range, add back up
      to `w`. */
  lemma DhmsSplit(w: int)
    requires w >= 0
    ensures 0 <= (w / 3600) % 24 < 24 && 0 <= (w / 60) % 60 < 60 && 0 <= w % 60 < 60
    ensures (w / 86400) * 86400 + ((w / 3600) % 24) * 3600 + ((w / 60) % 60) * 60 + w % 60 == w
  {
    DivDiv(w, 3600, 24);
    DivDiv(w, 60, 60);
    assert w / 3600 == 24 * (w / 86400) + (w / 3600) % 24;
    assert w / 60 == 60 * (w / 3600) + (w / 60) % 60;
    assert w == 60 * (w / 60) + w % 60;
  }

  /** The fields are the days, hours, minutes and seconds of the whole seconds of
      `|elapsed|`: each within its range, and they add back up. */
  lemma ElapsedFieldsSplit(elapsed: real)
    ensures var f := ElapsedFields(elapsed); var w := Floor(Abs(elapsed));
      && f.days >= 0 && 0 <= f.hours < 24 && 0 <= f.minutes < 60 && 0 <= f.seconds < 60
      && f.days * 86400 + f.hours * 3600 + f.minutes * 60 + f.seconds == w
  {
    ElapsedFieldsWhole(elapsed);
    DhmsSplit(Floor(Abs(elapsed)));
  }

  /** Days, hours, minutes and seconds as `Dd Hh Mm Ss`, unpadded. */
  function DhmsText(f: Dhms): string
  {
    IntToString(f.days) + "d " + IntToString(f.hours) + "h " + IntToString(f.minutes) + "m "
      + IntToString(f.seconds) + "s"
  }

  /** The elapsed-time text: `T`, the direction's sign, then `Dd Hh Mm Ss`. */
  function ElapsedLabel(elapsed: real, direction: int): string
  {
    "T" + (if direction > 0 then "+" else "-") + DhmsText(ElapsedFields(elapsed))
  }

  /** Fields that are not negative print as their digits with no sign, and the digits at the
      front read back as the days. */
  lemma DhmsTextFields(f: Dhms)
    requires f.days >= 0 && f.hours >= 0 && f.minutes >= 0 && f.seconds >= 0
    ensures DhmsText(f) == NatToString(f.days) + "d " + NatToString(f.hours) + "h "
                           + NatToString(f.minutes) + "m " + NatToString(f.seconds) + "s"
    ensures DigitRunValue(DhmsText(f), 10) == f.days
  {
    var days := NatToString(f.days);
    var rest := "d " + IntToString(f.hours) + "h " + IntToString(f.minutes) + "m "
                + IntToString(f.seconds) + "s";
    assert DhmsText(f) == days + rest;
    LeadingDigitsOfRun(days, rest, 10);
    NatToStringRoundTrip(f.days);
  }

  /** The elapsed-time text is `T`, then `+` exactly for a positive direction and `-`
      otherwise, then the days, hours, minutes and seconds with their unit letters; the
      digits after the sign read back as the days. */
  lemma ElapsedLabelText(elapsed: real, direction: int)
    ensures var text := ElapsedLabel(elapsed, direction); var f := ElapsedFields(elapsed);
      && |text| > 2 && text[0] == 'T'
      && (text[1] == '+' <==> direction > 0) && (text[1] == '-' <==> direction <= 0)
      && text[2..] == NatToString(f.days) + "d " + NatToString(f.hours) + "h "
                      + NatToString(f.minutes) + "m " + NatToString(f.seconds) + "s"
      && DigitRunValue(text[2..], 10) == f.days
  {
    var f := ElapsedFields(elapsed);
    ElapsedFieldsSplit(elapsed);
    DhmsTextFields(f);
    var text := ElapsedLabel(elapsed, direction);
    assert text[2..] == DhmsText(f);
  }

  // ---------------------------------------------------------------------------
  // parseInt(text) || 0 (script.js:475-477)
  // ---------------------------------------------------------------------------

  /** The white space `parseInt` skips before the number: tab, vertical tab, form feed, the
      byte-order mark, every space separator of Unicode (category Zs), and the line
      terminators LF, CR, U+2028 and U+2029. */
  predicate IsJsSpace(c: char)
  {
    || c == '\t' || c == '\U{B}' || c == '\U{C}' || c == '\U{FEFF}'
    || c == ' ' || c == '\U{A0}' || c == '\U{1680}' || '\U{2000}' <= c <= '\U{200A}'
    || c == '\U{202F}' || c == '\U{205F}' || c == '\U{3000}'
    || c == '\n' || c == '\r' || c == '\U{2028}' || c == '\U{2029}'
  }

  /** The text after its leading white space. */
  function TrimStart(s: string): (r: string)
    ensures |r| <= |s| && r == s[|s| - |r|..]
    ensures forall i :: 0 <= i < |s| - |r| ==> IsJsSpace(s[i])
    ensures r == [] || !IsJsSpace(r[0])
  {
    if s != [] && IsJsSpace(s[0]) then TrimStart(s[1..]) else s
  }

  /** The longest prefix made of digits of the given radix. */
  function LeadingDigits(s: string, radix: nat): (r: string)
    ensures AllRadixDigits(r, radix) && |r| <= |s| && r == s[..|r|]
    ensures |r| < |s| ==> !IsRadixDigit(s[|r|], radix)
  {
    if s != [] && IsRadixDigit(s[0], radix) then [s[0]] + LeadingDigits(s[1..], radix) else []
  }

  /** The value of the run of digits `s` starts with; no digits read as 0. */
  function DigitRunValue(s: string, radix: nat): (n: nat)
    ensures s == [] || !IsRadixDigit(s[0], radix) ==> n == 0
  {
    RadixValue(LeadingDigits(s, radix), radix)
  }

  /** Whether the text starts with the `0x` or `0X` that makes `parseInt` read radix 16. */
  predicate HasHexPrefix(u: string)
  {
    |u| >= 2 && u[0] == '0' && (u[1] == 'x' || u[1] == 'X')
  }

  /** `parseInt(text) || 0` with no radix given: leading white space is skipped and one sign
      is read; a `0x` or `0X` prefix then selects radix 16 and is dropped, otherwise the radix
      is 10; the value is the longest run of digits in that radix. Text with no digits there
      is NaN, and `-0` is negative zero; `|| 0` turns both into 0. */
  function ParseIntOrZero(s: string): (n: int)
    ensures (forall i :: 0 <= i < |s| ==> !IsDigit(s[i])) ==> n == 0
  {
    var t := TrimStart(s);
    var negative := t != [] && t[0] == '-';
    var u := if t != [] && (t[0] == '-' || t[0] == '+') then t[1..] else t;
    assert u == s[|s| - |u|..];
    var magnitude := if HasHexPrefix(u) then DigitRunValue(u[2..], 16) else DigitRunValue(u, 10);
    if negative then -(magnitude as int) else magnitude
  }

  /** A run of digits ended by a non-digit reads as that run. */
  lemma {:induction false} LeadingDigitsOfRun(s: string, rest: string, radix: nat)
    requires AllRadixDigits(s, radix)
    requires rest == [] || !IsRadixDigit(rest[0], radix)
    ensures LeadingDigits(s + rest, radix) == s
  {
    if s != [] {
      assert (s + rest)[1..] == s[1..] + rest;
      LeadingDigitsOfRun(s[1..], rest, radix);
    }
  }

  /** A run of digits is read as its value. */
  lemma DigitRunOfDigits(s: string, radix: nat)
    requires AllRadixDigits(s, radix)
    ensures DigitRunValue(s, radix) == RadixValue(s, radix)
  {
    LeadingDigitsOfRun(s, [], radix);
    assert s + [] == s;
  }

  /** Text that does not start with white space is left as it is. */
  lemma TrimStartNoSpace(t: string)
    requires t != [] && !IsJsSpace(t[0])
    ensures TrimStart(t) == t
  {
  }

  /** White space before the input changes nothing. */
  lemma ParseIntSkipsSpace(c: char, s: string)
    requires IsJsSpace(c)
    ensures ParseIntOrZero([c] + s) == ParseIntOrZero(s)
  {
    assert ([c] + s)[1..] == s;
  }

  /** A run of decimal digits is read as its value: a leading zero never selects octal. */
  lemma ParseIntOfDigits(s: string)
    requires s != [] && AllDigits(s)
    ensures ParseIntOrZero(s) == DigitsValue(s)
  {
    TrimStartNoSpace(s);
    DigitRunOfDigits(s, 10);
  }

  /** A run of digits after a minus sign is read as the negated value. */
  lemma ParseIntOfMinusDigits(s: string)
    requires s != [] && AllDigits(s)
    ensures ParseIntOrZero("-" + s) == -(DigitsValue(s) as int)
  {
    var t := "-" + s;
    TrimStartNoSpace(t);
    assert t[1..] == s;
    DigitRunOfDigits(s, 10);
  }

  /** After `0x` or `0X` a run of hexadecimal digits is read as its value in radix 16. */
  lemma ParseIntOfHex(s: string)
    requires s != [] && AllRadixDigits(s, 16)
    ensures ParseIntOrZero("0x" + s) == RadixValue(s, 16)
    ensures ParseIntOrZero("0X" + s) == RadixValue(s, 16)
  {
    TrimStartNoSpace("0x" + s);
    TrimStartNoSpace("0X" + s);
    assert ("0x" + s)[2..] == s && ("0X" + s)[2..] == s;
    DigitRunOfDigits(s, 16);
  }

  /** A `0x` prefix with no hexadecimal digit after it is NaN, read as 0: the `0` before the
      `x` is not taken as a decimal number. */
  lemma ParseIntOfBareHexPrefix(s: string)
    requires s == [] || !IsRadixDigit(s[0], 16)
    ensures ParseIntOrZero("0x" + s) == 0
  {
    TrimStartNoSpace("0x" + s);
    assert ("0x" + s)[2..] == s;
  }

  /** A non-negative integer typed into a timer field is read back exactly. */
  lemma ParseIntOfNat(n: nat)
    ensures ParseIntOrZero(NatToString(n)) == n
  {
    ParseIntOfDigits(NatToString(n));
    NatToStringRoundTrip(n);
  }

  /** So is a negative one: `parseInt` keeps the sign and `-n || 0` is `-n`. */
  lemma ParseIntOfNegative(n: nat)
    ensures ParseIntOrZero("-" + NatToString(n)) == -(n as int)
  {
    ParseIntOfMinusDigits(NatToString(n));
    NatToStringRoundTrip(n);
  }
}
