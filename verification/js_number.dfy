/** JavaScript numbers as the dashboard uses them: finite decimal values that
    come from text (`Number`, `parseInt`, `parseFloat`) and go back to text
    (`toString`, `String`). `NaN` is `None` wherever a parse can produce it. */
module JsNumber {
  import opened Options
  import JsText

  function Pow10(k: nat): (r: nat)
    ensures r >= 1
  {
    if k == 0 then 1 else 10 * Pow10(k - 1)
  }

  lemma {:induction false} Pow10Add(a: nat, b: nat)
    ensures Pow10(a + b) == Pow10(a) * Pow10(b)
  {
    if a > 0 {
      Pow10Add(a - 1, b);
      calc {
        Pow10(a + b);
        10 * Pow10(a - 1 + b);
        10 * (Pow10(a - 1) * Pow10(b));
        (10 * Pow10(a - 1)) * Pow10(b);
      }
    }
  }

  /** A finite decimal number: `units / 10^scale`. */
  datatype Decimal = Decimal(units: int, scale: nat) {

    function Value(): real {
      units as real / Pow10(scale) as real
    }

    /** The number is falsy in JavaScript (it is `0`). */
    predicate IsZero() {
      units == 0
    }
  }

  const Zero := Decimal(0, 0)

  function FromInt(n: int): (d: Decimal)
    ensures d.Value() == n as real
  {
    Decimal(n, 0)
  }

  /** The sign of a decimal is the sign of its units, so the comparisons
      `x <= 0`, `x < 0` and `x > 0` are comparisons of the units. */
  lemma SignOfValue(d: Decimal)
    ensures d.Value() <= 0.0 <==> d.units <= 0
    ensures d.Value() < 0.0 <==> d.units < 0
    ensures d.Value() == 0.0 <==> d.units == 0
  {
    var p := Pow10(d.scale) as real;
    assert p > 0.0;
    assert d.Value() * p == d.units as real;
  }

  // ---------------------------------------------------------------- digits

  predicate IsDigit(c: char) {
    '0' <= c <= '9'
  }

  function DigitValue(c: char): (d: nat)
    requires IsDigit(c)
    ensures d < 10
  {
    c as int - '0' as int
  }

  function DigitChar(d: nat): (c: char)
    requires d < 10
    ensures IsDigit(c) && DigitValue(c) == d
  {
    ('0' as int + d) as char
  }

  predicate AllDigits(s: string) {
    forall i :: 0 <= i < |s| ==> IsDigit(s[i])
  }

  /** The value of a string of decimal digits, most significant first. */
  function DigitsValue(s: string): nat
    requires AllDigits(s)
  {
    if s == [] then 0 else DigitsValue(s[..|s| - 1]) * 10 + DigitValue(s[|s| - 1])
  }

  lemma AllDigitsConcat(a: string, b: string)
    requires AllDigits(a) && AllDigits(b)
    ensures AllDigits(a + b)
  {
    forall i | 0 <= i < |a + b| ensures IsDigit((a + b)[i]) {
      if i >= |a| { assert (a + b)[i] == b[i - |a|]; }
    }
  }

  lemma ShiftDigit(va: int, p: int, vb: int, d: int)
    ensures (va * p + vb) * 10 + d == va * (p * 10) + (vb * 10 + d)
  {
  }

  lemma {:induction false} DigitsValueConcat(a: string, b: string)
    requires AllDigits(a) && AllDigits(b)
    ensures AllDigits(a + b)
    ensures DigitsValue(a + b) == DigitsValue(a) * Pow10(|b|) + DigitsValue(b)
    decreases |b|
  {
    AllDigitsConcat(a, b);
    if b == [] {
      assert a + b == a;
    } else {
      var b' := b[..|b| - 1];
      assert (a + b)[..|a + b| - 1] == a + b';
      assert (a + b)[|a + b| - 1] == b[|b| - 1];
      DigitsValueConcat(a, b');
      var d := DigitValue(b[|b| - 1]);
      assert DigitsValue(a + b) == DigitsValue(a + b') * 10 + d;
      assert DigitsValue(b) == DigitsValue(b') * 10 + d;
      assert Pow10(|b|) == Pow10(|b'|) * 10;
      ShiftDigit(DigitsValue(a), Pow10(|b'|), DigitsValue(b'), d);
    }
  }

  function Zeros(k: nat): (s: string)
    ensures |s| == k && AllDigits(s)
    ensures forall i :: 0 <= i < k ==> s[i] == '0'
  {
    seq(k, i => '0')
  }

  lemma {:induction false} ZerosValue(k: nat)
    ensures DigitsValue(Zeros(k)) == 0
  {
    if k > 0 {
      assert Zeros(k)[..k - 1] == Zeros(k - 1);
      ZerosValue(k - 1);
    }
  }

  /** Leading zeros do not change the value of a digit string. */
  lemma LeadingZerosValue(k: nat, s: string)
    requires AllDigits(s)
    ensures AllDigits(Zeros(k) + s)
    ensures DigitsValue(Zeros(k) + s) == DigitsValue(s)
  {
    DigitsValueConcat(Zeros(k), s);
    ZerosValue(k);
  }

  /** The shortest decimal spelling of a natural number. */
  function NatToDigits(n: nat): (s: string)
    ensures |s| >= 1 && AllDigits(s)
  {
    if n < 10 then [DigitChar(n)] else NatToDigits(n / 10) + [DigitChar(n % 10)]
  }

  lemma {:induction false} NatToDigitsValue(n: nat)
    ensures DigitsValue(NatToDigits(n)) == n
  {
    if n < 10 {
      assert NatToDigits(n)[..0] == [];
    } else {
      var s := NatToDigits(n);
      assert s[..|s| - 1] == NatToDigits(n / 10);
      NatToDigitsValue(n / 10);
    }
  }

  lemma {:induction false} NatToDigitsLength(n: nat, k: nat)
    requires k >= 1 && n < Pow10(k)
    ensures |NatToDigits(n)| <= k
  {
    if n >= 10 {
      assert k >= 2;
      assert n / 10 < Pow10(k - 1);
      NatToDigitsLength(n / 10, k - 1);
    }
  }

  /** `String(n)` for an integer. */
  function IntToString(n: int): (s: string)
    ensures |s| >= 1
  {
    if n < 0 then "-" + NatToDigits(-n) else NatToDigits(n)
  }

  /** The spelling of an integer starts with a minus sign or a digit. */
  lemma IntToStringStart(n: int)
    ensures IntToString(n)[0] == '-' || IsDigit(IntToString(n)[0])
  {
    if n >= 0 {
      assert IsDigit(NatToDigits(n)[0]);
    }
  }

  lemma DivMod(a: nat, p: nat)
    requires p >= 1
    ensures 0 <= a / p <= a && (a / p) * p + a % p == a && 0 <= a % p < p
  {
  }

  /** `s` left-padded with zeros to `k` characters. */
  function PadLeft(s: string, k: nat): (r: string)
    requires AllDigits(s)
    ensures AllDigits(r) && |r| == if |s| < k then k else |s|
  {
    if |s| < k then Zeros(k - |s|) + s else s
  }

  // --------------------------------------------------------------- scanning

  /** The number of decimal digits at the start of `s`. */
  function LeadingDigits(s: string): (k: nat)
    ensures k <= |s|
    ensures AllDigits(s[..k])
    ensures k < |s| ==> !IsDigit(s[k])
  {
    if s != [] && IsDigit(s[0]) then
      var k := 1 + LeadingDigits(s[1..]);
      assert s[..k] == [s[0]] + s[1..][..k - 1];
      k
    else 0
  }

  lemma {:induction false} LeadingDigitsOf(a: string, b: string)
    requires AllDigits(a)
    requires b == [] || !IsDigit(b[0])
    ensures LeadingDigits(a + b) == |a|
    decreases |a|
  {
    if a != [] {
      assert (a + b)[1..] == a[1..] + b;
      LeadingDigitsOf(a[1..], b);
    } else {
      assert a + b == b;
    }
  }

  function SignLength(t: string): (n: nat)
    ensures n <= |t|
  {
    if t != [] && (t[0] == '-' || t[0] == '+') then 1 else 0
  }

  function SignOf(t: string): int {
    if t != [] && t[0] == '-' then -1 else 1
  }

  /** What a left-to-right scan of `[+-]digits[.digits]` at the start of a
      text read: the number, the characters consumed, and the digits seen. */
  datatype Scan = Scan(value: Decimal, consumed: nat, digits: nat)

  function ScanDecimal(t: string): (r: Scan)
    ensures r.consumed <= |t|
  {
    var sl := SignLength(t);
    ScanDigits(SignOf(t), sl, t[sl..])
  }

  /** The scan after the sign, which took `sl` characters: integer digits,
      then, after a point, fraction digits. */
  function ScanDigits(sign: int, sl: nat, rest: string): (r: Scan)
    ensures r.consumed <= sl + |rest|
  {
    var ki := LeadingDigits(rest);
    if ki < |rest| && rest[ki] == '.' then
      var frac := rest[ki + 1..];
      PointedScanOf(sign, sl, rest[..ki], frac[..LeadingDigits(frac)])
    else
      WholeScanOf(sign, sl, rest[..ki])
  }

  /** The scan of the integer digits `I`, a point and the fraction digits `F`. */
  function PointedScanOf(sign: int, sl: nat, I: string, F: string): Scan
    requires AllDigits(I) && AllDigits(F)
  {
    Scan(Decimal(sign * (DigitsValue(I) * Pow10(|F|) + DigitsValue(F)), |F|), sl + |I| + 1 + |F|, |I| + |F|)
  }

  /** The scan of the integer digits `I` alone. */
  function WholeScanOf(sign: int, sl: nat, I: string): Scan
    requires AllDigits(I)
  {
    Scan(Decimal(sign * DigitsValue(I), 0), sl + |I|, |I|)
  }

  /** `parseInt(s)` (base 10): the sign and digits after leading white space;
      `None` stands for `NaN`. */
  function ParseInt(s: string): (r: Option<int>)
    ensures r.None? <==> LeadingDigits(JsText.TrimStart(s)[SignLength(JsText.TrimStart(s))..]) == 0
  {
    var t := JsText.TrimStart(s);
    var rest := t[SignLength(t)..];
    var k := LeadingDigits(rest);
    if k == 0 then None else Some(SignOf(t) * DigitsValue(rest[..k]))
  }

  /** `parseFloat(s)`: the longest decimal prefix after leading white space. */
  function ParseFloat(s: string): (r: Option<Decimal>)
    ensures r.None? <==> ScanDecimal(JsText.TrimStart(s)).digits == 0
  {
    var sc := ScanDecimal(JsText.TrimStart(s));
    if sc.digits == 0 then None else Some(sc.value)
  }

  /** `Number(s)`: the whole trimmed text must be a decimal; the blank text is `0`. */
  function ToNumber(s: string): (r: Option<Decimal>)
    ensures JsText.IsBlank(s) ==> r == Some(Zero)
  {
    var t := JsText.Trim(s);
    if t == "" then Some(Zero)
    else
      var sc := ScanDecimal(t);
      if sc.digits > 0 && sc.consumed == |t| then Some(sc.value) else None
  }

  // ----------------------------------------------------------- to text

  /** A decimal with no trailing zero in its fraction. */
  predicate IsNormal(d: Decimal) {
    d.scale == 0 || d.units % 10 != 0
  }

  /** Drop trailing zeros of the fraction; the value is unchanged. */
  function Normalize(d: Decimal): (r: Decimal)
    ensures IsNormal(r)
    ensures r.Value() == d.Value()
    ensures r.IsZero() <==> d.IsZero()
    decreases d.scale
  {
    if d.scale > 0 && d.units % 10 == 0 then
      var smaller := Decimal(d.units / 10, d.scale - 1);
      ScaleDown(d.units / 10, d.scale - 1);
      Normalize(smaller)
    else d
  }

  lemma ScaleDown(u: int, s: nat)
    ensures Decimal(u * 10, s + 1).Value() == Decimal(u, s).Value()
  {
    var p := Pow10(s) as real;
    assert Pow10(s + 1) as real == 10.0 * p;
    assert p > 0.0;
  }

  lemma NormalizeIdempotent(d: Decimal)
    requires IsNormal(d)
    ensures Normalize(d) == d
  {
  }

  /** `d.toString()`: the shortest spelling, `-` for negatives, and a
      fraction only when the number is not whole. */
  function ShowDecimal(d: Decimal): (s: string)
    ensures |s| >= 1
  {
    var n := Normalize(d);
    if n.scale == 0 then IntToString(n.units) else ShowPointed(n)
  }

  /** The spelling of a number with a fraction: the magnitude split at the point. */
  function ShowPointed(n: Decimal): (s: string)
    requires n.scale > 0
    ensures |s| >= 1
  {
    var a: nat := if n.units < 0 then -n.units else n.units;
    var p := Pow10(n.scale);
    DivMod(a, p);
    PointedText(n.units < 0, a / p, a % p, n.scale)
  }

  // -------------------------------------------------------- round trips

  lemma TrimStartKeeps(t: string)
    requires t != [] && !JsText.IsSpace(t[0])
    ensures JsText.TrimStart(t) == t
  {
  }

  lemma TrimKeeps(t: string)
    requires t != [] && !JsText.IsSpace(t[0]) && !JsText.IsSpace(t[|t| - 1])
    ensures JsText.Trim(t) == t
  {
  }

  /** Scanning the spelling of an integer reads back exactly that integer. */
  lemma ScanIntToString(n: int)
    ensures ScanDecimal(IntToString(n)) == Scan(Decimal(n, 0), |IntToString(n)|, |NatToDigits(if n < 0 then -n else n)|)
  {
    var t := IntToString(n);
    var a := if n < 0 then -n else n;
    var ds := NatToDigits(a);
    var sign := if n < 0 then "-" else "";
    assert t == sign + ds;
    assert SignLength(t) == |sign|;
    assert t[|sign|..] == ds + [];
    LeadingDigitsOf(ds, []);
    assert ds[..|ds|] == ds;
    NatToDigitsValue(a);
  }

  /** `parseInt` reads the spelling of an integer at the start of a text
      back as that integer, whatever follows it as long as it is not a
      digit. */
  lemma ParseIntPrefix(n: int, tail: string)
    requires tail == [] || !IsDigit(tail[0])
    ensures ParseInt(IntToString(n) + tail) == Some(n)
  {
    var a := if n < 0 then -n else n;
    var ds := NatToDigits(a);
    var t := IntToString(n) + tail;
    IntTextShape(n, tail);
    LeadingDigitsOf(ds, tail);
    assert (ds + tail)[..|ds|] == ds;
    ParseIntUnfold(t, if n < 0 then 1 else 0, ds + tail, |ds|);
    NatToDigitsValue(a);
    SignedMagnitude(n, a, SignOf(t));
  }

  /** The spelling of an integer followed by any text: no leading white
      space, a sign exactly for negatives, then the digits. */
  lemma IntTextShape(n: int, tail: string)
    ensures var t := IntToString(n) + tail;
      var sl := if n < 0 then 1 else 0;
      && JsText.TrimStart(t) == t
      && SignLength(t) == sl && SignOf(t) == (if n < 0 then -1 else 1)
      && t[sl..] == NatToDigits(if n < 0 then -n else n) + tail
  {
    var ds := NatToDigits(if n < 0 then -n else n);
    var sign := if n < 0 then "-" else "";
    var t := IntToString(n) + tail;
    assert t == sign + (ds + tail);
    IntToStringStart(n);
    assert t[0] == IntToString(n)[0];
    TrimStartKeeps(t);
    assert t[|sign|..] == ds + tail;
  }

  lemma SignedMagnitude(n: int, a: int, sign: int)
    requires a == (if n < 0 then -n else n) && sign == (if n < 0 then -1 else 1)
    ensures sign * a == n
  {
  }

  /** `parseInt` on a text without leading white space, once its digit run
      is known. */
  lemma ParseIntUnfold(t: string, sl: nat, rest: string, k: nat)
    requires JsText.TrimStart(t) == t && sl == SignLength(t) && rest == t[sl..]
    requires k == LeadingDigits(rest) && k > 0
    ensures AllDigits(rest[..k]) && ParseInt(t) == Some(SignOf(t) * DigitsValue(rest[..k]))
  {
  }

  /** `parseInt(String(n)) == n`. */
  lemma ParseIntOfIntToString(n: int)
    ensures ParseInt(IntToString(n)) == Some(n)
  {
    ParseIntPrefix(n, []);
    assert IntToString(n) + [] == IntToString(n);
  }

  /** Leading white space does not matter to `parseInt`. */
  lemma ParseIntIgnoresLeadingSpace(s: string)
    ensures ParseInt(JsText.TrimStart(s)) == ParseInt(s)
  {
    var u := JsText.TrimStart(s);
    JsText.TrimStartIdempotent(s);
    assert JsText.TrimStart(u) == u;
  }

  /** Leading white space does not matter to `parseFloat`. */
  lemma ParseFloatIgnoresLeadingSpace(s: string)
    ensures ParseFloat(JsText.TrimStart(s)) == ParseFloat(s)
  {
    var u := JsText.TrimStart(s);
    JsText.TrimStartIdempotent(s);
    assert JsText.TrimStart(u) == u;
  }

  /** Surrounding white space does not matter to `Number`. */
  lemma ToNumberIgnoresSpace(s: string)
    ensures ToNumber(JsText.Trim(s)) == ToNumber(s)
  {
    JsText.TrimIdempotent(s);
  }

  /** `Number(String(n)) == n`. */
  lemma ToNumberOfIntToString(n: int)
    ensures ToNumber(IntToString(n)) == Some(Decimal(n, 0))
  {
    var t := IntToString(n);
    TrimKeeps(t);
    ScanIntToString(n);
  }

  /** Scanning `[-]I.F` reads the integer digits `I` and the fraction digits `F`. */
  lemma ScanPointed(t: string, sign: string, I: string, F: string)
    requires sign == "" || sign == "-"
    requires AllDigits(I) && AllDigits(F) && |F| >= 1
    requires t == sign + (I + ("." + F))
    ensures ScanDecimal(t).value.units == SignOf(t) * (DigitsValue(I) * Pow10(|F|) + DigitsValue(F))
    ensures ScanDecimal(t).value.scale == |F|
    ensures ScanDecimal(t).consumed == |t|
    ensures ScanDecimal(t).digits == |I| + |F|
    ensures SignOf(t) == if sign == "" then 1 else -1
  {
    var body := I + ("." + F);
    SignSplit(t, sign, body);
    PointedBodyScan(SignOf(t), |sign|, I, F);
    assert ScanDecimal(t) == PointedScanOf(SignOf(t), |sign|, I, F);
  }

  /** The scan after the sign of a body `I.F`. */
  lemma PointedBodyScan(sign: int, sl: nat, I: string, F: string)
    requires AllDigits(I) && AllDigits(F)
    ensures ScanDigits(sign, sl, I + ("." + F)) == PointedScanOf(sign, sl, I, F)
  {
    var body := I + ("." + F);
    PointedBody(body, I, F);
    PointedUnfold(sign, sl, body, |I|, |F|);
  }

  /** A text made of an optional minus and a body that starts with no sign. */
  lemma SignSplit(t: string, sign: string, body: string)
    requires sign == "" || sign == "-"
    requires body != [] && body[0] != '-' && body[0] != '+'
    requires t == sign + body
    ensures SignLength(t) == |sign| && t[|sign|..] == body
    ensures SignOf(t) == if sign == "" then 1 else -1
  {
    assert t[|sign|..] == body;
  }

  lemma PointedBody(body: string, I: string, F: string)
    requires AllDigits(I) && AllDigits(F)
    requires body == I + ("." + F)
    ensures LeadingDigits(body) == |I| && |I| < |body| && body[|I|] == '.'
    ensures body[..|I|] == I && body[|I| + 1..] == F
    ensures LeadingDigits(F) == |F| && F[..|F|] == F
  {
    LeadingDigitsOf(I, "." + F);
    assert F + [] == F;
    LeadingDigitsOf(F, []);
  }

  /** The spelling `ShowDecimal` gives a number with a fraction. */
  function PointedText(neg: bool, q: nat, r: nat, k: nat): (t: string)
    requires k >= 1 && r < Pow10(k)
    ensures t != [] && !JsText.IsSpace(t[0]) && !JsText.IsSpace(t[|t| - 1])
  {
    NatToDigitsLength(r, k);
    var F := PadLeft(NatToDigits(r), k);
    var t := (if neg then "-" else "") + (NatToDigits(q) + ("." + F));
    assert t[|t| - 1] == F[k - 1];
    t
  }

  /** The zero-padded fraction digits of `r` spell `r` in exactly `k` digits. */
  lemma PaddedDigits(r: nat, k: nat)
    requires k >= 1 && r < Pow10(k)
    ensures |PadLeft(NatToDigits(r), k)| == k
    ensures DigitsValue(PadLeft(NatToDigits(r), k)) == r
  {
    NatToDigitsLength(r, k);
    NatToDigitsValue(r);
    if |NatToDigits(r)| < k {
      LeadingZerosValue(k - |NatToDigits(r)|, NatToDigits(r));
    }
  }

  lemma ScanFraction(neg: bool, q: nat, r: nat, k: nat)
    requires k >= 1 && r < Pow10(k)
    ensures ScanDecimal(PointedText(neg, q, r, k))
         == Scan(Decimal((if neg then -1 else 1) * (q * Pow10(k) + r), k),
                 |PointedText(neg, q, r, k)|, |NatToDigits(q)| + k)
  {
    var I := NatToDigits(q);
    var F := PadLeft(NatToDigits(r), k);
    PaddedDigits(r, k);
    NatToDigitsValue(q);
    var sign := if neg then "-" else "";
    var t := sign + (I + ("." + F));
    PointedTextShape(neg, q, r, k);
    ScanPointed(t, sign, I, F);
    var sc := ScanDecimal(t);
    var sgn := if neg then -1 else 1;
    SignedDigits(SignOf(t), sgn, DigitsValue(I), DigitsValue(F), Pow10(|F|), q, r);
    assert sc.value == Decimal(sgn * (q * Pow10(k) + r), k);
  }

  lemma SignedDigits(s: int, s': int, a: int, b: int, p: int, q: int, r: int)
    requires s == s' && a == q && b == r
    ensures s * (a * p + b) == s' * (q * p + r)
  {
  }

  lemma PointedTextShape(neg: bool, q: nat, r: nat, k: nat)
    requires k >= 1 && r < Pow10(k)
    ensures PointedText(neg, q, r, k)
         == (if neg then "-" else "") + (NatToDigits(q) + ("." + PadLeft(NatToDigits(r), k)))
  {
  }

  /** A text without outer blanks that scans in full reads back as its scan. */
  lemma ReadBack(t: string, n: Decimal)
    requires t != [] && !JsText.IsSpace(t[0]) && !JsText.IsSpace(t[|t| - 1])
    requires ScanDecimal(t).value == n && ScanDecimal(t).consumed == |t| && ScanDecimal(t).digits > 0
    ensures ParseFloat(t) == Some(n) && ToNumber(t) == Some(n)
  {
    TrimKeeps(t);
    TrimStartKeeps(t);
  }

  /** The spelling of an integer neither starts nor ends with white space. */
  lemma IntToStringEnds(n: int)
    ensures !JsText.IsSpace(IntToString(n)[0]) && !JsText.IsSpace(IntToString(n)[|IntToString(n)| - 1])
  {
    var ds := NatToDigits(if n < 0 then -n else n);
    assert IsDigit(ds[0]) && IsDigit(ds[|ds| - 1]);
  }

  /** A whole number reads back from its spelling. */
  lemma WholeRoundTrip(n: Decimal)
    requires n.scale == 0
    ensures ParseFloat(IntToString(n.units)) == Some(n)
    ensures ToNumber(IntToString(n.units)) == Some(n)
  {
    var t := IntToString(n.units);
    ScanIntToString(n.units);
    IntToStringEnds(n.units);
    ReadBack(t, n);
  }

  /** The signed value of a split magnitude is the number it came from. */
  lemma SignedSplit(u: int, a: nat, p: nat, q: nat, r: nat)
    requires a == if u < 0 then -u else u
    requires q * p + r == a
    ensures (if u < 0 then -1 else 1) * (q * p + r) == u
  {
  }

  /** A number with a fraction scans back from its pointed spelling, given
      its magnitude split as `q * 10^scale + r`. */
  lemma PointedScan(n: Decimal, q: nat, r: nat)
    requires n.scale >= 1 && r < Pow10(n.scale)
    requires q * Pow10(n.scale) + r == if n.units < 0 then -n.units else n.units
    ensures var t := PointedText(n.units < 0, q, r, n.scale);
      ScanDecimal(t).value == n && ScanDecimal(t).consumed == |t| && ScanDecimal(t).digits > 0
  {
    var k := n.scale;
    var p := Pow10(k);
    var a := q * p + r;
    var sgn := if n.units < 0 then -1 else 1;
    SignedSplit(n.units, a, p, q, r);
    assert sgn * a == n.units;
    ScanFraction(n.units < 0, q, r, k);
    var sc := ScanDecimal(PointedText(n.units < 0, q, r, k));
    assert sc.value == Decimal(sgn * a, k);
  }

  /** A number with a fraction reads back from its pointed spelling. */
  lemma PointedRoundTrip(n: Decimal, q: nat, r: nat)
    requires n.scale >= 1 && r < Pow10(n.scale)
    requires q * Pow10(n.scale) + r == if n.units < 0 then -n.units else n.units
    ensures ParseFloat(PointedText(n.units < 0, q, r, n.scale)) == Some(n)
    ensures ToNumber(PointedText(n.units < 0, q, r, n.scale)) == Some(n)
  {
    PointedScan(n, q, r);
    ReadBack(PointedText(n.units < 0, q, r, n.scale), n);
  }

  /** The spelling of a number scans in full back to the number, and it
      neither starts nor ends with white space. */
  lemma ShowScan(d: Decimal)
    ensures var t := ShowDecimal(d);
      && ScanDecimal(t).value == Normalize(d) && ScanDecimal(t).consumed == |t| && ScanDecimal(t).digits > 0
      && !JsText.IsSpace(t[0]) && !JsText.IsSpace(t[|t| - 1])
  {
    if Normalize(d).scale == 0 {
      ShowWholeScan(d);
    } else {
      ShowPointedScan(d);
    }
  }

  lemma ShowWholeScan(d: Decimal)
    requires Normalize(d).scale == 0
    ensures var t := ShowDecimal(d);
      && ScanDecimal(t).value == Normalize(d) && ScanDecimal(t).consumed == |t| && ScanDecimal(t).digits > 0
      && !JsText.IsSpace(t[0]) && !JsText.IsSpace(t[|t| - 1])
  {
    var n := Normalize(d);
    assert ShowDecimal(d) == IntToString(n.units);
    ScanIntToString(n.units);
    IntToStringEnds(n.units);
  }

  lemma ShowPointedScan(d: Decimal)
    requires Normalize(d).scale > 0
    ensures var t := ShowDecimal(d);
      && ScanDecimal(t).value == Normalize(d) && ScanDecimal(t).consumed == |t| && ScanDecimal(t).digits > 0
      && !JsText.IsSpace(t[0]) && !JsText.IsSpace(t[|t| - 1])
  {
    var n := Normalize(d);
    var a: nat := if n.units < 0 then -n.units else n.units;
    var p := Pow10(n.scale);
    DivMod(a, p);
    var q, r := a / p, a % p;
    assert ShowDecimal(d) == ShowPointed(n);
    ShowPointedText(n, a, p, q, r);
    PointedScan(n, q, r);
  }

  lemma ShowPointedText(n: Decimal, a: nat, p: nat, q: nat, r: nat)
    requires n.scale > 0
    requires a == (if n.units < 0 then -n.units else n.units) && p == Pow10(n.scale)
    requires q == a / p && r == a % p && r < p
    ensures ShowPointed(n) == PointedText(n.units < 0, q, r, n.scale)
  {
  }

  lemma ParseFloatOfShow(d: Decimal)
    ensures ParseFloat(ShowDecimal(d)) == Some(Normalize(d))
    ensures ToNumber(ShowDecimal(d)) == Some(Normalize(d))
  {
    ShowScan(d);
    ReadBack(ShowDecimal(d), Normalize(d));
  }

  /** A scan that consumed its whole text reads the same when the text goes
      on with something that cannot continue a numeral. */
  lemma ScanExtend(t: string, tail: string)
    requires ScanDecimal(t).consumed == |t| && ScanDecimal(t).digits > 0
    requires tail == [] || (!IsDigit(tail[0]) && tail[0] != '.')
    ensures ScanDecimal(t + tail) == ScanDecimal(t)
  {
    var u := t + tail;
    var sl := SignLength(t);
    assert u[0] == t[0];
    assert SignLength(u) == sl && SignOf(u) == SignOf(t);
    assert u[sl..] == t[sl..] + tail;
    DigitsExtend(SignOf(t), sl, t[sl..], tail);
  }

  /** `ScanExtend` after the sign. */
  lemma DigitsExtend(sign: int, sl: nat, rest: string, tail: string)
    requires ScanDigits(sign, sl, rest).consumed == sl + |rest|
    requires tail == [] || (!IsDigit(tail[0]) && tail[0] != '.')
    ensures ScanDigits(sign, sl, rest + tail) == ScanDigits(sign, sl, rest)
  {
    var ki := LeadingDigits(rest);
    if ki < |rest| && rest[ki] == '.' {
      PointedDigitsExtend(sign, sl, rest, tail, ki);
    } else {
      WholeRestExtend(rest, tail);
    }
  }

  lemma PointedDigitsExtend(sign: int, sl: nat, rest: string, tail: string, ki: nat)
    requires ki == LeadingDigits(rest) && ki < |rest| && rest[ki] == '.'
    requires LeadingDigits(rest[ki + 1..]) == |rest| - ki - 1
    requires tail == [] || !IsDigit(tail[0])
    ensures ScanDigits(sign, sl, rest + tail) == ScanDigits(sign, sl, rest)
  {
    var kf := |rest| - ki - 1;
    var rest' := rest + tail;
    PointExtend(rest, tail, ki);
    FractionExtend(rest, tail, ki);
    PointedUnfold(sign, sl, rest', ki, kf);
    PointedUnfold(sign, sl, rest, ki, kf);
  }

  /** The pointed branch of `ScanDigits`, once the digit runs are known. */
  lemma PointedUnfold(sign: int, sl: nat, rest: string, ki: nat, kf: nat)
    requires ki == LeadingDigits(rest) && ki < |rest| && rest[ki] == '.'
    requires kf == LeadingDigits(rest[ki + 1..])
    ensures AllDigits(rest[..ki]) && AllDigits(rest[ki + 1..][..kf])
    ensures ScanDigits(sign, sl, rest) == PointedScanOf(sign, sl, rest[..ki], rest[ki + 1..][..kf])
  {
  }

  /** Digits alone, continued by a tail that is no digit and no point. */
  lemma WholeRestExtend(rest: string, tail: string)
    requires LeadingDigits(rest) == |rest|
    requires tail == [] || (!IsDigit(tail[0]) && tail[0] != '.')
    ensures LeadingDigits(rest + tail) == |rest|
    ensures |rest| == |rest + tail| || (rest + tail)[|rest|] != '.'
    ensures (rest + tail)[..|rest|] == rest[..|rest|]
  {
    assert rest[..|rest|] == rest;
    LeadingDigitsOf(rest, tail);
  }

  /** The integer digits before a point are found again whatever follows. */
  lemma PointExtend(rest: string, tail: string, ki: nat)
    requires ki == LeadingDigits(rest) && ki < |rest| && rest[ki] == '.'
    ensures LeadingDigits(rest + tail) == ki && (rest + tail)[ki] == '.'
    ensures (rest + tail)[..ki] == rest[..ki]
  {
    var a := rest[..ki];
    var b := rest[ki..] + tail;
    assert a + b == rest + tail;
    LeadingDigitsOf(a, b);
  }

  /** Fraction digits that run to the end are found again when the text
      goes on with something that is no digit. */
  lemma FractionExtend(rest: string, tail: string, ki: nat)
    requires ki < |rest|
    requires LeadingDigits(rest[ki + 1..]) == |rest| - ki - 1
    requires tail == [] || !IsDigit(tail[0])
    ensures LeadingDigits((rest + tail)[ki + 1..]) == |rest| - ki - 1
    ensures (rest + tail)[ki + 1..][..|rest| - ki - 1] == rest[ki + 1..][..|rest| - ki - 1]
  {
    var frac := rest[ki + 1..];
    assert frac[..|frac|] == frac;
    assert (rest + tail)[ki + 1..] == frac + tail;
    LeadingDigitsOf(frac, tail);
    assert (frac + tail)[..|frac|] == frac;
  }

  /** `parseFloat` reads the spelling of a number at the start of a text
      back as that number, whatever follows it as long as it is neither a
      digit nor a point. */
  lemma ParseFloatPrefix(d: Decimal, tail: string)
    requires tail == [] || (!IsDigit(tail[0]) && tail[0] != '.')
    ensures ParseFloat(ShowDecimal(d) + tail) == Some(Normalize(d))
  {
    var t := ShowDecimal(d);
    ShowScan(d);
    ScanExtend(t, tail);
    assert (t + tail)[0] == t[0];
    TrimStartKeeps(t + tail);
  }

  /** `Number` accepts a text that is not blank only when the trimmed text
      is one whole numeral, and then `parseFloat` reads the same number. */
  lemma ToNumberWhole(s: string)
    requires ToNumber(s).Some? && !JsText.IsBlank(s)
    ensures ScanDecimal(JsText.Trim(s)).consumed == |JsText.Trim(s)|
    ensures ParseFloat(s) == ToNumber(s)
  {
    var u := JsText.TrimStart(s);
    var t := JsText.Trim(s);
    var tail := TrailingBlank(s);
    ToNumberScan(s, t);
    ScanExtend(t, tail);
    ParseFloatScan(s, u, ScanDecimal(u));
  }

  /** What `Number` of a text that is not blank read: a full scan of the
      trimmed text. */
  lemma ToNumberScan(s: string, t: string)
    requires ToNumber(s).Some? && t == JsText.Trim(s) && t != ""
    ensures ScanDecimal(t).consumed == |t| && ScanDecimal(t).digits > 0
    ensures ToNumber(s) == Some(ScanDecimal(t).value)
  {
  }

  /** What `parseFloat` read, given the scan of the text without its
      leading blank. */
  lemma ParseFloatScan(s: string, u: string, sc: Scan)
    requires u == JsText.TrimStart(s) && sc == ScanDecimal(u) && sc.digits > 0
    ensures ParseFloat(s) == Some(sc.value)
  {
  }

  /** The blank that trimming the end cuts off: the trimmed text followed
      by it is the text without its leading blank. */
  function TrailingBlank(s: string): (tail: string)
    ensures JsText.TrimStart(s) == JsText.Trim(s) + tail
    ensures tail == [] || (!IsDigit(tail[0]) && tail[0] != '.')
  {
    var u := JsText.TrimStart(s);
    var t := JsText.Trim(s);
    JsText.TrimEndCutsSpace(u);
    assert u == t + u[|t|..];
    assert u[|t|..] == [] || JsText.IsSpace(u[|t|..][0]);
    u[|t|..]
  }
}
