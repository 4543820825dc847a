/** The serializer's number text: from what Python prints of a float to what ECMAScript prints of it. */
module FloatText {
  import opened Options
  import opened Numerals
  import Text

  /** A float: its shortest decimal digits and the place of the point, 0.digits * 10^point. */
  datatype Float = NotFinite | Zero | Finite(negative: bool, digits: string, point: int)

  predicate IsDigit(c: char) { '0' <= c <= '9' }

  /** Shortest digits: at least one, none of them idle, and never more than the 17 a double needs. */
  predicate Shortest(d: string) {
    && 1 <= |d| <= 17 && d[0] != '0' && d[|d| - 1] != '0'
    && forall i :: 0 <= i < |d| ==> IsDigit(d[i])
  }

  predicate Proper(f: Float) { f.Finite? ==> Shortest(f.digits) }

  /** A Python float, and, when finite, a number in normal form. */
  type Double = f: Float | Proper(f) witness Zero

  function Zeros(k: nat): string { seq(k, _ => '0') }

  function Abs(e: int): nat { if e < 0 then -e else e }

  function Sign(e: int): string { if e < 0 then "-" else "+" }

  // ---------------------------------------------------------------- two ways to print a float

  /** Python's exponent has at least two digits. */
  function PythonExponent(e: int): string {
    "e" + Sign(e) + (if Abs(e) < 10 then "0" else "") + Decimal(Abs(e))
  }

  function Mantissa(d: string): string
    requires d != ""
  {
    if |d| == 1 then d else d[..1] + "." + d[1..]
  }

  /** The digits before the point and after it, at least one each. */
  function Whole(d: string, n: int): string {
    if n <= 0 then "0" else if |d| <= n then d + Zeros(n - |d|) else d[..n]
  }

  function Fraction(d: string, n: int): string {
    if n <= 0 then Zeros(-n) + d else if |d| <= n then "0" else d[n..]
  }

  /** `str(f)` of a positive float. */
  function PythonText(d: string, n: int): string
    requires d != ""
  {
    if -4 < n <= 16 then Whole(d, n) + ("." + Fraction(d, n)) else Mantissa(d) + PythonExponent(n - 1)
  }

  function ScriptExponent(e: int): string { "e" + Sign(e) + Decimal(Abs(e)) }

  /** Number::toString of ECMA-262, for a positive number. */
  function ScriptText(d: string, n: int): string
    requires d != ""
  {
    if |d| <= n <= 21 then d + Zeros(n - |d|)
    else if 0 < n <= 21 then d[..n] + ("." + d[n..])
    else if -6 < n <= 0 then "0" + ("." + (Zeros(-n) + d))
    else Mantissa(d) + ScriptExponent(n - 1)
  }

  // ---------------------------------------------------------------- reading an exponent

  function DigitValue(c: char): nat
    requires IsDigit(c)
  {
    c as nat - '0' as nat
  }

  function ReadDecimal(t: string): nat
    requires forall i :: 0 <= i < |t| ==> IsDigit(t[i])
  {
    if t == "" then 0 else 10 * ReadDecimal(t[..|t| - 1]) + DigitValue(t[|t| - 1])
  }

  /** `int(t)` of a signed decimal. */
  function ReadInt(t: string): int
    requires t != "" && forall i :: 1 <= i < |t| ==> IsDigit(t[i])
  {
    var magnitude: int := ReadDecimal(t[1..]);
    if t[0] == '-' then -magnitude else magnitude
  }

  lemma DigitsCount(k: nat)
    requires k < 10
    ensures IsDigit(Digit(k)) && DigitValue(Digit(k)) == k
  {
  }

  lemma {:induction false} ReadsBack(n: nat)
    ensures ReadDecimal(Decimal(n)) == n
  {
    DigitsCount(n % 10);
    if n < 10 {
      assert Decimal(n)[..0] == "";
    } else {
      ReadsBack(n / 10);
      assert Decimal(n)[..|Decimal(n)| - 1] == Decimal(n / 10);
    }
  }

  lemma {:induction false} NoLeadingZero(n: nat)
    requires n > 0
    ensures Decimal(n)[0] != '0'
  {
    DigitsCount(n % 10);
    if n >= 10 {
      NoLeadingZero(n / 10);
    }
  }

  // ---------------------------------------------------------------- the code

  /** Cutting the exponent off. `mantissa` and `e` say what the text was made of; `e` is absent when there is none. */
  method CutExponent(text: string, ghost mantissa: string, ghost has: bool, ghost e: int)
    returns (rest: string, exponent: string, value: int)
    requires mantissa != "" && 'e' !in mantissa && (has ==> e != 0)
    requires text == mantissa + if has then PythonExponent(e) else ""
    ensures rest == mantissa
    ensures exponent == if has then ScriptExponent(e) else ""
    ensures value == if has then e else 0
  {
    rest, exponent, value := text, "", 0;
    var q := Text.IndexOf(text, 'e');
    if has { ExponentFound(mantissa, e); }
    if q == |text| {
      return;
    }
    exponent := text[q..];
    if exponent[2..3] == "0" {
      exponent := exponent[..2] + exponent[3..];
    }
    rest := text[..q];
    ExponentTrimmed(e);
    ExponentRead(e);
    value := ReadInt(exponent[1..]);
  }

  lemma ExponentFound(mantissa: string, e: int)
    requires 'e' !in mantissa
    ensures var text := mantissa + PythonExponent(e);
            && Text.IndexOf(text, 'e') == |mantissa|
            && text[..|mantissa|] == mantissa && text[|mantissa|..] == PythonExponent(e)
            && |PythonExponent(e)| >= 3
  {
    var tail := PythonExponent(e)[1..];
    assert mantissa + PythonExponent(e) == mantissa + ['e'] + tail;
    Text.IndexOfPrefix(mantissa, tail, 'e');
  }

  lemma ExponentTrimmed(e: int)
    requires e != 0
    ensures var t := PythonExponent(e);
            ScriptExponent(e) == if t[2..3] == "0" then t[..2] + t[3..] else t
  {
    var t := PythonExponent(e);
    NoLeadingZero(Abs(e));
    assert t[..2] == "e" + Sign(e);
    assert t[2..3] == [t[2]];
    if Abs(e) < 10 {
      assert t[3..] == Decimal(Abs(e));
    } else {
      assert t[2] == Decimal(Abs(e))[0];
    }
  }

  lemma ExponentRead(e: int)
    ensures var t := ScriptExponent(e)[1..];
            && t != "" && (forall i :: 1 <= i < |t| ==> IsDigit(t[i])) && ReadInt(t) == e
  {
    var t := ScriptExponent(e)[1..];
    assert t == Sign(e) + Decimal(Abs(e));
    assert t[1..] == Decimal(Abs(e));
    ReadsBack(Abs(e));
  }

  /** Cutting at the point, and dropping a fraction of nothing. */
  method CutPoint(text: string, ghost whole: string, ghost pointed: bool, ghost fraction: string)
    returns (first: string, dot: string, last: string)
    requires whole != "" && '.' !in whole && text == whole + if pointed then "." + fraction else ""
    ensures first == whole
    ensures if pointed && fraction != "0" then dot == "." && last == fraction else dot == "" && last == ""
  {
    first, dot, last := text, "", "";
    var q := Text.IndexOf(text, '.');
    if pointed {
      assert text == whole + ['.'] + fraction;
      Text.IndexOfPrefix(whole, fraction, '.');
    }
    if q < |text| {
      dot := ".";
      first := text[..q];
      last := text[q + 1..];
    }
    if last == "0" {
      dot, last := "", "";
    }
  }

  /** Where an exponent puts the digits. */
  function Placed(first: string, dot: string, last: string, exponent: string, value: int): string {
    var all := first + last;
    if 0 < value < 21 then all + Zeros(if value >= |all| then value - |all| + 1 else 0)
    else if -7 < value < 0 then "0" + ("." + (Zeros(-value - 1) + all))
    else first + dot + last + exponent
  }

  method AppendZeros(digits: string, value: int) returns (first: string)
    ensures first == digits + Zeros(if value >= |digits| then value - |digits| + 1 else 0)
  {
    first := digits;
    var q := value - |digits|;
    ghost var k := 0;
    while q >= 0
      invariant k + q == value - |digits| && first == digits + Zeros(k)
      invariant k > 0 ==> q >= -1
    {
      q := q - 1;
      first := first + "0";
      k := k + 1;
      assert Zeros(k) == Zeros(k - 1) + "0";
    }
  }

  method PrependZeros(digits: string, value: int) returns (last: string)
    requires value < 0
    ensures last == Zeros(-value - 1) + digits
  {
    last := digits;
    var q := value;
    ghost var k := 0;
    while q < -1
      invariant q <= -1 && k == q - value && last == Zeros(k) + digits
    {
      q := q + 1;
      last := "0" + last;
      k := k + 1;
      assert Zeros(k) == "0" + Zeros(k - 1);
    }
  }

  /** Moving the digits there. */
  method Place(first: string, dot: string, last: string, exponent: string, value: int) returns (text: string)
    ensures text == Placed(first, dot, last, exponent, value)
  {
    if 0 < value < 21 {
      text := AppendZeros(first + last, value);
    } else if -7 < value < 0 {
      var fraction := PrependZeros(first + last, value);
      text := "0" + ("." + fraction);
    } else {
      text := first + dot + last + exponent;
    }
  }

  lemma DigitsPlain(d: string, c: char)
    requires (forall i :: 0 <= i < |d| ==> IsDigit(d[i])) && !IsDigit(c)
    ensures c !in d
  {
  }

  lemma NotJustZero(prefix: string, d: string)
    requires d != "" && d[|d| - 1] != '0'
    ensures prefix + d != "0"
  {
    assert (prefix + d)[|prefix + d| - 1] == d[|d| - 1];
  }

  /** `_serialize_float` of a positive number given what Python prints of it: the text is ECMAScript's. */
  method SerializePositive(d: string, n: int) returns (text: string)
    requires Shortest(d)
    ensures text == ScriptText(d, n)
  {
    var printed := PythonText(d, n);
    DigitsPlain(d, '.');
    DigitsPlain(d, 'e');
    if -4 < n <= 16 {
      text := FromPointed(printed, Whole(d, n), Fraction(d, n));
      PointedIsScript(d, n);
    } else {
      text := FromScientific(printed, d, n - 1);
      ScientificIsScript(d, n);
    }
  }

  method FromPointed(printed: string, ghost whole: string, ghost fraction: string) returns (text: string)
    requires printed == whole + ("." + fraction) && whole != "" && '.' !in whole && 'e' !in whole && 'e' !in fraction
    ensures text == if fraction == "0" then whole else whole + ("." + fraction)
  {
    assert printed == printed + "";
    var rest, exponent, value := CutExponent(printed, printed, false, 0);
    var first, dot, last := CutPoint(rest, whole, true, fraction);
    text := Place(first, dot, last, exponent, value);
  }

  lemma PointedIsScript(d: string, n: int)
    requires Shortest(d) && -4 < n <= 16
    ensures ScriptText(d, n) == if Fraction(d, n) == "0" then Whole(d, n) else Whole(d, n) + ("." + Fraction(d, n))
  {
    if n <= 0 {
      NotJustZero(Zeros(-n), d);
    } else if n < |d| {
      NotJustZero("", d[n..]);
      assert "" + d[n..] == d[n..];
    }
  }

  lemma MantissaParts(d: string)
    requires d != "" && d[|d| - 1] != '0' && '.' !in d && 'e' !in d
    ensures Mantissa(d) == d[..1] + (if |d| > 1 then "." + d[1..] else "")
    ensures Mantissa(d) != "" && 'e' !in Mantissa(d) && '.' !in d[..1] && d[1..] != "0" && (|d| == 1 ==> d[1..] == "")
  {
    if |d| > 1 {
      NotJustZero("", d[1..]);
      assert "" + d[1..] == d[1..];
    }
  }

  method CutScientific(printed: string, ghost d: string, ghost e: int)
    returns (first: string, dot: string, last: string, exponent: string, value: int)
    requires d != "" && d[|d| - 1] != '0' && '.' !in d && 'e' !in d && e != 0
    requires printed == Mantissa(d) + PythonExponent(e)
    ensures first == d[..1] && dot == (if |d| > 1 then "." else "") && last == d[1..]
    ensures exponent == ScriptExponent(e) && value == e
  {
    MantissaParts(d);
    var rest;
    rest, exponent, value := CutExponent(printed, Mantissa(d), true, e);
    first, dot, last := CutPoint(rest, d[..1], |d| > 1, d[1..]);
  }

  method FromScientific(printed: string, ghost d: string, ghost e: int) returns (text: string)
    requires d != "" && d[|d| - 1] != '0' && '.' !in d && 'e' !in d && e != 0
    requires printed == Mantissa(d) + PythonExponent(e)
    ensures text == Placed(d[..1], if |d| > 1 then "." else "", d[1..], ScriptExponent(e), e)
  {
    var first, dot, last, exponent, value := CutScientific(printed, d, e);
    text := Place(first, dot, last, exponent, value);
  }

  lemma ScientificIsScript(d: string, n: int)
    requires Shortest(d) && !(-4 < n <= 16)
    ensures Placed(d[..1], if |d| > 1 then "." else "", d[1..], ScriptExponent(n - 1), n - 1) == ScriptText(d, n)
  {
    assert d[..1] + d[1..] == d;
    if |d| == 1 {
      assert d[1..] == "" && d[..1] + "" + "" == d;
    } else {
      assert Mantissa(d) == d[..1] + "." + d[1..];
    }
  }

  datatype Serialized = Text(text: string) | FloatDomainError

  function SerializedText(f: Float): Serialized
    requires Proper(f)
  {
    match f
    case NotFinite => FloatDomainError
    case Zero => Text("0")
    case Finite(negative, d, n) => Text((if negative then "-" else "") + ScriptText(d, n))
  }

  /** `_serialize_float`. */
  method SerializeFloat(f: Float) returns (r: Serialized)
    requires Proper(f)
    ensures r == SerializedText(f)
  {
    match f
    case NotFinite => r := FloatDomainError;
    case Zero => r := Text("0");
    case Finite(negative, d, n) =>
      var text := SerializePositive(d, n);
      r := Text(if negative then "-" + text else text);
      assert "" + text == text;
  }

  // ---------------------------------------------------------------- texts tell floats apart

  datatype Form = Plain | Pointed | Small | Scientific

  function FormOf(d: string, n: int): Form {
    if |d| <= n <= 21 then Plain else if 0 < n <= 21 then Pointed else if -6 < n <= 0 then Small else Scientific
  }

  lemma FormShows(d: string, n: int)
    requires Shortest(d)
    ensures var t := ScriptText(d, n);
            && t != "" && t[0] != '-'
            && ('e' in t <==> FormOf(d, n).Scientific?)
            && (t[0] == '0' <==> FormOf(d, n).Small?)
            && (FormOf(d, n).Plain? ==> '.' !in t)
            && (FormOf(d, n).Pointed? ==> '.' in t)
  {
    DigitsPlain(d, 'e');
    DigitsPlain(d, '.');
    if FormOf(d, n).Scientific? {
      assert ScriptText(d, n)[|Mantissa(d)|] == 'e';
      assert Mantissa(d)[0] == d[0];
    } else if FormOf(d, n).Pointed? {
      assert ScriptText(d, n)[n] == '.' && ScriptText(d, n)[0] == d[0];
    }
  }

  lemma SameSign(p: bool, t: string, q: bool, u: string)
    requires t != "" && u != "" && t[0] != '-' && u[0] != '-'
    requires (if p then "-" else "") + t == (if q then "-" else "") + u
    ensures p == q && t == u
  {
    var a, b := (if p then "-" else "") + t, (if q then "-" else "") + u;
    assert p ==> a[0] == '-' && a[1..] == t;
    assert !p ==> a == t;
    assert q ==> b[0] == '-' && b[1..] == u;
    assert !q ==> b == u;
  }

  lemma NotZeroText(f: Float)
    requires Proper(f) && f.Finite?
    ensures SerializedText(f).text != "0"
  {
    var t := ScriptText(f.digits, f.point);
    FormShows(f.digits, f.point);
    assert f.negative ==> ("-" + t)[0] == '-';
    assert !f.negative ==> "" + t == t;
    if t[0] == '0' { assert |t| >= 2; }
  }

  /** And the text is a number's text, as the serializer of values needs it to be. */
  lemma FloatIsNumber(f: Float)
    requires Proper(f) && !f.NotFinite?
    ensures NumberText(SerializedText(f).text)
  {
    if f.Finite? {
      ScriptTextChars(f.digits, f.point);
      FormShows(f.digits, f.point);
    }
  }

  predicate NumberChars(t: string) { forall i :: 0 <= i < |t| ==> NumberChar(t[i]) }

  lemma BothNumberChars(t: string, u: string)
    requires NumberChars(t) && NumberChars(u)
    ensures NumberChars(t + u)
  {
  }

  lemma ScriptTextChars(d: string, n: int)
    requires Shortest(d)
    ensures NumberChars(ScriptText(d, n)) && ScriptText(d, n) != "" && IsDigit(ScriptText(d, n)[0])
  {
    match FormOf(d, n)
    case Plain => BothNumberChars(d, Zeros(n - |d|));
    case Pointed =>
      BothNumberChars(".", d[n..]);
      BothNumberChars(d[..n], "." + d[n..]);
    case Small =>
      BothNumberChars(Zeros(-n), d);
      BothNumberChars(".", Zeros(-n) + d);
      BothNumberChars("0", "." + (Zeros(-n) + d));
    case Scientific =>
      BothNumberChars("e" + Sign(n - 1), Decimal(Abs(n - 1)));
      BothNumberChars(Mantissa(d), ScriptExponent(n - 1));
      assert ScriptText(d, n)[0] == d[0];
  }

  // ---------------------------------------------------------------- integers and floats

  function Pow10(k: nat): nat { if k == 0 then 1 else 10 * Pow10(k - 1) }

  /** The float is the integer `n`: its digits, moved to their place, are `n`'s magnitude, and the signs agree. */
  predicate SameNumber(f: Float, n: int)
    requires Proper(f)
  {
    match f
    case NotFinite => false
    case Zero => n == 0
    case Finite(negative, d, point) => negative == (n < 0) && SameMagnitude(d, point, Abs(n))
  }

  /** 0.digits * 10^point is `n`. */
  predicate SameMagnitude(d: string, point: int, n: nat)
    requires Shortest(d)
  {
    if point >= |d| then ReadDecimal(d) * Pow10(point - |d|) == n else ReadDecimal(d) == n * Pow10(|d| - point)
  }

  lemma {:induction false} ReadSnoc(t: string, c: char)
    requires (forall i :: 0 <= i < |t| ==> IsDigit(t[i])) && IsDigit(c)
    ensures forall i :: 0 <= i < |t + [c]| ==> IsDigit((t + [c])[i])
    ensures ReadDecimal(t + [c]) == 10 * ReadDecimal(t) + DigitValue(c)
  {
    assert (t + [c])[..|t|] == t;
  }

  lemma DigitsPadded(t: string, k: nat)
    requires forall i :: 0 <= i < |t| ==> IsDigit(t[i])
    ensures forall i :: 0 <= i < |t + Zeros(k)| ==> IsDigit((t + Zeros(k))[i])
    ensures k > 0 ==> t + Zeros(k) == (t + Zeros(k - 1)) + ['0']
  {
  }

  lemma {:induction false} ReadPadded(t: string, k: nat)
    requires forall i :: 0 <= i < |t| ==> IsDigit(t[i])
    ensures forall i :: 0 <= i < |t + Zeros(k)| ==> IsDigit((t + Zeros(k))[i])
    ensures ReadDecimal(t + Zeros(k)) == ReadDecimal(t) * Pow10(k)
  {
    DigitsPadded(t, k);
    if k == 0 {
      assert t + Zeros(0) == t;
    } else {
      var shorter, p := t + Zeros(k - 1), Pow10(k - 1);
      ReadPadded(t, k - 1);
      ReadSnoc(shorter, '0');
      assert DigitValue('0') == 0;
      Regroup(ReadDecimal(t), p);
      assert Pow10(k) == 10 * p;
    }
  }

  lemma Regroup(a: nat, b: nat)
    ensures 10 * (a * b) == a * (10 * b)
  {
  }

  lemma DigitBack(c: char)
    requires IsDigit(c)
    ensures DigitValue(c) < 10 && Digit(DigitValue(c)) == c
  {
  }

  lemma DecimalStep(a: nat, r: nat)
    requires a > 0 && r < 10
    ensures Decimal(10 * a + r) == Decimal(a) + [Digit(r)]
  {
    var n := 10 * a + r;
    assert n / 10 == a && n % 10 == r;
  }

  /** Digits without a leading zero are the decimal text of what they read as. */
  lemma {:induction false} DecimalOfRead(t: string)
    requires t != "" && t[0] != '0' && forall i :: 0 <= i < |t| ==> IsDigit(t[i])
    ensures ReadDecimal(t) > 0 && Decimal(ReadDecimal(t)) == t
  {
    var n := |t| - 1;
    var init, c := t[..n], t[n];
    DigitBack(c);
    assert t == init + [c];
    ReadSnoc(init, c);
    if n == 0 {
      assert ReadDecimal(init) == 0;
    } else {
      DecimalOfRead(init);
      DecimalStep(ReadDecimal(init), DigitValue(c));
    }
  }

  lemma {:induction false} PowGrows(j: nat, k: nat)
    requires j <= k
    ensures 0 < Pow10(j) <= Pow10(k)
    decreases k
  {
    if k > 0 {
      PowGrows(if j == k then j - 1 else j, k - 1);
    }
  }

  lemma PowOrdered(j: nat, k: nat)
    ensures j <= k ==> Pow10(j) <= Pow10(k)
  {
    if j <= k { PowGrows(j, k); }
  }

  /** A decimal text has at most as many digits as the number is long. */
  lemma DecimalLengthBelow(n: nat, k: nat)
    requires 0 < n < Pow10(k)
    ensures |Decimal(n)| <= k
  {
    DecimalAtLeast(n);
    PowOrdered(k, |Decimal(n)| - 1);
  }

  lemma {:induction false} DecimalAtLeast(n: nat)
    requires n > 0
    ensures Pow10(|Decimal(n)| - 1) <= n
  {
    if n >= 10 {
      DecimalAtLeast(n / 10);
      assert |Decimal(n)| == |Decimal(n / 10)| + 1;
      assert Pow10(|Decimal(n)| - 1) == 10 * Pow10(|Decimal(n / 10)| - 1);
    }
  }

  lemma SafeIsShort()
    ensures SAFE < Pow10(16)
  {
    assert Pow10(4) == 10000;
    assert Pow10(8) == 100000000;
    assert Pow10(12) == 1000000000000;
  }

  lemma PlaceNotPast(d: string, point: int, n: nat)
    requires Shortest(d) && point >= |d| && ReadDecimal(d) * Pow10(point - |d|) == n && 0 < n <= SAFE
    ensures point <= 21
    ensures ScriptText(d, point) == Decimal(n)
  {
    var t := d + Zeros(point - |d|);
    ReadPadded(d, point - |d|);
    assert t[0] == d[0];
    DecimalOfRead(t);
    SafeIsShort();
    DecimalLengthBelow(n, 16);
  }

  /** A float with digits behind the point is no integer. */
  lemma NotWhole(d: string, point: int, n: nat)
    requires Shortest(d) && point < |d|
    ensures ReadDecimal(d) != n * Pow10(|d| - point)
  {
    var k := |d| - point;
    var last := d[|d| - 1];
    DigitBack(last);
    assert d == d[..|d| - 1] + [last];
    ReadSnoc(d[..|d| - 1], last);
    assert ReadDecimal(d) % 10 == DigitValue(last) != 0;
    Regroup(n, Pow10(k - 1));
    assert n * Pow10(k) == 10 * (n * Pow10(k - 1));
  }

  /** The text is the decimal of `n` exactly when the float's magnitude is. */
  lemma WholeText(d: string, point: int, n: nat)
    requires Shortest(d) && 0 < n <= SAFE
    ensures ScriptText(d, point) == Decimal(n) <==> SameMagnitude(d, point, n)
  {
    if ScriptText(d, point) == Decimal(n) {
      DigitsPlain(Decimal(n), 'e');
      DigitsPlain(Decimal(n), '.');
      FormShows(d, point);
      NoLeadingZero(n);
      assert FormOf(d, point).Plain?;
      ReadPadded(d, point - |d|);
      ReadsBack(n);
    } else if point >= |d| {
      if SameMagnitude(d, point, n) { PlaceNotPast(d, point, n); }
    } else {
      NotWhole(d, point, n);
    }
  }

  /** An integer and a float have one text exactly when they are the same number, for every integer the serializer
      accepts. With `IntTextInjective` and `FloatsApart`, equal number texts are equal numbers. */
  lemma IntAndFloat(n: int, f: Float)
    requires -SAFE <= n <= SAFE && Proper(f) && !f.NotFinite?
    ensures SerializedText(f).text == IntText(n) <==> SameNumber(f, n)
  {
    if f.Zero? {
      ZeroText(n);
    } else {
      var t := ScriptText(f.digits, f.point);
      FormShows(f.digits, f.point);
      if n == 0 {
        NotZeroText(f);
        ReadPositive(f);
      } else {
        NoLeadingZero(Abs(n));
        SignedTexts(f.negative, t, n);
        WholeText(f.digits, f.point, Abs(n));
      }
    }
  }

  lemma ZeroText(n: int)
    ensures IntText(n) == "0" <==> n == 0
  {
    if IntText(n) == "0" {
      assert IntText(0) == "0";
      IntTextInjective(n, 0);
    }
  }

  lemma ReadPositive(f: Float)
    requires Proper(f) && f.Finite?
    ensures !SameNumber(f, 0)
  {
    DecimalOfRead(f.digits);
    if f.point >= |f.digits| {
      PowGrows(0, f.point - |f.digits|);
      assert ReadDecimal(f.digits) * Pow10(f.point - |f.digits|) > 0;
    }
  }

  lemma SignedTexts(negative: bool, t: string, n: int)
    requires t != "" && t[0] != '-' && n != 0
    ensures (if negative then "-" else "") + t == IntText(n) <==> negative == (n < 0) && t == Decimal(Abs(n))
  {
    var u := Decimal(Abs(n));
    assert IntText(n) == (if n < 0 then "-" else "") + u;
    assert u[0] != '-';
    if (if negative then "-" else "") + t == IntText(n) {
      SameSign(negative, t, n < 0, u);
    }
  }

  // ---------------------------------------------------------------- numbers in normal form

  function Strip(t: string): (d: string)
    requires t != "" && t[0] != '0'
    ensures d != "" && d[0] == t[0] && d[|d| - 1] != '0' && d <= t
  {
    if t[|t| - 1] == '0' then Strip(t[..|t| - 1]) else t
  }

  lemma {:induction false} Stripped(t: string)
    requires t != "" && t[0] != '0'
    ensures Strip(t) + Zeros(|t| - |Strip(t)|) == t
  {
    if t[|t| - 1] == '0' {
      var init := t[..|t| - 1];
      Stripped(init);
      var d := Strip(init);
      assert t == init + "0";
      assert Zeros(|t| - |d|) == Zeros(|init| - |d|) + "0";
    }
  }

  lemma StripIsShortest(n: nat)
    requires 0 < n <= SAFE
    ensures Decimal(n)[0] != '0' && |Decimal(n)| <= 16 && Shortest(Strip(Decimal(n)))
  {
    NoLeadingZero(n);
    SafeIsShort();
    DecimalLengthBelow(n, 16);
    var d := Strip(Decimal(n));
    assert forall i :: 0 <= i < |d| ==> d[i] == Decimal(n)[i];
  }

  /** The number an integer is. */
  function NumberOf(n: int): (f: Double)
    requires -SAFE <= n <= SAFE
    ensures !f.NotFinite?
  {
    if n == 0 then Zero
    else
      StripIsShortest(Abs(n));
      Finite(n < 0, Strip(Decimal(Abs(n))), |Decimal(Abs(n))|)
  }

  lemma MagnitudeText(n: nat)
    requires 0 < n <= SAFE
    ensures Decimal(n)[0] != '0' && Shortest(Strip(Decimal(n)))
    ensures ScriptText(Strip(Decimal(n)), |Decimal(n)|) == Decimal(n)
  {
    StripIsShortest(n);
    Stripped(Decimal(n));
  }

  lemma SignedText(n: int)
    ensures IntText(n) == (if n < 0 then "-" else "") + Decimal(Abs(n))
  {
  }

  lemma NumberOfText(n: int)
    requires -SAFE <= n <= SAFE
    ensures SerializedText(NumberOf(n)).text == IntText(n)
    ensures SameNumber(NumberOf(n), n)
  {
    IntAndFloat(n, NumberOf(n));
    if n == 0 {
      ZeroText(0);
    } else {
      MagnitudeText(Abs(n));
      SignedText(n);
    }
  }

  /** The number read off the digits, at the exponent of the last one. */
  function Places(f: Float): int
    requires f.Finite?
  {
    f.point - |f.digits|
  }

  /** The same value: the same sign, and equal magnitudes once brought to one exponent. */
  predicate SameValue(f: Double, g: Double) {
    match (f, g)
    case (Finite(p, d, _), Finite(q, e, _)) =>
      p == q &&
      if Places(f) >= Places(g) then ReadDecimal(d) * Pow10(Places(f) - Places(g)) == ReadDecimal(e)
      else ReadDecimal(d) == ReadDecimal(e) * Pow10(Places(g) - Places(f))
    case _ => f.Zero? && g.Zero?
  }

  lemma EndsOnDigit(d: string)
    requires Shortest(d)
    ensures ReadDecimal(d) % 10 != 0
  {
    var last := d[|d| - 1];
    DigitBack(last);
    assert d == d[..|d| - 1] + [last];
    ReadSnoc(d[..|d| - 1], last);
  }

  lemma TensDiffer(a: nat, k: nat, b: nat)
    requires k > 0 && b % 10 != 0
    ensures a * Pow10(k) != b
  {
    Regroup(a, Pow10(k - 1));
    assert a * Pow10(k) == 10 * (a * Pow10(k - 1));
  }

  /** Normal forms are numbers: equal exactly when their values are. */
  lemma NormalForm(f: Double, g: Double)
    requires !f.NotFinite? && !g.NotFinite?
    ensures f == g <==> SameValue(f, g)
  {
    if f.Finite? && g.Finite? {
      EndsOnDigit(f.digits);
      EndsOnDigit(g.digits);
      DecimalOfRead(f.digits);
      DecimalOfRead(g.digits);
      if Places(f) > Places(g) {
        TensDiffer(ReadDecimal(f.digits), Places(f) - Places(g), ReadDecimal(g.digits));
      } else if Places(f) < Places(g) {
        TensDiffer(ReadDecimal(g.digits), Places(g) - Places(f), ReadDecimal(f.digits));
      }
    }
  }

  // ---------------------------------------------------------------- reading a number's text

  predicate AllDigits(t: string) { forall i :: 0 <= i < |t| ==> IsDigit(t[i]) }

  function StripLeft(t: string): (d: string)
    ensures |d| <= |t| && (d != "" ==> d[0] != '0')
    ensures AllDigits(t) ==> AllDigits(d)
  {
    if t != "" && t[0] == '0' then StripLeft(t[1..]) else t
  }

  /** The number 0.digits * 10^point in normal form, when a double can hold that many digits. */
  function Normal(negative: bool, digits: string, point: int): (r: Result<Float>)
    ensures AllDigits(digits) && r.Ok? ==> Proper(r.value) && !r.value.NotFinite?
  {
    var d := StripLeft(digits);
    if d == "" then Ok(Zero)
    else
      var shortest := Strip(d);
      if |shortest| > 17 then Error
      else
        assert AllDigits(d) ==> forall i :: 0 <= i < |shortest| ==> shortest[i] == d[i];
        Ok(Finite(negative, shortest, point - (|digits| - |d|)))
  }

  /** The exponent after an `e`; no text stands for none. */
  function ReadExponent(t: string): Result<int> {
    if t == "" then Ok(0)
    else if (t[0] == '+' || t[0] == '-' || IsDigit(t[0])) && AllDigits(t[1..]) then
      assert forall i :: 1 <= i < |t| ==> t[i] == t[1..][i - 1];
      Ok(if IsDigit(t[0]) then ReadDecimal(t) else ReadInt(t))
    else Error
  }

  function AfterAt(t: string, i: nat): string
    requires i <= |t|
  {
    if i == |t| then "" else t[i + 1..]
  }

  /** A JSON number: a sign, digits with or without a point, an exponent or none. */
  function ReadNumber(t: string): (r: Result<Float>)
    ensures r.Ok? ==> Proper(r.value) && !r.value.NotFinite?
  {
    var negative := t != "" && t[0] == '-';
    ReadUnsigned(negative, if negative then t[1..] else t)
  }

  function ReadUnsigned(negative: bool, t: string): (r: Result<Float>)
    ensures r.Ok? ==> Proper(r.value) && !r.value.NotFinite?
  {
    var q := Text.IndexOf(t, 'e');
    var e :- ReadExponent(AfterAt(t, q));
    ReadMantissa(negative, t[..q], e)
  }

  function ReadMantissa(negative: bool, t: string, e: int): (r: Result<Float>)
    ensures r.Ok? ==> Proper(r.value) && !r.value.NotFinite?
  {
    var p := Text.IndexOf(t, '.');
    var digits := t[..p] + AfterAt(t, p);
    if p == 0 || !AllDigits(digits) then Error else Normal(negative, digits, p + e)
  }

  lemma WithoutMark(t: string, c: char)
    requires c !in t
    ensures Text.IndexOf(t, c) == |t| && t[..|t|] == t && AfterAt(t, |t|) == ""
  {
  }

  lemma WithMark(a: string, c: char, b: string)
    requires c !in a
    ensures var t := a + ([c] + b); Text.IndexOf(t, c) == |a| && t[..|a|] == a && AfterAt(t, |a|) == b
  {
    assert a + ([c] + b) == a + [c] + b;
    Text.IndexOfPrefix(a, b, c);
  }

  lemma {:induction false} StripPadded(d: string, k: nat)
    requires d != "" && d[|d| - 1] != '0' && d[0] != '0'
    ensures Strip(d + Zeros(k)) == d
  {
    if k == 0 {
      assert d + Zeros(0) == d;
    } else {
      var t := d + Zeros(k);
      assert t[..|t| - 1] == d + Zeros(k - 1) && t[0] == d[0];
      StripPadded(d, k - 1);
    }
  }

  lemma {:induction false} StripLeftPadded(k: nat, d: string)
    requires d != "" && d[0] != '0'
    ensures StripLeft(Zeros(k) + d) == d
  {
    if k == 0 {
      assert Zeros(0) + d == d;
    } else {
      var t := Zeros(k) + d;
      assert t[1..] == Zeros(k - 1) + d;
      StripLeftPadded(k - 1, d);
    }
  }

  lemma NormalOf(negative: bool, d: string, j: nat, k: nat, point: int)
    requires Shortest(d)
    ensures Normal(negative, Zeros(j) + (d + Zeros(k)), point) == Ok(Finite(negative, d, point - j))
  {
    var t := d + Zeros(k);
    assert t[0] == d[0];
    StripLeftPadded(j, t);
    StripPadded(d, k);
  }

  lemma NormalBare(negative: bool, d: string, point: int)
    requires Shortest(d)
    ensures Normal(negative, d, point) == Ok(Finite(negative, d, point))
  {
    NormalOf(negative, d, 0, 0, point);
    assert Zeros(0) + (d + Zeros(0)) == d;
  }

  lemma ReadUnmarked(negative: bool, t: string)
    requires t != "" && AllDigits(t)
    ensures ReadUnsigned(negative, t) == Normal(negative, t, |t|)
  {
    DigitsPlain(t, 'e');
    DigitsPlain(t, '.');
    WithoutMark(t, 'e');
    WithoutMark(t, '.');
    assert t + "" == t;
  }

  lemma PaddedParts(d: string, k: nat)
    ensures |d + Zeros(k)| == |d| + k && Zeros(0) + (d + Zeros(k)) == d + Zeros(k)
  {
  }

  lemma HeadTail(d: string)
    requires d != ""
    ensures d[..1] + d[1..] == d
  {
  }

  lemma NormalPadded(negative: bool, d: string, k: nat, point: int)
    requires Shortest(d)
    ensures Normal(negative, d + Zeros(k), point) == Ok(Finite(negative, d, point))
  {
    NormalOf(negative, d, 0, k, point);
    PaddedParts(d, k);
  }

  lemma ReadWhole(negative: bool, d: string, k: nat)
    requires Shortest(d)
    ensures ReadUnsigned(negative, d + Zeros(k)) == Ok(Finite(negative, d, |d| + k))
  {
    var t, point := d + Zeros(k), |d| + k;
    DigitsPadded(d, k);
    assert |t| == point;
    NormalPadded(negative, d, k, point);
    ReadUnmarked(negative, t);
  }

  lemma ReadPlain(negative: bool, d: string, n: nat)
    requires Shortest(d) && |d| <= n
    ensures ReadUnsigned(negative, d + Zeros(n - |d|)) == Ok(Finite(negative, d, n))
  {
    ReadWhole(negative, d, n - |d|);
  }

  lemma ReadPointed(negative: bool, d: string, n: nat)
    requires Shortest(d) && 0 < n < |d|
    ensures ReadUnsigned(negative, d[..n] + ("." + d[n..])) == Ok(Finite(negative, d, n))
  {
    var t := d[..n] + ("." + d[n..]);
    WithoutMark(t, 'e');
    WithMark(d[..n], '.', d[n..]);
    assert d[..n] + d[n..] == d;
    NormalBare(negative, d, n);
  }

  lemma ReadSmall(negative: bool, d: string, n: int)
    requires Shortest(d) && n <= 0
    ensures ReadUnsigned(negative, "0" + ("." + (Zeros(-n) + d))) == Ok(Finite(negative, d, n))
  {
    var t := "0" + ("." + (Zeros(-n) + d));
    WithoutMark(t, 'e');
    WithMark("0", '.', Zeros(-n) + d);
    assert "0" + (Zeros(-n) + d) == Zeros(1 - n) + (d + Zeros(0));
    NormalOf(negative, d, 1 - n, 0, 1);
  }

  lemma ReadMantissaOf(negative: bool, d: string, e: int)
    requires Shortest(d)
    ensures ReadMantissa(negative, Mantissa(d), e) == Ok(Finite(negative, d, 1 + e))
  {
    DigitsPlain(d, '.');
    NormalBare(negative, d, 1 + e);
    if |d| == 1 {
      WithoutMark(d, '.');
      assert d + "" == d;
    } else {
      HeadTail(d);
      ReadTwoParts(negative, d[..1], d[1..], e);
    }
  }

  lemma ReadTwoParts(negative: bool, a: string, b: string, e: int)
    requires a != "" && AllDigits(a + b) && '.' !in a
    ensures ReadMantissa(negative, a + "." + b, e) == Normal(negative, a + b, |a| + e)
  {
    assert a + "." + b == a + (['.'] + b);
    WithMark(a, '.', b);
  }

  lemma ReadExponentOf(e: int)
    ensures ReadExponent(ScriptExponent(e)[1..]) == Ok(e)
  {
    ExponentRead(e);
    var t := ScriptExponent(e)[1..];
    assert t == Sign(e) + Decimal(Abs(e)) && t[1..] == Decimal(Abs(e));
  }

  lemma ReadScientific(negative: bool, d: string, n: int)
    requires Shortest(d)
    ensures ReadUnsigned(negative, Mantissa(d) + ScriptExponent(n - 1)) == Ok(Finite(negative, d, n))
  {
    var tail := ScriptExponent(n - 1)[1..];
    DigitsPlain(d, 'e');
    assert ScriptExponent(n - 1) == ['e'] + tail;
    WithMark(Mantissa(d), 'e', tail);
    ReadExponentOf(n - 1);
    ReadMantissaOf(negative, d, n - 1);
  }

  lemma ReadScript(negative: bool, d: string, n: int)
    requires Shortest(d)
    ensures ReadUnsigned(negative, ScriptText(d, n)) == Ok(Finite(negative, d, n))
  {
    match FormOf(d, n)
    case Plain => ReadPlain(negative, d, n);
    case Pointed => ReadPointed(negative, d, n);
    case Small => ReadSmall(negative, d, n);
    case Scientific => ReadScientific(negative, d, n);
  }

  lemma ReadSigned(negative: bool, t: string)
    requires t != "" && t[0] != '-'
    ensures ReadNumber((if negative then "-" else "") + t) == ReadUnsigned(negative, t)
  {
    assert ("-" + t)[1..] == t && "" + t == t;
  }

  lemma ReadZero()
    ensures ReadNumber("0") == Ok(Zero)
  {
    ReadSigned(false, "0");
    assert "" + "0" == "0";
    ReadUnmarked(false, "0");
    assert StripLeft("0") == "";
  }

  /** Reading the text of a number gives the number. */
  lemma ReadNumberBack(f: Double)
    requires !f.NotFinite?
    ensures ReadNumber(SerializedText(f).text) == Ok(f)
  {
    if f.Zero? {
      ReadZero();
    } else {
      FormShows(f.digits, f.point);
      ReadScript(f.negative, f.digits, f.point);
      ReadSigned(f.negative, ScriptText(f.digits, f.point));
    }
  }

  /** Different digits or a different place of the point give a different text. */
  lemma ScriptTextInjective(d: string, n: int, e: string, m: int)
    requires Shortest(d) && Shortest(e) && ScriptText(d, n) == ScriptText(e, m)
    ensures d == e && n == m
  {
    ReadScript(false, d, n);
    ReadScript(false, e, m);
  }

  /** Two floats have one text exactly when they are the same number. */
  lemma FloatsApart(f: Double, g: Double)
    requires !f.NotFinite? && !g.NotFinite?
    ensures SerializedText(f) == SerializedText(g) <==> f == g
  {
    ReadNumberBack(f);
    ReadNumberBack(g);
  }

  // ---------------------------------------------------------------- the shape of the text

  /** With an exponent: always signed, and a point after the first digit if there are others. */
  ghost predicate ExponentText(t: string, d: string, n: int) {
    && 'e' in t
    && t == t[..Text.IndexOf(t, 'e')] + ((if n > 0 then "e+" else "e-") + Decimal(if n > 0 then n - 1 else 1 - n))
    && Text.IndexOf(t, '.') == if |d| == 1 then |t| else 1
  }

  /** Without one: the point stands where the number has it, after at least one digit, and no text ends in an idle zero
      after a point. */
  ghost predicate PlainText(t: string, d: string, n: int) {
    && t != "" && 'e' !in t
    && Text.IndexOf(t, '.') == (if n <= 0 then 1 else n)
    && ('.' in t <==> n < |d|)
    && ('.' in t ==> t[|t| - 1] != '0')
    && (t[0] == '0' <==> n <= 0)
  }

  /** The text of a positive number in section 6.1.6.1.20 of ECMA-262: an exponent exactly from 10^21 on and below
      10^-6. */
  lemma ScriptShape(d: string, n: int)
    requires Shortest(d)
    ensures if n > 21 || n < -5 then ExponentText(ScriptText(d, n), d, n) else PlainText(ScriptText(d, n), d, n)
  {
    if |d| <= n <= 21 {
      WholeShape(d, n);
    } else if 0 < n <= 21 {
      MiddlePoint(d, n);
    } else if -6 < n <= 0 {
      LeadingPoint(d, n);
    } else {
      ExponentIs(d, n);
    }
  }

  lemma ExponentIs(d: string, n: int)
    requires Shortest(d) && n != 1
    ensures ExponentText(Mantissa(d) + ScriptExponent(n - 1), d, n)
  {
    NoPoint(n - 1);
    ExponentShape(d, ScriptExponent(n - 1));
    SignedExponent(n);
  }

  lemma SignedExponent(n: int)
    requires n != 1
    ensures ScriptExponent(n - 1) == (if n > 0 then "e+" else "e-") + Decimal(if n > 0 then n - 1 else 1 - n)
  {
    assert "e" + "+" == "e+" && "e" + "-" == "e-";
  }

  lemma MiddlePoint(d: string, n: int)
    requires Shortest(d) && 0 < n < |d|
    ensures PlainText(d[..n] + ("." + d[n..]), d, n)
  {
    DigitsPlain(d, '.');
    DigitsPlain(d, 'e');
    PointShape(d[..n], d[n..]);
  }

  lemma LeadingPoint(d: string, n: int)
    requires Shortest(d) && n <= 0
    ensures PlainText("0" + ("." + (Zeros(-n) + d)), d, n)
  {
    DigitsPlain(d, 'e');
    PointShape("0", Zeros(-n) + d);
  }

  lemma WholeShape(d: string, n: int)
    requires Shortest(d) && |d| <= n
    ensures var t := d + Zeros(n - |d|);
            'e' !in t && '.' !in t && Text.IndexOf(t, '.') == |t| == n && t[0] == d[0]
  {
    DigitsPlain(d, '.');
    DigitsPlain(d, 'e');
  }

  lemma PointShape(whole: string, fraction: string)
    requires whole != "" && '.' !in whole && 'e' !in whole && 'e' !in fraction && fraction != ""
    ensures var t := whole + ("." + fraction);
            && 'e' !in t && '.' in t && Text.IndexOf(t, '.') == |whole|
            && t[0] == whole[0] && t[|t| - 1] == fraction[|fraction| - 1]
  {
    var t := whole + ("." + fraction);
    assert t == whole + ['.'] + fraction;
    Text.IndexOfPrefix(whole, fraction, '.');
  }

  lemma ExponentShape(d: string, s: string)
    requires Shortest(d) && s != "" && s[0] == 'e' && '.' !in s
    ensures var t := Mantissa(d) + s;
            && 'e' in t && Text.IndexOf(t, 'e') == |Mantissa(d)| && t[..|Mantissa(d)|] == Mantissa(d)
            && Text.IndexOf(t, '.') == if |d| == 1 then |t| else 1
  {
    DigitsPlain(d, '.');
    DigitsPlain(d, 'e');
    MantissaParts(d);
    assert s == ['e'] + s[1..];
    CutAt(Mantissa(d), 'e', s[1..], s);
    if |d| > 1 { PointFirst(d, s); }
  }

  lemma PointFirst(d: string, s: string)
    requires |d| > 1 && '.' !in d
    ensures Text.IndexOf(Mantissa(d) + s, '.') == 1
  {
    var x := d[1..] + s;
    assert (d[..1] + "." + d[1..]) + s == d[..1] + ("." + x);
    CutAt(d[..1], '.', x, "." + x);
  }

  lemma CutAt(m: string, c: char, x: string, s: string)
    requires c !in m && s == [c] + x
    ensures c in m + s && Text.IndexOf(m + s, c) == |m| && (m + s)[..|m|] == m
  {
    assert m + s == m + [c] + x;
    Text.IndexOfPrefix(m, x, c);
  }

  lemma NoPoint(e: int)
    ensures ScriptExponent(e)[0] == 'e' && '.' !in ScriptExponent(e)
  {
    DigitsPlain(Decimal(Abs(e)), '.');
  }
}
