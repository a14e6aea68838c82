/** `system/console.c`: decimal text without printf's `%d`, and signed fixed-point numbers from
    thousandths. */
module Console {
  import opened Word
  import opened Wrappers

  type I32 = x: int | -0x8000_0000 <= x < 0x8000_0000

  const MAX_DECIMALS: nat := 3

  function Pow10(k: nat): (p: nat)
    ensures 1 <= p
  {
    if k == 0 then 1 else 10 * Pow10(k - 1)
  }

  function Digit(d: nat): (c: char)
    requires d < 10
    ensures '0' <= c <= '9' && DigitValue(c) == d
  {
    '0' + d as char
  }

  function DigitValue(c: char): int {
    c as int - '0' as int
  }

  predicate AllDigits(s: string) {
    forall i :: 0 <= i < |s| ==> '0' <= s[i] <= '9'
  }

  /** `%lu` */
  function Digits(n: nat): (s: string)
    ensures |s| > 0 && AllDigits(s)
  {
    if n < 10 then [Digit(n)] else Digits(n / 10) + [Digit(n % 10)]
  }

  function Zeros(k: nat): (s: string)
    ensures |s| == k && forall i :: 0 <= i < k ==> s[i] == '0'
  {
    if k == 0 then "" else Zeros(k - 1) + ['0']
  }

  /** `%0*lu` */
  function Padded(n: nat, width: nat): string {
    if |Digits(n)| >= width then Digits(n) else Zeros(width - |Digits(n)|) + Digits(n)
  }

  lemma {:induction false} DigitsLength(n: nat, k: nat)
    requires 0 < k
    ensures |Digits(n)| <= k <==> n < Pow10(k)
  {
    if k == 1 {
      assert Pow10(1) == 10;
    } else if n >= 10 {
      DigitsLength(n / 10, k - 1);
    } else {
      assert Pow10(k - 1) >= 1;
    }
  }

  // ---- reading a number back, character by character ----

  /** The number a string of digits stands for. */
  function Value(s: string): int {
    if s == [] then 0 else 10 * Value(s[..|s| - 1]) + DigitValue(s[|s| - 1])
  }

  lemma ValueSnoc(s: string, c: char)
    ensures Value(s + [c]) == 10 * Value(s) + DigitValue(c)
  {
    assert (s + [c])[..|s|] == s;
  }

  lemma {:induction false} ValueOfDigits(n: nat)
    ensures Value(Digits(n)) == n
  {
    if n < 10 {
      ValueSnoc([], Digit(n));
      assert [] + [Digit(n)] == Digits(n);
    } else {
      ValueOfDigits(n / 10);
      ValueSnoc(Digits(n / 10), Digit(n % 10));
    }
  }

  lemma {:induction false} LeadingZeros(k: nat, s: string)
    ensures Value(Zeros(k) + s) == Value(s)
  {
    if s != [] {
      var n := |s| - 1;
      LeadingZeros(k, s[..n]);
      ValueSnoc(Zeros(k) + s[..n], s[n]);
      assert Zeros(k) + s == Zeros(k) + s[..n] + [s[n]];
    } else {
      assert Zeros(k) + s == Zeros(k);
      if k > 0 {
        LeadingZeros(k - 1, []);
        assert Zeros(k - 1) + [] == Zeros(k - 1);
        ValueSnoc(Zeros(k - 1), '0');
      }
    }
  }

  lemma PaddedIsDigits(n: nat, width: nat)
    requires |Digits(n)| <= width
    ensures |Padded(n, width)| == width && AllDigits(Padded(n, width)) && Value(Padded(n, width)) == n
  {
    hide Value, Digits;
    ValueOfDigits(n);
    if |Digits(n)| < width {
      LeadingZeros(width - |Digits(n)|, Digits(n));
    }
  }

  /** A reader of decimal text: the sign, all digits so far, and how many of them came after the
      point. */
  datatype Reader = Reader(ok: bool, negative: bool, digits: string, point: bool, decimals: nat)

  const FRESH: Reader := Reader(true, false, [], false, 0)

  function ReadChar(r: Reader, c: char): Reader {
    if '0' <= c <= '9' then
      r.(digits := r.digits + [c], decimals := r.decimals + if r.point then 1 else 0)
    else if c == '-' && r == FRESH then r.(negative := true)
    else if c == '.' && r.digits != [] && !r.point then r.(point := true)
    else r.(ok := false)
  }

  function ReadOn(r: Reader, s: string): Reader {
    if s == [] then r else ReadChar(ReadOn(r, s[..|s| - 1]), s[|s| - 1])
  }

  lemma ReadOnSnoc(r: Reader, s: string, c: char)
    ensures ReadOn(r, s + [c]) == ReadChar(ReadOn(r, s), c)
  {
    assert (s + [c])[..|s|] == s;
  }

  lemma {:induction false} ReadOnConcat(r: Reader, s: string, t: string)
    ensures ReadOn(r, s + t) == ReadOn(ReadOn(r, s), t)
  {
    if t == [] {
      assert s + t == s;
    } else {
      var n := |t| - 1;
      ReadOnConcat(r, s, t[..n]);
      ReadOnSnoc(r, s + t[..n], t[n]);
      assert s + t == s + t[..n] + [t[n]];
    }
  }

  lemma {:induction false} ReadDigits(r: Reader, s: string)
    requires AllDigits(s)
    ensures ReadOn(r, s) == r.(digits := r.digits + s, decimals := r.decimals + if r.point then |s| else 0)
  {
    if s == [] {
      assert r.digits + s == r.digits;
    } else {
      var n := |s| - 1;
      ReadDigits(r, s[..n]);
      assert r.digits + s == r.digits + s[..n] + [s[n]];
    }
  }

  predicate IsNumber(s: string) {
    var r := ReadOn(FRESH, s);
    r.ok && r.digits != [] && (r.point ==> r.decimals > 0) && r.decimals <= MAX_DECIMALS
  }

  /** A value with so many decimals, in thousandths. */
  function Thousandths(value: int, decimals: nat): int
    requires decimals <= MAX_DECIMALS
  {
    match decimals
    case 0 => 1000 * value
    case 1 => 100 * value
    case 2 => 10 * value
    case 3 => value
  }

  /** The value of a number with at most three decimals, in thousandths. */
  function ReadMilli(s: string): int
    requires IsNumber(s)
  {
    var r := ReadOn(FRESH, s);
    var magnitude := Thousandths(Value(r.digits), r.decimals);
    if r.negative then -magnitude else magnitude
  }

  // ---- the look of a number ----

  /** How many characters come after the point, if there is one. */
  function Places(s: string): Option<nat> {
    if s == [] then None
    else if s[|s| - 1] == '.' then Some(0)
    else match Places(s[..|s| - 1])
      case None => None
      case Some(n) => Some(n + 1)
  }

  lemma {:induction false} PlacesOfWhole(s: string)
    requires '.' !in s
    ensures Places(s) == None
  {
    if s != [] {
      PlacesOfWhole(s[..|s| - 1]);
    }
  }

  lemma {:induction false} PlacesAfterPoint(s: string, t: string)
    requires '.' !in t
    ensures Places(s + "." + t) == Some(|t|)
  {
    if t == [] {
      assert s + "." + t == s + ".";
    } else {
      PlacesAfterPoint(s, t[..|t| - 1]);
      assert (s + "." + t)[..|s + "." + t| - 1] == s + "." + t[..|t| - 1];
    }
  }

  /** A zero comes first only if it is the whole part. */
  predicate NoLeadingZero(s: string) {
    s != "" && (s[0] == '0' ==> |s| == 1 || s[1] == '.')
  }

  lemma {:induction false} DigitsNoLeadingZero(n: nat)
    ensures Digits(n)[0] == '0' <==> n == 0
    ensures n < 10 ==> |Digits(n)| == 1
  {
    if n >= 10 {
      DigitsNoLeadingZero(n / 10);
      assert Digits(n)[0] == Digits(n / 10)[0];
    }
  }

  // ---- rounding ----

  function Abs(x: int): nat {
    if x < 0 then -x else x
  }

  ghost predicate IsMultiple(v: int, unit: nat) {
    exists q: int :: v == q * unit
  }

  /** `v` is the multiple of `unit` nearest to `x`; of two equally near ones, the one further from
      zero. */
  ghost predicate IsNearest(v: int, x: int, unit: nat) {
    && IsMultiple(v, unit)
    && 2 * Abs(v - x) <= unit
    && (2 * Abs(v - x) == unit ==> Abs(v) > Abs(x))
  }

  lemma MultiplesApart(v: int, w: int, unit: nat)
    requires 0 < unit && IsMultiple(v, unit) && IsMultiple(w, unit) && v > w
    ensures v >= w + unit
  {
    var p: int :| v == p * unit;
    var q: int :| w == q * unit;
    MulLt(q, p, unit);
    MulLe(q + 1, p, unit);
  }

  /** There is only one such multiple: two would both be half a unit away, and the upper one
      strictly between 0 and a whole unit. */
  lemma NearestUnique(v: int, w: int, x: int, unit: nat)
    requires 0 < unit && IsNearest(v, x, unit) && IsNearest(w, x, unit)
    ensures v == w
  {
    assert 0 == 0 * unit && IsMultiple(0, unit);
    if v > w {
      MultiplesApart(v, w, unit);
      MultiplesApart(v, 0, unit);
    } else if w > v {
      MultiplesApart(w, v, unit);
      MultiplesApart(w, 0, unit);
    }
  }

  // ---- console_fmt_milli ----

  /** Decimals really used; more than three are cut to three. */
  function Decimals(decimals: U32): (d: nat)
    ensures d <= MAX_DECIMALS
  {
    Min(decimals, MAX_DECIMALS)
  }

  lemma SmallPowers()
    ensures Pow10(0) == 1 && Pow10(1) == 10 && Pow10(2) == 100 && Pow10(3) == 1000
  {
  }

  /** The last place shown, in thousandths. */
  function Unit(decimals: U32): (unit: nat)
    ensures unit in {1, 10, 100, 1000}
  {
    SmallPowers();
    Pow10(MAX_DECIMALS - Decimals(decimals))
  }

  /** Whole and fraction of a magnitude, as `%lu` or `%lu.%0*lu`. */
  function Fixed(magnitude: nat, decimals: nat): string {
    if decimals == 0 then Digits(magnitude)
    else Digits(Quotient(magnitude, Pow10(decimals))) + "." + Padded(Remainder(magnitude, Pow10(decimals)), decimals)
  }

  /** The magnitude in units of the last place shown. */
  function Rounded(milli: I32, decimals: U32): nat {
    Quotient(Abs(milli) + Unit(decimals) / 2, Unit(decimals))
  }

  /** The text `console_fmt_milli` produces when the buffer holds it. */
  function MilliText(milli: I32, decimals: U32): string {
    (if milli < 0 && Rounded(milli, decimals) != 0 then "-" else "") + Fixed(Rounded(milli, decimals), Decimals(decimals))
  }

  /** The digits of whole and fraction, written one after the other, spell the magnitude. */
  lemma SplitJoins(magnitude: nat, decimals: nat)
    requires 0 < decimals <= MAX_DECIMALS
    ensures
      var fraction := Padded(Remainder(magnitude, Pow10(decimals)), decimals);
      && AllDigits(fraction) && |fraction| == decimals
      && Value(Digits(Quotient(magnitude, Pow10(decimals))) + fraction) == magnitude
  {
    var w, f := Quotient(magnitude, Pow10(decimals)), Remainder(magnitude, Pow10(decimals));
    FractionDigits(f, decimals);
    QuotientAndRemainder(magnitude, Pow10(decimals));
    WholeAndFraction(w, Padded(f, decimals));
  }

  lemma FractionDigits(f: nat, decimals: nat)
    requires 0 < decimals && f < Pow10(decimals)
    ensures |Padded(f, decimals)| == decimals && AllDigits(Padded(f, decimals)) && Value(Padded(f, decimals)) == f
  {
    DigitsLength(f, decimals);
    PaddedIsDigits(f, decimals);
  }

  lemma WholeAndFraction(whole: nat, fraction: string)
    ensures Value(Digits(whole) + fraction) == whole * Pow10(|fraction|) + Value(fraction)
  {
    ValueOfDigits(whole);
    JoinedValue(Digits(whole), fraction);
  }

  lemma {:induction false} JoinedValue(s: string, t: string)
    ensures Value(s + t) == Value(s) * Pow10(|t|) + Value(t)
  {
    if t == [] {
      assert s + t == s;
    } else {
      var n := |t| - 1;
      JoinedValue(s, t[..n]);
      ValueSnoc(s + t[..n], t[n]);
      assert s + t == s + t[..n] + [t[n]];
      assert 10 * (Value(s) * Pow10(n)) == Value(s) * (10 * Pow10(n));
    }
  }

  /** A reader that has seen at most a sign. */
  predicate Signed(r: Reader) {
    r == FRESH || r == FRESH.(negative := true)
  }

  lemma ReadToPoint(r: Reader, whole: string)
    requires Signed(r) && whole != "" && AllDigits(whole)
    ensures ReadOn(r, whole + ".") == Reader(true, r.negative, whole, true, 0)
  {
    ReadDigits(r, whole);
    ReadOnSnoc(r, whole, '.');
    assert [] + whole == whole;
    assert ReadOn(r, whole) == Reader(true, r.negative, whole, false, 0);
  }

  lemma ReadWithPoint(r: Reader, whole: string, fraction: string)
    requires Signed(r) && whole != "" && AllDigits(whole) && AllDigits(fraction)
    ensures ReadOn(r, whole + "." + fraction) == Reader(true, r.negative, whole + fraction, true, |fraction|)
  {
    var r' := Reader(true, r.negative, whole, true, 0);
    ReadToPoint(r, whole);
    ReadOnConcat(r, whole + ".", fraction);
    ReadDigits(r', fraction);
  }

  lemma ReadFixed(r: Reader, magnitude: nat, decimals: nat)
    requires Signed(r) && decimals <= MAX_DECIMALS
    ensures
      var r' := ReadOn(r, Fixed(magnitude, decimals));
      && r'.ok && r'.negative == r.negative && Value(r'.digits) == magnitude && r'.digits != []
      && r'.decimals == decimals && r'.point == (decimals > 0)
  {
    if decimals == 0 {
      ReadDigits(r, Digits(magnitude));
      assert [] + Digits(magnitude) == Digits(magnitude);
      ValueOfDigits(magnitude);
    } else {
      var w, f := Quotient(magnitude, Pow10(decimals)), Remainder(magnitude, Pow10(decimals));
      SplitJoins(magnitude, decimals);
      ReadWithPoint(r, Digits(w), Padded(f, decimals));
    }
  }

  /** What the text stands for, in thousandths. */
  function MilliValue(milli: I32, decimals: U32): int {
    var v := Thousandths(Rounded(milli, decimals), Decimals(decimals));
    if milli < 0 then -v else v
  }

  /** Adding half a unit and dividing rounds to the nearest, ties away from zero. */
  lemma HalfUnitRounds(milli: I32, decimals: U32)
    ensures IsNearest(MilliValue(milli, decimals), milli, Unit(decimals))
  {
    var unit := Unit(decimals);
    var q: int := Rounded(milli, decimals);
    HalfUnit(Abs(milli), q, unit);
    ThousandthsOfUnits(q, decimals);
    hide Unit, Rounded, Thousandths, Decimals;
    assert -(q * unit) == (-q) * unit;
  }

  lemma ThousandthsOfUnits(q: int, decimals: U32)
    ensures Thousandths(q, Decimals(decimals)) == q * Unit(decimals)
  {
    SmallPowers();
  }

  lemma HalfUnit(x: nat, q: int, unit: nat)
    requires unit in {1, 10, 100, 1000} && q == Quotient(x + unit / 2, unit)
    ensures 2 * Abs(q * unit - x) <= unit && (2 * Abs(q * unit - x) == unit ==> q * unit > x)
  {
    assert unit == 1 || unit == 10 || unit == 100 || unit == 1000;
    DivBounds(x + unit / 2, unit);
  }

  /** What a caller asking for so many decimals gets to see: none, one, two or three places, and the
      nearest whole unit, tenth or hundredth, or the value itself. */
  ghost predicate Shows(text: string, milli: int, decimals: nat)
    requires IsNumber(text)
  {
    match decimals
    case 0 => Places(text) == None && IsNearest(ReadMilli(text), milli, 1000)
    case 1 => Places(text) == Some(1) && IsNearest(ReadMilli(text), milli, 100)
    case 2 => Places(text) == Some(2) && IsNearest(ReadMilli(text), milli, 10)
    case _ => Places(text) == Some(3) && ReadMilli(text) == milli
  }

  /** The text reads back as the input, rounded to the places asked for - three at most - with ties
      away from zero: for every 32-bit value and every number of decimals. A minus sign comes first
      exactly if the value shown is negative, and no leading zeros. */
  lemma RoundTrip(milli: I32, decimals: U32)
    ensures
      var text := MilliText(milli, decimals);
      && IsNumber(text) && Shows(text, milli, decimals) && (text[0] == '-' <==> ReadMilli(text) < 0)
      && NoLeadingZero(if text[0] == '-' then text[1..] else text)
  {
    TextReads(milli, decimals);
    HalfUnitRounds(milli, decimals);
    UnitsShown(decimals);
    TextPlaces(milli, decimals);
  }

  lemma UnitsShown(decimals: U32)
    ensures Unit(decimals) == (match decimals case 0 => 1000 case 1 => 100 case 2 => 10 case _ => 1)
  {
    SmallPowers();
  }

  lemma TextPlaces(milli: I32, decimals: U32)
    ensures
      var text := MilliText(milli, decimals);
      && text != "" && Places(text) == (if decimals == 0 then None else Some(Min(decimals, 3)))
      && NoLeadingZero(if text[0] == '-' then text[1..] else text)
  {
    hide Fixed, Rounded, Places, NoLeadingZero, Unit;
    var d, magnitude := Decimals(decimals), Rounded(milli, decimals);
    var sign := if milli < 0 && magnitude != 0 then "-" else "";
    FirstIsDigit(magnitude, d);
    FixedPlaces(sign, magnitude, d);
    assert ("-" + Fixed(magnitude, d))[1..] == Fixed(magnitude, d) == "" + Fixed(magnitude, d);
  }

  lemma FixedPlaces(sign: string, magnitude: nat, decimals: nat)
    requires '.' !in sign && decimals <= MAX_DECIMALS
    ensures Places(sign + Fixed(magnitude, decimals)) == if decimals == 0 then None else Some(decimals)
    ensures NoLeadingZero(Fixed(magnitude, decimals))
  {
    hide Places, Digits, Padded, Value;
    if decimals == 0 {
      DigitsNoLeadingZero(magnitude);
      PlacesOfWhole(sign + Digits(magnitude));
    } else {
      var whole := Quotient(magnitude, Pow10(decimals));
      var fraction := Padded(Remainder(magnitude, Pow10(decimals)), decimals);
      SplitJoins(magnitude, decimals);
      DigitsNoLeadingZero(whole);
      PlacesAfterPoint(sign + Digits(whole), fraction);
      assert sign + Fixed(magnitude, decimals) == sign + Digits(whole) + "." + fraction;
    }
  }

  lemma TextReads(milli: I32, decimals: U32)
    ensures
      var text := MilliText(milli, decimals);
      && IsNumber(text) && ReadMilli(text) == MilliValue(milli, decimals)
      && (text[0] == '-' <==> MilliValue(milli, decimals) < 0)
  {
    var d, magnitude := Decimals(decimals), Rounded(milli, decimals);
    var body := Fixed(magnitude, d);
    FirstIsDigit(magnitude, d);
    if milli < 0 && magnitude != 0 {
      ReadFixed(FRESH.(negative := true), magnitude, d);
      ReadSigned(body);
    } else {
      assert "" + body == body;
      ReadFixed(FRESH, magnitude, d);
    }
  }

  lemma ReadSigned(body: string)
    ensures ReadOn(FRESH, "-" + body) == ReadOn(FRESH.(negative := true), body)
  {
    ReadOnSnoc(FRESH, [], '-');
    assert [] + ['-'] == "-";
    ReadOnConcat(FRESH, "-", body);
  }

  lemma FirstIsDigit(magnitude: nat, decimals: nat)
    ensures Fixed(magnitude, decimals) != "" && Fixed(magnitude, decimals)[0] != '-'
  {
    assert Digits(magnitude)[0] != '-';
    if decimals > 0 {
      var whole := Digits(Quotient(magnitude, Pow10(decimals)));
      assert whole[0] != '-';
      assert Fixed(magnitude, decimals)[0] == whole[0];
    }
  }

  /** With three decimals, or any larger number, nothing is lost. */
  lemma ExactAtThree(milli: I32, decimals: U32)
    requires decimals >= MAX_DECIMALS
    ensures IsNumber(MilliText(milli, decimals)) && ReadMilli(MilliText(milli, decimals)) == milli
  {
    RoundTrip(milli, decimals);
    SmallPowers();
  }

  /** No text is longer than "-2147483.648". */
  lemma AtMostTwelve(milli: I32, decimals: U32)
    ensures |MilliText(milli, decimals)| <= 12
  {
    var d, magnitude := Decimals(decimals), Rounded(milli, decimals);
    SmallPowers();
    assert Pow10(7) == 10_000_000;
    if d == 0 {
      DigitsLength(magnitude, 7);
    } else {
      WholeIsShort(milli, decimals);
      DigitsLength(Quotient(magnitude, Pow10(d)), 7);
      DigitsLength(Remainder(magnitude, Pow10(d)), d);
      PaddedIsDigits(Remainder(magnitude, Pow10(d)), d);
    }
  }

  lemma WholeIsShort(milli: I32, decimals: U32)
    ensures Quotient(Rounded(milli, decimals), Pow10(Decimals(decimals))) < 10_000_000
  {
    SmallPowers();
    var d, unit := Decimals(decimals), Unit(decimals);
    if d == 0 {
      assert unit == 1000 && Pow10(d) == 1;
    } else if d == 1 {
      assert unit == 100 && Pow10(d) == 10;
    } else if d == 2 {
      assert unit == 10 && Pow10(d) == 100;
    } else {
      assert unit == 1 && Pow10(d) == 1000;
    }
  }

  // ---- the code ----

  /** One round of `console_write_dec`: the next digit, to the left of those already there. */
  method PutDigit(digits: array<char>, cursor: nat, value: U32) returns (rest: U32)
    requires digits.Length == 11 && 0 < cursor <= 10
    modifies digits
    ensures digits[cursor - 1] == Digit(value % 10) && rest == value / 10
    ensures forall i :: 0 <= i < 11 && i != cursor - 1 ==> digits[i] == old(digits[i])
  {
    digits[cursor - 1] := Digit(value % 10);
    rest := value / 10;
  }

  /** `console_write_dec`: fills the digits of a number into its 11 byte buffer from the right. */
  method WriteDec(value: U32) returns (text: string)
    ensures text == Digits(value) && |text| <= 10
  {
    var digits := new char[11];
    var cursor: nat := 10;
    digits[cursor] := '\0';
    assert Pow10(10) == 10_000_000_000;
    var rest := PutDigit(digits, cursor, value);
    cursor := cursor - 1;
    while rest != 0
      invariant cursor < 10 && rest < Pow10(cursor)
      invariant digits.Length == 11 && rest >= 0
      invariant Digits(value) == (if rest == 0 then "" else Digits(rest)) + digits[cursor..10]
    {
      ghost var before, known := rest, digits[cursor..10];
      rest := PutDigit(digits, cursor, rest);
      cursor := cursor - 1;
      assert digits[cursor..10] == [Digit(before % 10)] + known;
      assert Digits(before) == (if rest == 0 then "" else Digits(rest)) + [Digit(before % 10)];
    }
    text := digits[cursor..10];
  }

  /** `snprintf` into a buffer: as much of the text as fits before the final NUL. */
  method CopyText(buf: array<char>, text: string)
    requires buf.Length > 0
    modifies buf
    ensures
      var n := Min(|text|, buf.Length - 1);
      buf[..n] == text[..n] && buf[n] == '\0'
  {
    var n := Min(|text|, buf.Length - 1);
    for i := 0 to n
      invariant buf[..i] == text[..i]
    {
      buf[i] := text[i];
    }
    buf[n] := '\0';
  }

  /** `console_fmt_milli`, with its result read back from the buffer as a C string. */
  method FmtMilli(buf: array?<char>, milliValue: I32, decimals: U32) returns (text: string)
    modifies buf
    ensures buf == null || buf.Length == 0 ==> text == ""
    ensures buf != null && buf.Length > 0 ==>
              && text == MilliText(milliValue, decimals)[..Min(|MilliText(milliValue, decimals)|, buf.Length - 1)]
              && buf[..|text|] == text && buf[|text|] == '\0'
    ensures buf != null && buf.Length > 12 ==>
              && text == MilliText(milliValue, decimals)
              && IsNumber(text) && Shows(text, milliValue, decimals)
  {
    hide MilliText, Shows, ReadMilli, IsNumber;
    if buf == null || buf.Length == 0 {
      return "";
    }
    AtMostTwelve(milliValue, decimals);
    RoundTrip(milliValue, decimals);
    var full := FormatMilli(milliValue, decimals);
    CopyText(buf, full);
    var n := Min(|full|, buf.Length - 1);
    text := full[..n];
  }

  /** The magnitude of a 32-bit value, also of the smallest one. */
  method Magnitude(milliValue: I32) returns (magnitude: U32)
    ensures magnitude == Abs(milliValue)
  {
    if milliValue < 0 {
      magnitude := ToU32(ToU32(-(milliValue + 1)) + 1);
    } else {
      magnitude := ToU32(milliValue);
    }
  }

  method RoundMagnitude(magnitude: U32, dropDivisor: nat) returns (rounded: U32)
    requires magnitude <= 0x8000_0000 && dropDivisor in {1, 10, 100, 1000}
    ensures rounded == Quotient(magnitude + dropDivisor / 2, dropDivisor)
  {
    assert ToU32(magnitude + dropDivisor / 2) == magnitude + dropDivisor / 2;
    QuotientSmaller(magnitude + dropDivisor / 2, dropDivisor);
    rounded := Quotient(ToU32(magnitude + dropDivisor / 2), dropDivisor);
  }

  lemma QuotientSmaller(x: nat, d: nat)
    requires 0 < d
    ensures Quotient(x, d) <= x
  {
    FloorAtMost(x, d, x);
    MulLe(1, d, x);
    assert (x + 1) * d == x * d + d;
  }

  /** The body of `console_fmt_milli`, in its 32-bit arithmetic. */
  method FormatMilli(milliValue: I32, decimals: U32) returns (text: string)
    ensures text == MilliText(milliValue, decimals)
    ensures IsNumber(text) && Shows(text, milliValue, decimals)
  {
    hide Shows, ReadMilli, IsNumber, Digits, Padded;
    RoundTrip(milliValue, decimals);
    var places := decimals;
    if places > MAX_DECIMALS {
      places := MAX_DECIMALS;
    }
    assert places == Decimals(decimals);
    var sign := if milliValue < 0 then "-" else "";
    var magnitude := Magnitude(milliValue);
    magnitude := RoundMagnitude(magnitude, Unit(decimals));
    assert magnitude == Rounded(milliValue, decimals);
    if magnitude == 0 {
      sign := "";
    }
    text := PrintFixed(sign, magnitude, places);
  }

  method PrintFixed(sign: string, magnitude: nat, places: nat) returns (text: string)
    ensures text == sign + Fixed(magnitude, places)
  {
    if places == 0 {
      text := sign + Digits(magnitude);
    } else {
      var fracUnit := Pow10(places);
      var whole, fraction := Digits(Quotient(magnitude, fracUnit)), Padded(Remainder(magnitude, fracUnit), places);
      text := sign + whole + "." + fraction;
      assert text == sign + (whole + "." + fraction);
    }
  }
}
