/** The input check at the start of `getPredictions` in static/js/script.js
    (lines 55-83): an empty year, or a games count that is empty or below
    one, shows an error and sends nothing; otherwise the request body holds
    both values read by `parseInt`.
    JavaScript's two readings of a text as a number are modelled for plain
    decimal notation: `Number(text)` (used by `maxGames < 1`) as the exact
    decimal, with its rounding to a double taken into account where the
    guard compares it with one, and `parseInt(text)`. */
module FormValidation {
  import opened Wrappers

  /** The JSON body of the predict request; None stands for NaN, which
      `JSON.stringify` writes as null. */
  datatype RequestBody = RequestBody(year: Option<int>, maxGames: Option<int>)

  /** Either an error is shown and nothing is sent, or the body is sent. */
  datatype FormOutcome = ShowError(message: string) | Send(body: RequestBody)

  const YearMissing: string := "Please enter a year"
  const GamesInvalid: string := "Please enter a valid number of games"

  /** The ASCII white space that `Number` and `parseInt` skip: space, tab,
      line feed, vertical tab, form feed and carriage return. */
  predicate IsSpace(c: char) {
    c == ' ' || c == '\t' || c == '\n' || c == '\U{B}' || c == '\U{C}' || c == '\r'
  }

  predicate IsDigit(c: char) {
    '0' <= c <= '9'
  }

  predicate AllDigits(s: string) {
    forall k :: 0 <= k < |s| ==> IsDigit(s[k])
  }

  function TrimStart(s: string): (t: string)
    ensures |t| <= |s| && t == s[|s| - |t|..]
    ensures t == [] || !IsSpace(t[0])
    ensures forall k :: 0 <= k < |s| - |t| ==> IsSpace(s[k])
  {
    if s != [] && IsSpace(s[0]) then
      var t := TrimStart(s[1..]);
      assert forall k :: 1 <= k < |s| - |t| ==> s[k] == s[1..][k - 1];
      t
    else s
  }

  function TrimEnd(s: string): (t: string)
    ensures |t| <= |s| && t == s[..|t|]
    ensures t == [] || !IsSpace(t[|t| - 1])
    ensures forall k :: |t| <= k < |s| ==> IsSpace(s[k])
  {
    if s != [] && IsSpace(s[|s| - 1]) then TrimEnd(s[..|s| - 1]) else s
  }

  /** Length of the run of digits that starts the text. */
  function LeadingDigits(s: string): (n: nat)
    ensures n <= |s|
    ensures AllDigits(s[..n])
    ensures n < |s| ==> !IsDigit(s[n])
  {
    if s != [] && IsDigit(s[0]) then
      var n := 1 + LeadingDigits(s[1..]);
      assert forall k :: 1 <= k < n ==> s[..n][k] == s[1..][..n - 1][k - 1];
      n
    else 0
  }

  function DigitsValue(ds: string): nat
    requires AllDigits(ds)
  {
    if ds == [] then 0
    else DigitsValue(ds[..|ds| - 1]) * 10 + (ds[|ds| - 1] as int - '0' as int)
  }

  function Pow10(n: nat): nat {
    if n == 0 then 1 else 10 * Pow10(n - 1)
  }

  /** A run of n digits denotes less than 10^n. */
  lemma {:induction false} DigitsValueBound(ds: string)
    requires AllDigits(ds)
    ensures DigitsValue(ds) < Pow10(|ds|)
    decreases |ds|
  {
    if ds != [] {
      DigitsValueBound(ds[..|ds| - 1]);
    }
  }

  /** The value of the digits after a decimal point. */
  function Fraction(ds: string): (f: real)
    requires AllDigits(ds)
    ensures 0.0 <= f < 1.0
  {
    DigitsValueBound(ds);
    ProperQuotient(DigitsValue(ds), Pow10(|ds|));
    DigitsValue(ds) as real / Pow10(|ds|) as real
  }

  lemma ProperQuotient(num: nat, den: nat)
    requires num < den
    ensures 0.0 <= num as real / den as real < 1.0
  {
    var q := num as real / den as real;
    assert q * den as real == num as real;
  }

  predicate Negative(s: string) {
    s != [] && s[0] == '-'
  }

  /** The text after an optional leading sign. */
  function Unsigned(s: string): string {
    if s != [] && (s[0] == '-' || s[0] == '+') then s[1..] else s
  }

  /** The exact value of the decimal that `Number(text)` reads: surrounding
      white space ignored, an empty text is 0, otherwise as `DecimalValue`
      reads it. The browser then rounds this value to the nearest double;
      `LessThanOne` accounts for that rounding. */
  function NumberValue(s: string): Option<real> {
    var t := TrimEnd(TrimStart(s));
    if t == [] then Some(0.0) else DecimalValue(t)
  }

  /** An optional sign, digits with at most one point and at least one
      digit; anything else is NaN (None). */
  function DecimalValue(t: string): Option<real> {
    var body := Unsigned(t);
    var ip := LeadingDigits(body);
    var magnitude: Option<real> :=
      if ip == |body| && ip > 0 then Some(DigitsValue(body) as real)
      else if ip < |body| && body[ip] == '.' && AllDigits(body[ip + 1..]) && (ip > 0 || ip + 1 < |body|) then
        Some(DigitsValue(body[..ip]) as real + Fraction(body[ip + 1..]))
      else None;
    if magnitude.None? then None
    else Some(if Negative(t) then -magnitude.value else magnitude.value)
  }

  /** `parseInt(text)`: leading white space skipped, then as `IntegerPrefix`. */
  function ParseInt(s: string): Option<int> {
    IntegerPrefix(TrimStart(s))
  }

  /** An optional sign, then the longest run of digits; NaN (None) when
      there is none. */
  function IntegerPrefix(t: string): Option<int> {
    var body := Unsigned(t);
    var n := LeadingDigits(body);
    if n == 0 then None
    else
      var magnitude: int := DigitsValue(body[..n]);
      Some(if Negative(t) then -magnitude else magnitude)
  }

  /** 1 - 2^-54, the midpoint between 1 and the double just below it,
      1 - 2^-53. */
  const RoundingMidpoint: real := 1.0 - 1.0 / 18014398509481984.0

  /** `maxGames < 1`, a comparison with NaN being false. `Number` rounds the
      decimal to the nearest double, ties to even; rounding is monotone, 1
      is a double, and the midpoint below it rounds up to 1 (its even
      neighbour), so the rounded value is below one exactly when the decimal
      is below the midpoint. */
  predicate LessThanOne(text: string) {
    var v := NumberValue(text);
    v.Some? && v.value < RoundingMidpoint
  }

  /** The guard of `getPredictions` and the body it sends. */
  function ValidateForm(year: string, maxGames: string): (r: FormOutcome)
    ensures year == [] ==> r == ShowError(YearMissing)
    ensures year != [] && (maxGames == [] || LessThanOne(maxGames)) ==> r == ShowError(GamesInvalid)
    ensures r.Send? <==> year != [] && maxGames != [] && !LessThanOne(maxGames)
  {
    if year == [] then ShowError(YearMissing)
    else if maxGames == [] || LessThanOne(maxGames) then ShowError(GamesInvalid)
    else Send(RequestBody(ParseInt(year), ParseInt(maxGames)))
  }

  lemma LeadingDigitsUnique(s: string, n: nat)
    requires n <= |s| && AllDigits(s[..n]) && (n < |s| ==> !IsDigit(s[n]))
    ensures LeadingDigits(s) == n
    decreases n
  {
    if n > 0 {
      assert IsDigit(s[..n][0]);
      assert s[1..][..n - 1] == s[..n][1..];
      LeadingDigitsUnique(s[1..], n - 1);
    }
  }

  /** On every text whose number is not negative, `parseInt` reads the
      integer part of that number; below one it may instead read NaN, when
      no digit comes before the point (".5"). */
  lemma ParseIntAgreesWithNumber(s: string, v: real)
    requires NumberValue(s) == Some(v) && v >= 0.0
    ensures v >= 1.0 ==> ParseInt(s) == Some(v.Floor)
    ensures v < 1.0 ==> ParseInt(s) == Some(0) || ParseInt(s) == None
  {
    var u := TrimStart(s);
    var t := TrimEnd(u);
    var w := TrimmedTail(u);
    if t == [] {
      assert u == w;
    } else {
      IntegerPrefixPadded(t, w);
      IntegerPrefixOfDecimal(t, v);
    }
  }

  /** What `TrimEnd` removes: white space only. */
  lemma TrimmedTail(u: string) returns (w: string)
    ensures u == TrimEnd(u) + w
    ensures forall k :: 0 <= k < |w| ==> IsSpace(w[k])
  {
    var t := TrimEnd(u);
    w := u[|t|..];
    assert u == t + w;
    forall k | 0 <= k < |w| ensures IsSpace(w[k]) {
      assert w[k] == u[|t| + k];
    }
  }

  /** White space after a number does not change what `parseInt` reads. */
  lemma IntegerPrefixPadded(t: string, w: string)
    requires t != []
    requires forall k :: 0 <= k < |w| ==> IsSpace(w[k])
    ensures IntegerPrefix(t + w) == IntegerPrefix(t)
  {
    var u := t + w;
    assert u[0] == t[0];
    var bt, bu := Unsigned(t), Unsigned(u);
    assert bu == bt + w by {
      if t[0] == '-' || t[0] == '+' {
        assert bu == u[1..] == t[1..] + w;
      }
    }
    LeadingDigitsPadded(bt, w);
    var n := LeadingDigits(bt);
    assert bu[..n] == bt[..n];
  }

  /** On a decimal text whose value is not negative, the integer prefix is
      the value's integer part, or NaN when the text starts with the point. */
  lemma IntegerPrefixOfDecimal(t: string, v: real)
    requires DecimalValue(t) == Some(v) && v >= 0.0
    ensures v >= 1.0 ==> IntegerPrefix(t) == Some(v.Floor)
    ensures v < 1.0 ==> IntegerPrefix(t) == Some(0) || IntegerPrefix(t) == None
  {
    var bt := Unsigned(t);
    var ip := LeadingDigits(bt);
    if ip == |bt| && ip > 0 {
      assert bt[..ip] == bt;
      var m := DigitsValue(bt);
      assert v == if Negative(t) then -(m as real) else m as real;
      assert Negative(t) ==> m == 0;
      assert v.Floor == m;
    } else {
      assert bt[..0] == [];
      var whole := DigitsValue(bt[..ip]);
      var frac := Fraction(bt[ip + 1..]);
      assert v == if Negative(t) then -(whole as real + frac) else whole as real + frac;
      assert Negative(t) ==> whole == 0 && frac == 0.0;
      assert v.Floor == whole;
    }
  }

  /** Trailing white space does not extend a leading run of digits. */
  lemma LeadingDigitsPadded(s: string, w: string)
    requires forall k :: 0 <= k < |w| ==> IsSpace(w[k])
    ensures LeadingDigits(s + w) == LeadingDigits(s)
  {
    var n := LeadingDigits(s);
    assert (s + w)[..n] == s[..n];
    if n < |s| {
      assert (s + w)[n] == s[n];
    } else if w != [] {
      assert (s + w)[n] == w[0];
    }
    LeadingDigitsUnique(s + w, n);
  }

  /** What the guard lets through. Both fields are sent as `parseInt` reads
      them. An accepted count that `Number` can read is at least the
      rounding midpoint below one; from one upwards it is sent as its
      integer part, which is then at least one, and below one (a text such
      as "0.99999999999999999", which the browser rounds to 1) it is sent
      as 0 or null. A year that reads as a non-negative number is sent as
      its integer part, or null below one. */
  lemma SentValuesMatchInput(year: string, maxGames: string)
    requires ValidateForm(year, maxGames).Send?
    ensures var body := ValidateForm(year, maxGames).body;
      && body.year == ParseInt(year)
      && body.maxGames == ParseInt(maxGames)
      && (NumberValue(maxGames).Some? ==>
            var n := NumberValue(maxGames).value;
            && n >= RoundingMidpoint
            && (n >= 1.0 ==> body.maxGames == Some(n.Floor) && n.Floor >= 1)
            && (n < 1.0 ==> body.maxGames == Some(0) || body.maxGames == None))
      && (NumberValue(year).Some? && NumberValue(year).value >= 0.0 ==>
            var y := NumberValue(year).value;
            && (y >= 1.0 ==> body.year == Some(y.Floor))
            && (y < 1.0 ==> body.year == Some(0) || body.year == None))
  {
    if NumberValue(maxGames).Some? {
      ParseIntAgreesWithNumber(maxGames, NumberValue(maxGames).value);
    }
    if NumberValue(year).Some? && NumberValue(year).value >= 0.0 {
      ParseIntAgreesWithNumber(year, NumberValue(year).value);
    }
  }

  /** A count just below one passes the guard, because the browser rounds
      it to 1, and is sent as 0. */
  lemma CountJustBelowOneIsSentAsZero()
    ensures ValidateForm("2030", "0.99999999999999999")
         == Send(RequestBody(Some(2030), Some(0)))
  {
    CountNumberReading();
    CountIntegerReading();
    YearReading();
  }

  lemma CountNumberReading()
    ensures NumberValue("0.99999999999999999") == Some(99999999999999999.0 / 100000000000000000.0)
  {
    NinesFraction();
    assert "0.99999999999999999" == ['0', '.'] + "99999999999999999";
    PointDigitsNumber('0', "99999999999999999");
  }

  /** The number of a digit, a point and further digits. */
  lemma PointDigitsNumber(d: char, ds: string)
    requires IsDigit(d) && ds != [] && AllDigits(ds)
    ensures NumberValue([d, '.'] + ds) == Some((d as int - '0' as int) as real + Fraction(ds))
  {
    var t := [d, '.'] + ds;
    assert t[|t| - 1] == ds[|ds| - 1];
    UntrimmedNumber(t);
    PointDigitsDecimal(d, ds);
  }

  /** A text with no white space at either end is read as it stands. */
  lemma UntrimmedNumber(t: string)
    requires t != [] && !IsSpace(t[0]) && !IsSpace(t[|t| - 1])
    ensures NumberValue(t) == DecimalValue(t)
  {
    assert TrimStart(t) == t;
  }

  lemma PointDigitsDecimal(d: char, ds: string)
    requires IsDigit(d) && ds != [] && AllDigits(ds)
    ensures DecimalValue([d, '.'] + ds) == Some((d as int - '0' as int) as real + Fraction(ds))
  {
    var t := [d, '.'] + ds;
    assert Unsigned(t) == t && !Negative(t);
    LeadingDigitsUnique(t, 1);
    assert t[..1] == [d] && [d][..0] == [];
    assert DigitsValue(t[..1]) == d as int - '0' as int;
    assert t[2..] == ds;
  }

  lemma NinesFraction()
    ensures AllDigits("99999999999999999")
    ensures Fraction("99999999999999999") == 99999999999999999.0 / 100000000000000000.0
  {
    assert "99999999999999999" == seq(17, k => '9');
    NinesValue(17);
    Pow10Of17();
  }

  lemma CountIntegerReading()
    ensures ParseInt("0.99999999999999999") == Some(0)
  {
    var games := "0.99999999999999999";
    assert TrimStart(games) == games && Unsigned(games) == games;
    LeadingDigitsUnique(games, 1);
    assert games[..1] == "0" && "0"[..0] == [];
  }

  lemma YearReading()
    ensures ParseInt("2030") == Some(2030)
  {
    var year := "2030";
    assert TrimStart(year) == year && Unsigned(year) == year;
    LeadingDigitsUnique(year, 4);
    assert year[..4] == year;
    DigitsOfYear();
  }

  lemma DigitsOfYear()
    ensures DigitsValue("2030") == 2030
  {
    assert "2"[..0] == [];
    assert "20"[..1] == "2";
    assert "203"[..2] == "20";
    assert "2030"[..3] == "203";
  }

  /** n nines denote 10^n - 1. */
  lemma {:induction false} NinesValue(n: nat)
    ensures DigitsValue(seq(n, k => '9')) == Pow10(n) - 1
  {
    if n > 0 {
      var s := seq(n, k => '9');
      assert s[..n - 1] == seq(n - 1, k => '9');
      NinesValue(n - 1);
    }
  }

  lemma Pow10Of17()
    ensures Pow10(17) == 100000000000000000
  {
    assert Pow10(4) == 10000;
    assert Pow10(8) == 100000000;
    assert Pow10(12) == 1000000000000;
    assert Pow10(16) == 10000000000000000;
  }
}
