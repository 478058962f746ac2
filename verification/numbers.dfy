/**
  Decimal integers as the bot reads and writes them: Python's `int(text)` (base 10)
  and `str(n)` / f-string formatting of an `int`.
 */
module Numbers {
  import opened Wrappers
  import opened Text

  predicate IsDigit(c: char) {
    '0' <= c <= '9'
  }

  function DigitValue(c: char): (d: int)
    requires IsDigit(c)
    ensures 0 <= d < 10
  {
    c as int - '0' as int
  }

  function DigitChar(d: int): (c: char)
    requires 0 <= d < 10
    ensures IsDigit(c) && DigitValue(c) == d
  {
    ('0' as int + d) as char
  }

  predicate AllDigits(s: string) {
    forall i | 0 <= i < |s| :: IsDigit(s[i])
  }

  /** `str(n)` for a non-negative `n`: the shortest decimal numeral. */
  function NatToString(n: nat): (s: string)
    ensures |s| >= 1 && AllDigits(s)
    ensures |s| > 1 ==> s[0] != '0'
    decreases n
  {
    if n < 10 then [DigitChar(n)] else NatToString(n / 10) + [DigitChar(n % 10)]
  }

  /** `str(n)`: a minus sign followed by the numeral of `-n` for negative `n`. */
  function IntToString(n: int): (s: string)
    ensures |s| >= 1
    ensures s[0] == '-' <==> n < 0
    ensures n >= 0 ==> AllDigits(s)
    ensures n < 0 ==> AllDigits(s[1..]) && |s| >= 2
  {
    if n < 0 then "-" + NatToString(-n) else NatToString(n)
  }

  /** The value of a numeral made of digits only, most significant digit first. */
  function DigitsValue(ds: string): nat
    requires AllDigits(ds)
    decreases |ds|
  {
    if ds == [] then 0 else 10 * DigitsValue(ds[..|ds| - 1]) + DigitValue(ds[|ds| - 1])
  }

  predicate IsDigitOrSeparator(c: char) {
    IsDigit(c) || c == '_'
  }

  /** The digits of a literal body once its `_` separators are dropped. */
  function DropUnderscores(b: string): (ds: string)
    ensures (forall i | 0 <= i < |b| :: IsDigitOrSeparator(b[i])) ==> AllDigits(ds)
    ensures '_' !in b ==> ds == b
    decreases |b|
  {
    if b == [] then []
    else if b[|b| - 1] == '_' then DropUnderscores(b[..|b| - 1])
    else
      var front := b[..|b| - 1];
      assert b == front + [b[|b| - 1]];
      DropUnderscores(front) + [b[|b| - 1]]
  }

  /** A `_` at position `i` of a literal body is followed by a digit. */
  predicate SeparatorOk(b: string, i: int)
    requires 0 <= i < |b| - 1
  {
    b[i] == '_' ==> IsDigit(b[i + 1])
  }

  /** What Python's `int()` accepts after the sign: digits, where a single `_`
      may stand between two digits. */
  predicate IsDigitBody(b: string) {
    && |b| >= 1
    && IsDigit(b[0])
    && IsDigit(b[|b| - 1])
    && (forall i | 0 <= i < |b| :: IsDigitOrSeparator(b[i]))
    && (forall i | 0 <= i < |b| - 1 :: SeparatorOk(b, i))
  }

  function BodyValue(b: string): nat
    requires IsDigitBody(b)
  {
    DigitsValue(DropUnderscores(b))
  }

  /** `int(s)` in base 10: surrounding whitespace is ignored, then an optional sign and
      a digit body; `None` stands for the `ValueError` Python raises otherwise. */
  function ParseInt(s: string): (r: Option<int>)
    ensures r.Some? ==> !IsBlank(s)
    ensures IsBlank(s) ==> r == None
  {
    var t := Strip(s);
    if |t| >= 1 && (t[0] == '+' || t[0] == '-') then
      if IsDigitBody(t[1..]) then
        var v: int := BodyValue(t[1..]);
        Some(if t[0] == '-' then -v else v)
      else None
    else if IsDigitBody(t) then Some(BodyValue(t))
    else None
  }

  /** Appending a digit multiplies by ten and adds it. */
  lemma DigitsValueSnoc(ds: string, c: char)
    requires AllDigits(ds) && IsDigit(c)
    ensures AllDigits(ds + [c])
    ensures DigitsValue(ds + [c]) == 10 * DigitsValue(ds) + DigitValue(c)
  {
    assert (ds + [c])[..|ds|] == ds;
  }

  /** Printing then reading back a natural number gives it back. */
  lemma {:induction false} NatToStringValue(n: nat)
    ensures DigitsValue(NatToString(n)) == n
    decreases n
  {
    if n < 10 {
      assert NatToString(n) == [] + [DigitChar(n)];
      DigitsValueSnoc([], DigitChar(n));
    } else {
      NatToStringValue(n / 10);
      DigitsValueSnoc(NatToString(n / 10), DigitChar(n % 10));
    }
  }

  /** A printed natural number is a literal body denoting that number. */
  lemma NumeralIsBody(m: nat)
    ensures IsDigitBody(NatToString(m))
    ensures BodyValue(NatToString(m)) == m
  {
    var digits := NatToString(m);
    assert '_' !in digits;
    NatToStringValue(m);
  }

  /** A printed integer has no surrounding whitespace to strip. */
  lemma StripOfNumeral(n: int)
    ensures Strip(IntToString(n)) == IntToString(n)
  {
    var s := IntToString(n);
    assert !IsSpace(s[0]);
    assert IsDigit(s[|s| - 1]);
  }

  /** Round trip: `int(str(n)) == n` for every integer. */
  lemma ParseIntToString(n: int)
    ensures ParseInt(IntToString(n)) == Some(n)
  {
    var s := IntToString(n);
    StripOfNumeral(n);
    var m: nat := if n < 0 then -n else n;
    NumeralIsBody(m);
    if n < 0 {
      assert s[1..] == NatToString(m);
    } else {
      assert s == NatToString(m);
    }
  }
}
