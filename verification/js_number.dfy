/** Decimal numerals as JavaScript writes them (`String(n)` for an integer)
    and reads them (`parseInt` with the default radix). */
module JsNumber {
  import opened Optional
  import opened JsText

  predicate IsDigit(c: char) {
    '0' <= c <= '9'
  }

  predicate AllDigits(s: string) {
    forall k :: 0 <= k < |s| ==> IsDigit(s[k])
  }

  function DigitValue(c: char): nat
    requires IsDigit(c)
  {
    c as int - '0' as int
  }

  function DigitChar(d: nat): (c: char)
    requires d < 10
    ensures IsDigit(c) && DigitValue(c) == d
  {
    ('0' as int + d) as char
  }

  /** The value of a string of decimal digits, most significant first. */
  function DecimalValue(ds: string): nat
    requires AllDigits(ds)
  {
    if |ds| == 0 then 0 else DecimalValue(ds[..|ds| - 1]) * 10 + DigitValue(ds[|ds| - 1])
  }

  /** The canonical decimal numeral of `n`, as `String(n)` writes it. */
  function ShowNat(n: nat): (r: string)
    ensures |r| >= 1 && AllDigits(r)
  {
    if n < 10 then [DigitChar(n)] else ShowNat(n / 10) + [DigitChar(n % 10)]
  }

  function ShowInt(n: int): (r: string)
    ensures |r| >= 1 && (r[0] == '-' || IsDigit(r[0])) && IsDigit(r[|r| - 1])
  {
    if n < 0 then "-" + ShowNat(-n) else ShowNat(n)
  }

  lemma {:induction false} DecimalValueOfShowNat(n: nat)
    ensures DecimalValue(ShowNat(n)) == n
  {
    if n >= 10 {
      DecimalValueOfShowNat(n / 10);
      var r := ShowNat(n);
      assert r[..|r| - 1] == ShowNat(n / 10);
    }
  }

  /** The longest prefix of `s` made of decimal digits. */
  function DigitPrefix(s: string): (r: string)
    ensures |r| <= |s| && r == s[..|r|] && AllDigits(r)
    ensures |r| < |s| ==> !IsDigit(s[|r|])
  {
    if |s| > 0 && IsDigit(s[0]) then [s[0]] + DigitPrefix(s[1..]) else ""
  }

  lemma {:induction false} DigitPrefixOfDigits(ds: string, t: string)
    requires AllDigits(ds)
    requires |t| == 0 || !IsDigit(t[0])
    ensures DigitPrefix(ds + t) == ds
  {
    if |ds| > 0 {
      assert (ds + t)[1..] == ds[1..] + t;
      DigitPrefixOfDigits(ds[1..], t);
    } else {
      assert ds + t == t;
    }
  }

  /** Splits off an optional leading sign: whether it was '-', and the rest. */
  function SignAndBody(t: string): (bool, string) {
    if |t| > 0 && t[0] == '-' then (true, t[1..])
    else if |t| > 0 && t[0] == '+' then (false, t[1..])
    else (false, t)
  }

  /** `parseInt(s)` with the default radix, for decimal input: skip leading
      whitespace, read an optional sign, then the longest run of digits;
      anything after the digits is ignored. `None` stands for NaN, which is
      what parseInt gives when no digit follows the sign. */
  function ParseInt(s: string): (r: Option<int>)
    ensures r.None? <==> (var b := SignAndBody(TrimStart(s)).1; |b| == 0 || !IsDigit(b[0]))
  {
    var signed := SignAndBody(TrimStart(s));
    var magnitude := LeadingNumeral(signed.1);
    if magnitude.Some? && signed.0 then Some(-magnitude.value) else magnitude
  }

  /** The value of the digit run at the start of `body`, if there is one. */
  function LeadingNumeral(body: string): (r: Option<int>)
    ensures r.None? <==> |body| == 0 || !IsDigit(body[0])
  {
    var ds := DigitPrefix(body);
    if |ds| == 0 then None else Some(DecimalValue(ds))
  }

  /** parseInt of a digit run followed by a non-digit reads the digit run. */
  lemma ParseIntOfDigits(ds: string, t: string)
    requires |ds| >= 1 && AllDigits(ds)
    requires |t| == 0 || !IsDigit(t[0])
    ensures ParseInt(ds + t).Some? && ParseInt(ds + t).value == DecimalValue(ds)
  {
    var s := ds + t;
    assert s[0] == ds[0];
    assert !IsSpace(s[0]);
    assert TrimStart(s) == s;
    assert SignAndBody(s).1 == ds + t;
    DigitPrefixOfDigits(ds, t);
  }

  /** The same after a minus sign, which negates the value. */
  lemma ParseIntOfNegative(ds: string, t: string)
    requires |ds| >= 1 && AllDigits(ds)
    requires |t| == 0 || !IsDigit(t[0])
    ensures ParseInt("-" + ds + t).Some? && ParseInt("-" + ds + t).value == -(DecimalValue(ds) as int)
  {
    var body := ds + t;
    assert "-" + ds + t == "-" + body;
    MinusSign(body);
    DigitPrefixOfDigits(ds, t);
    assert LeadingNumeral(body) == Some(DecimalValue(ds));
  }

  /** A leading minus is read as the sign, the rest as the body. */
  lemma MinusSign(body: string)
    ensures TrimStart("-" + body) == "-" + body
    ensures SignAndBody("-" + body) == (true, body)
  {
    var s := "-" + body;
    assert s[0] == '-' && !IsSpace(s[0]);
    assert s[1..] == body;
  }

  /** parseInt of a single character that is no blank, sign or digit is NaN. */
  lemma ParseIntOfLetter(letter: char)
    requires !IsSpace(letter) && !IsDigit(letter) && letter != '-' && letter != '+'
    ensures ParseInt([letter]).None?
  {
    assert TrimStart([letter]) == [letter];
    assert SignAndBody([letter]).1 == [letter];
  }

  /** parseInt reads back what String(n) writes, whatever non-digit text
      follows it. */
  lemma ParseIntOfShowInt(n: int, t: string)
    requires |t| == 0 || !IsDigit(t[0])
    ensures ParseInt(ShowInt(n) + t).Some? && ParseInt(ShowInt(n) + t).value == n
  {
    if n < 0 {
      DecimalValueOfShowNat(-n);
      ParseIntOfNegative(ShowNat(-n), t);
    } else {
      DecimalValueOfShowNat(n);
      ParseIntOfDigits(ShowNat(n), t);
    }
  }
}
