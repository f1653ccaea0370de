/** The text of the timeout setting: how JavaScript's parseInt(text, 10) reads it,
    how a number is written back into it, and the arrow-key rule that adjusts it. */
module TimeoutText {

  /** What parseInt returns: an integer, or NaN when no digit is found.
      JavaScript's -0 (from "-0") is folded into 0: it is falsy and prints as "0". */
  datatype Parsed = NaN | Num(value: int)

  /** The duration used when the setting parses to 0 or NaN. */
  const DefaultTimeout: int := 1000

  /** The keys the keydown handler looks at; every other key is ignored. */
  datatype Key = ArrowUp | ArrowDown | OtherKey

  /** JavaScript's WhiteSpace and LineTerminator code points (ECMA-262, sections 12.2
      and 12.3), which parseInt skips before the number. */
  predicate IsJsSpace(c: char) {
    || c == '\U{9}' || c == '\U{A}' || c == '\U{B}' || c == '\U{C}' || c == '\U{D}'
    || c == ' ' || c == '\U{A0}' || c == '\U{1680}' || ('\U{2000}' <= c <= '\U{200A}')
    || c == '\U{2028}' || c == '\U{2029}' || c == '\U{202F}' || c == '\U{205F}'
    || c == '\U{3000}' || c == '\U{FEFF}'
  }

  predicate IsDigit(c: char) {
    '0' <= c <= '9'
  }

  predicate AllDigits(s: string) {
    forall i :: 0 <= i < |s| ==> IsDigit(s[i])
  }

  /** The text with its leading white space removed. */
  function TrimStart(s: string): string {
    if s != [] && IsJsSpace(s[0]) then TrimStart(s[1..]) else s
  }

  /** TrimStart keeps a suffix of the text, drops only white space, and stops at the first
      character that is not white space. */
  lemma {:induction false} TrimStartDropsSpace(s: string)
    ensures var r := TrimStart(s);
      && |r| <= |s| && r == s[|s| - |r|..]
      && (forall i :: 0 <= i < |s| - |r| ==> IsJsSpace(s[i]))
      && (r == [] || !IsJsSpace(r[0]))
  {
    if s != [] && IsJsSpace(s[0]) {
      TrimStartDropsSpace(s[1..]);
    }
  }

  /** The longest prefix of the text made of decimal digits. */
  function LeadingDigits(s: string): (r: string)
    ensures AllDigits(r)
  {
    if s != [] && IsDigit(s[0]) then [s[0]] + LeadingDigits(s[1..]) else []
  }

  /** LeadingDigits is a prefix of the text followed by the end of the text or by a
      character that is not a digit. */
  lemma {:induction false} LeadingDigitsMaximal(s: string)
    ensures var r := LeadingDigits(s);
      && |r| <= |s| && r == s[..|r|]
      && (|r| == |s| || !IsDigit(s[|r|]))
  {
    if s != [] && IsDigit(s[0]) {
      LeadingDigitsMaximal(s[1..]);
    }
  }

  function DigitValue(c: char): (d: nat)
    requires IsDigit(c)
    ensures d < 10
  {
    (c as int) - ('0' as int)
  }

  function DigitChar(d: nat): (c: char)
    requires d < 10
    ensures IsDigit(c) && DigitValue(c) == d
  {
    (('0' as int) + d) as char
  }

  /** The value of a digit string read in base 10, most significant digit first. */
  function DigitsValue(ds: string): nat
    requires AllDigits(ds)
  {
    if ds == [] then 0 else DigitsValue(ds[..|ds| - 1]) * 10 + DigitValue(ds[|ds| - 1])
  }

  /** parseInt(s, 10): skip leading white space, take an optional sign, then the longest
      run of decimal digits; NaN when that run is empty. Anything after the digits is ignored. */
  function ParseInt(s: string): Parsed {
    ParseTrimmed(TrimStart(s))
  }

  /** parseInt on text that no longer starts with white space. */
  function ParseTrimmed(u: string): Parsed {
    var negative := u != [] && u[0] == '-';
    var body := if u != [] && (u[0] == '-' || u[0] == '+') then u[1..] else u;
    var ds := LeadingDigits(body);
    var magnitude: int := if ds == [] then 0 else DigitsValue(ds);
    if ds == [] then NaN
    else if negative then Num(-magnitude)
    else Num(magnitude)
  }

  /** Decimal digits of a natural number, without leading zeros. */
  function NatToString(n: nat): (r: string)
    ensures r != [] && AllDigits(r)
    ensures |r| > 1 ==> r[0] != '0'
  {
    if n < 10 then [DigitChar(n)] else NatToString(n / 10) + [DigitChar(n % 10)]
  }

  /** JavaScript's conversion of a number to the text stored in the input. */
  function NumberToString(v: Parsed): string {
    match v
    case NaN => "NaN"
    case Num(n) => if n < 0 then "-" + NatToString(-n) else NatToString(n)
  }

  lemma {:induction false} DigitsValueOfNatToString(n: nat)
    ensures DigitsValue(NatToString(n)) == n
  {
    if n >= 10 {
      var r := NatToString(n);
      assert r[..|r| - 1] == NatToString(n / 10);
      DigitsValueOfNatToString(n / 10);
    }
  }

  /** Reading back a number the app has written gives that number, and text that follows
      the digits without starting with a digit does not change it (parseInt("1000ms") is 1000). */
  lemma ParseIntOfNumberToString(v: Parsed, rest: string)
    requires rest == [] || !IsDigit(rest[0])
    ensures ParseInt(NumberToString(v) + rest) == v
  {
    match v
    case NaN => ParseIntOfNaN(rest);
    case Num(n) => ParseIntOfInt(n, rest);
  }

  lemma ParseIntOfNaN(rest: string)
    ensures ParseInt("NaN" + rest) == NaN
  {
    var s := "NaN" + rest;
    assert s[0] == 'N';
    assert TrimStart(s) == s;
    assert LeadingDigits(s) == [];
  }

  lemma ParseIntOfInt(n: int, rest: string)
    requires rest == [] || !IsDigit(rest[0])
    ensures ParseInt(NumberToString(Num(n)) + rest) == Num(n)
  {
    if n < 0 {
      ParseIntOfNegative(-n, rest);
    } else {
      ParseIntOfNonNegative(n, rest);
    }
  }

  lemma ParseIntOfNegative(m: nat, rest: string)
    requires m > 0 && (rest == [] || !IsDigit(rest[0]))
    ensures ParseInt(NumberToString(Num(-(m as int))) + rest) == Num(-(m as int))
  {
    var ds := NatToString(m);
    DigitsValueOfNatToString(m);
    assert NumberToString(Num(-(m as int))) == "-" + ds;
    assert NumberToString(Num(-(m as int))) + rest == "-" + (ds + rest);
    ParseIntSigned(ds, rest);
  }

  lemma ParseIntOfNonNegative(n: nat, rest: string)
    requires rest == [] || !IsDigit(rest[0])
    ensures ParseInt(NumberToString(Num(n)) + rest) == Num(n)
  {
    var ds := NatToString(n);
    DigitsValueOfNatToString(n);
    assert NumberToString(Num(n)) + rest == ds + rest;
    ParseIntUnsigned(ds, rest);
  }

  lemma ParseIntUnsigned(ds: string, rest: string)
    requires ds != [] && AllDigits(ds) && (rest == [] || !IsDigit(rest[0]))
    ensures ParseInt(ds + rest) == Num(DigitsValue(ds))
  {
    LeadingDigitsOfDigits(ds, rest);
    var s := ds + rest;
    assert s[0] == ds[0];
    assert !IsJsSpace(s[0]);
    assert TrimStart(s) == s;
    assert ParseTrimmed(s) == Num(DigitsValue(ds));
  }

  lemma ParseIntSigned(ds: string, rest: string)
    requires ds != [] && AllDigits(ds) && (rest == [] || !IsDigit(rest[0]))
    ensures ParseInt("-" + (ds + rest)) == Num(-(DigitsValue(ds) as int))
  {
    LeadingDigitsOfDigits(ds, rest);
    var s := "-" + (ds + rest);
    assert s[0] == '-';
    assert TrimStart(s) == s;
    assert s[1..] == ds + rest;
    assert ParseTrimmed(s) == Num(-(DigitsValue(ds) as int));
  }

  lemma {:induction false} LeadingDigitsOfDigits(ds: string, rest: string)
    requires AllDigits(ds)
    requires rest == [] || !IsDigit(rest[0])
    ensures LeadingDigits(ds + rest) == ds
  {
    if ds != [] {
      assert (ds + rest)[1..] == ds[1..] + rest;
      LeadingDigitsOfDigits(ds[1..], rest);
    }
  }

  /** Leading white space never changes what parseInt reads. */
  lemma ParseIntSkipsSpace(ws: string, s: string)
    requires forall i :: 0 <= i < |ws| ==> IsJsSpace(ws[i])
    ensures ParseInt(ws + s) == ParseInt(s)
  {
    TrimStartSkipsSpace(ws, s);
  }

  lemma {:induction false} TrimStartSkipsSpace(ws: string, s: string)
    requires forall i :: 0 <= i < |ws| ==> IsJsSpace(ws[i])
    ensures TrimStart(ws + s) == TrimStart(s)
  {
    if ws != [] {
      assert (ws + s)[0] == ws[0];
      assert (ws + s)[1..] == ws[1..] + s;
      TrimStartSkipsSpace(ws[1..], s);
    } else {
      assert ws + s == s;
    }
  }

  /** The duration stopDrawing arms the timer with: the parsed setting, or the default
      when it parses to 0 or NaN (the `|| 1000` of the source). Never 0. */
  function TimeoutDuration(text: string): (d: int)
    ensures d != 0
    ensures ParseInt(text).Num? && ParseInt(text).value != 0 ==> d == ParseInt(text).value
    ensures ParseInt(text) == NaN || ParseInt(text) == Num(0) ==> d == DefaultTimeout
  {
    match ParseInt(text)
    case NaN => DefaultTimeout
    case Num(n) => if n == 0 then DefaultTimeout else n
  }

  /** A non-zero number written into the setting is the duration used; 0 and NaN give the default. */
  lemma DurationOfWrittenNumber(v: Parsed)
    ensures TimeoutDuration(NumberToString(v)) == if v.Num? && v.value != 0 then v.value else DefaultTimeout
  {
    ParseIntOfNumberToString(v, []);
    assert NumberToString(v) + [] == NumberToString(v);
  }

  /** The text the setting holds after a keydown outside the input itself:
      ArrowUp writes the parsed value plus 50 (NaN stays NaN); ArrowDown writes the
      parsed value minus 50 only when it is above 100 and otherwise leaves the text alone. */
  function AfterKey(text: string, key: Key): string {
    match key
    case ArrowUp =>
      NumberToString(match ParseInt(text) case NaN => NaN case Num(n) => Num(n + 50))
    case ArrowDown =>
      (match ParseInt(text)
       case Num(n) => if n > 100 then NumberToString(Num(n - 50)) else text
       case NaN => text)
    case OtherKey => text
  }

  /** ArrowUp raises the setting by exactly 50; an unreadable setting stays unreadable. */
  lemma ArrowUpAddsFifty(text: string)
    ensures ParseInt(AfterKey(text, ArrowUp)) ==
      match ParseInt(text) case NaN => NaN case Num(n) => Num(n + 50)
  {
    var v := match ParseInt(text) case NaN => NaN case Num(n) => Num(n + 50);
    ParseIntOfNumberToString(v, []);
    assert NumberToString(v) + [] == NumberToString(v);
  }

  /** ArrowDown lowers the setting by 50 exactly when it is above 100, and leaves it otherwise. */
  lemma ArrowDownLowersAboveHundred(text: string)
    ensures ParseInt(AfterKey(text, ArrowDown)) ==
      match ParseInt(text) case NaN => NaN case Num(n) => if n > 100 then Num(n - 50) else Num(n)
  {
    match ParseInt(text)
    case NaN =>
    case Num(n) =>
      if n > 100 {
        ParseIntOfNumberToString(Num(n - 50), []);
        assert NumberToString(Num(n - 50)) + [] == NumberToString(Num(n - 50));
      }
  }

  /** Hence ArrowDown never takes a setting of 51 or more below 51, and never raises it. */
  lemma ArrowDownFloor(text: string, n: int)
    requires ParseInt(text) == Num(n)
    ensures ParseInt(AfterKey(text, ArrowDown)).Num?
    ensures var m := ParseInt(AfterKey(text, ArrowDown)).value;
      m <= n && (n >= 51 ==> m >= 51) && (m < n <==> n > 100)
  {
    ArrowDownLowersAboveHundred(text);
  }
}
