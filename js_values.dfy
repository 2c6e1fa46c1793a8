/** The JavaScript view of a claim record as the dashboard receives it from
    `res.json()`: scalar JSON values, property lookup, truthiness and the
    ToNumber coercion that relational operators apply. */
module JsValues {
  import opened Wrappers

  /** A scalar JSON value. Numbers are finite (JSON has no NaN or Infinity). */
  datatype Json = JNull | JBool(b: bool) | JNum(x: real) | JStr(s: string)

  /** One property of a decoded JSON object. */
  datatype Field = Field(key: string, value: Json)

  /** A decoded JSON object: its properties in enumeration order. */
  type Record = seq<Field>

  /** `r[key]`: the value of the first property named `key`; `None` is `undefined`. */
  function Get(r: Record, key: string): (v: Option<Json>)
    ensures v.None? <==> forall i :: 0 <= i < |r| ==> r[i].key != key
    ensures v.Some? ==> exists i :: 0 <= i < |r| && r[i] == Field(key, v.value)
  {
    if r == [] then None
    else if r[0].key == key then Some(r[0].value)
    else Get(r[1..], key)
  }

  /** `Object.keys(r)`: the property names in enumeration order. */
  function Keys(r: Record): (ks: seq<string>)
    ensures |ks| == |r|
    ensures forall i :: 0 <= i < |r| ==> ks[i] == r[i].key
  {
    if r == [] then [] else [r[0].key] + Keys(r[1..])
  }

  /** JavaScript truthiness of a property value: the falsy values are exactly
      `undefined`, `null`, `false`, 0 and the empty string. */
  predicate Truthy(v: Option<Json>): (t: bool)
    ensures !t <==> v == None || v == Some(JNull) || v == Some(JBool(false)) || v == Some(JNum(0.0)) || v == Some(JStr(""))
  {
    match v
    case None => false
    case Some(JNull) => false
    case Some(JBool(b)) => b
    case Some(JNum(x)) => x != 0.0
    case Some(JStr(s)) => s != ""
  }

  /** ECMAScript ToNumber of a property value; `None` stands for NaN.
      `undefined` is NaN, every other non-string value is a number, and for
      those a value is truthy exactly when its number is not 0. */
  function ToNumber(v: Option<Json>): (n: Option<real>)
    ensures v.None? ==> n.None?
    ensures v.Some? && !v.value.JStr? ==> n.Some? && (Truthy(v) <==> n.value != 0.0)
    ensures v == Some(JStr("")) ==> n == Some(0.0)
  {
    match v
    case None => None
    case Some(JNull) => Some(0.0)
    case Some(JBool(b)) => Some(if b then 1.0 else 0.0)
    case Some(JNum(x)) => Some(x)
    case Some(JStr(s)) => StringToNumber(s)
  }

  /** StringToNumber for decimal literals: an optional sign, digits, an optional
      point and fraction digits, at least one digit in all. The empty string is
      0, a string of digits is the number they spell, and a non-empty text
      without any digit is NaN. */
  function StringToNumber(s: string): (n: Option<real>)
    ensures s == "" ==> n == Some(0.0)
    ensures s != "" && AllDigits(s) ==> n == Some(DigitsValue(s) as real)
    ensures s != "" && n.Some? ==> exists i :: 0 <= i < |s| && IsDigit(s[i])
  {
    if s == "" then Some(0.0)
    else
      UnsignedDecimalDigits(s);
      UnsignedDecimalDigits(s[1..]);
      DigitInTail(s);
      if s[0] == '-' then
      match UnsignedDecimal(s[1..])
      case Some(x) => Some(-x)
      case None => None
    else if s[0] == '+' then UnsignedDecimal(s[1..])
    else UnsignedDecimal(s)
  }

  predicate IsDigit(c: char) { '0' <= c <= '9' }

  predicate AllDigits(s: string) { forall i :: 0 <= i < |s| ==> IsDigit(s[i]) }

  /** The value of a string of decimal digits, most significant first. */
  function DigitsValue(s: string): nat
    requires AllDigits(s)
  {
    if s == [] then 0 else 10 * DigitsValue(s[..|s| - 1]) + (s[|s| - 1] as int - '0' as int)
  }

  function Pow10(n: nat): (p: nat)
    ensures p >= 1
  {
    if n == 0 then 1 else 10 * Pow10(n - 1)
  }

  /** The position of the first '.', or |s| when there is none. */
  function DotIndex(s: string): (i: nat)
    ensures i <= |s|
    ensures i < |s| ==> s[i] == '.'
    ensures forall j :: 0 <= j < i ==> s[j] != '.'
  {
    if s == [] then 0 else if s[0] == '.' then 0 else 1 + DotIndex(s[1..])
  }

  /** An unsigned decimal literal `digits[.digits]`, or NaN. */
  function UnsignedDecimal(s: string): Option<real>
  {
    var i := DotIndex(s);
    var whole := s[..i];
    var frac := if i < |s| then s[i + 1..] else "";
    if AllDigits(whole) && AllDigits(frac) && |whole| + |frac| > 0 then
      Some(DigitsValue(whole) as real + DigitsValue(frac) as real / Pow10(|frac|) as real)
    else None
  }

  /** A string of digits reads as the number it spells. */
  lemma DigitsReadBack(t: string)
    requires t != "" && AllDigits(t)
    ensures UnsignedDecimal(t) == Some(DigitsValue(t) as real)
  {
    var i := DotIndex(t);
    assert i == |t| by {
      assert i < |t| ==> IsDigit(t[i]);
    }
    assert t[..i] == t;
  }

  /** A literal that reads as a number holds a digit. */
  lemma ReadableHasDigit(t: string)
    requires UnsignedDecimal(t).Some?
    ensures exists i :: 0 <= i < |t| && IsDigit(t[i])
  {
    var i := DotIndex(t);
    var whole := t[..i];
    var frac := if i < |t| then t[i + 1..] else "";
    assert AllDigits(whole) && AllDigits(frac) && |whole| + |frac| > 0;
    if i > 0 {
      assert IsDigit(whole[0]) && whole[0] == t[0];
    } else {
      assert i < |t|;
      assert IsDigit(frac[0]) && frac[0] == t[i + 1];
    }
  }

  /** Both facts, whenever they apply. */
  lemma UnsignedDecimalDigits(t: string)
    ensures t != "" && AllDigits(t) ==> UnsignedDecimal(t) == Some(DigitsValue(t) as real)
    ensures UnsignedDecimal(t).Some? ==> exists i :: 0 <= i < |t| && IsDigit(t[i])
  {
    if t != "" && AllDigits(t) {
      DigitsReadBack(t);
    }
    if UnsignedDecimal(t).Some? {
      ReadableHasDigit(t);
    }
  }

  /** A digit after the first character is a digit of the whole string. */
  lemma DigitInTail(s: string)
    requires s != ""
    ensures (exists i :: 0 <= i < |s[1..]| && IsDigit(s[1..][i])) ==> exists i :: 0 <= i < |s| && IsDigit(s[i])
  {
    if exists i :: 0 <= i < |s[1..]| && IsDigit(s[1..][i]) {
      var i :| 0 <= i < |s[1..]| && IsDigit(s[1..][i]);
      assert IsDigit(s[i + 1]);
    }
  }

  /** The decimal numeral of a natural number, as `String(n)` writes it. */
  function DecimalText(n: nat): (s: string)
    ensures |s| >= 1 && AllDigits(s)
  {
    if n < 10 then [('0' as int + n) as char]
    else DecimalText(n / 10) + [('0' as int + n % 10) as char]
  }

  lemma {:induction false} DecimalTextValue(n: nat)
    ensures DigitsValue(DecimalText(n)) == n
  {
    var s := DecimalText(n);
    if n >= 10 {
      DecimalTextValue(n / 10);
      assert s[..|s| - 1] == DecimalText(n / 10);
    }
  }

  /** Coercion reads back what `String(n)` writes, with or without a minus sign. */
  lemma DecimalTextToNumber(n: nat)
    ensures StringToNumber(DecimalText(n)) == Some(n as real)
    ensures StringToNumber("-" + DecimalText(n)) == Some(-(n as real))
  {
    var s := DecimalText(n);
    DecimalTextValue(n);
    assert DotIndex(s) == |s| by {
      if DotIndex(s) < |s| {
        assert false;
      }
    }
    assert s[..|s|] == s;
    assert ("-" + s)[1..] == s;
  }

  /** A score that arrives as text with a fraction is coerced to its value. */
  lemma FractionTextToNumber()
    ensures StringToNumber("6.5") == Some(6.5)
    ensures StringToNumber("abc") == None
  {
    assert DotIndex("6.5") == 1;
    assert "6.5"[..1] == "6";
    assert "6.5"[2..] == "5";
    assert DigitsValue("6") == 6 by { assert "6"[..0] == ""; }
    assert DigitsValue("5") == 5 by { assert "5"[..0] == ""; }
    assert DotIndex("abc") == 3;
    assert !IsDigit("abc"[0]);
  }
}
