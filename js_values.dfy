/** JavaScript values as the components handle them (`any` objects from JSON
    responses, form objects, parsed local-storage entries), with the ECMAScript
    rules the components rely on: truthiness, optional property access,
    `Number(...)` and `String(...)`. Numbers are integers in this model. */
module JsValues {

  datatype Option<+T> = None | Some(value: T)

  datatype JsValue =
    | Undefined
    | Null
    | Bool(b: bool)
    | Num(n: int)
    | Str(s: string)
    | Obj(fields: map<string, JsValue>)

  /** ECMAScript ToBoolean: what `if (v)` and `!v` test. */
  predicate Truthy(v: JsValue)
  {
    match v
    case Undefined => false
    case Null => false
    case Bool(b) => b
    case Num(n) => n != 0
    case Str(s) => s != ""
    case Obj(_) => true
  }

  /** `v?.key`: the property of an object, `undefined` for anything else. */
  function Member(v: JsValue, key: string): JsValue
  {
    if v.Obj? && key in v.fields then v.fields[key] else Undefined
  }

  /** The value `localStorage.getItem` hands back: a string or `null`. */
  function FromItem(item: Option<string>): JsValue
  {
    match item
    case None => Null
    case Some(s) => Str(s)
  }

  /** A stored item that passes `if (item)`: present and not the empty string. */
  predicate Present(item: Option<string>)
  {
    Truthy(FromItem(item))
  }

  lemma PresentMeansNonEmpty(item: Option<string>)
    ensures Present(item) <==> item.Some? && item.value != ""
  {
  }

  /** `s.length`: the number of UTF-16 code units, so a character outside
      the Basic Multilingual Plane (an emoji, say) counts twice. */
  function JsLength(s: string): (n: nat)
    ensures |s| <= n <= 2 * |s|
    ensures (forall i | 0 <= i < |s| :: s[i] < '\U{10000}') ==> n == |s|
  {
    if s == [] then 0 else (if s[0] < '\U{10000}' then 1 else 2) + JsLength(s[1..])
  }

  /** Lengths add up under concatenation. */
  lemma {:induction false} JsLengthAppend(a: string, b: string)
    ensures JsLength(a + b) == JsLength(a) + JsLength(b)
  {
    if a != [] {
      JsLengthAppend(a[1..], b);
      assert (a + b)[1..] == a[1..] + b;
    } else {
      assert a + b == b;
    }
  }

  /** The code points that ECMAScript counts as WhiteSpace or LineTerminator:
      the class `\s` of a regular expression and the blanks `Number()` trims. */
  predicate IsJsWhiteSpace(c: char)
  {
    || c == '\t' || c == '\n' || c == '\U{B}' || c == '\U{C}' || c == '\r'
    || c == ' ' || c == '\U{A0}' || c == '\U{1680}'
    || ('\U{2000}' <= c <= '\U{200A}')
    || c == '\U{2028}' || c == '\U{2029}' || c == '\U{202F}' || c == '\U{205F}'
    || c == '\U{3000}' || c == '\U{FEFF}'
  }

  function TrimStart(s: string): (r: string)
    ensures |r| <= |s| && r == s[|s| - |r|..]
    ensures r == "" || !IsJsWhiteSpace(r[0])
    ensures forall i | 0 <= i < |s| - |r| :: IsJsWhiteSpace(s[i])
  {
    if s != "" && IsJsWhiteSpace(s[0]) then TrimStart(s[1..]) else s
  }

  function TrimEnd(s: string): (r: string)
    ensures |r| <= |s| && r == s[..|r|]
    ensures r == "" || !IsJsWhiteSpace(r[|r| - 1])
    ensures forall i | |r| <= i < |s| :: IsJsWhiteSpace(s[i])
  {
    if s != "" && IsJsWhiteSpace(s[|s| - 1]) then TrimEnd(s[..|s| - 1]) else s
  }

  predicate IsDigit(c: char)
  {
    '0' <= c <= '9'
  }

  predicate IsDigits(s: string)
  {
    s != "" && forall i | 0 <= i < |s| :: IsDigit(s[i])
  }

  function DigitValue(c: char): nat
    requires IsDigit(c)
  {
    (c as int) - ('0' as int)
  }

  /** The value of a run of decimal digits, most significant first. */
  function DecimalValue(s: string): nat
    requires forall i | 0 <= i < |s| :: IsDigit(s[i])
  {
    if s == "" then 0 else 10 * DecimalValue(s[..|s| - 1]) + DigitValue(s[|s| - 1])
  }

  /** The decimal spelling of a natural number, as `String(n)` writes it. */
  function NatToDecimal(n: nat): (r: string)
    ensures IsDigits(r)
    ensures r[0] != '0' || n == 0
  {
    var last := ['0' + (n % 10) as char];
    if n < 10 then last else NatToDecimal(n / 10) + last
  }

  /** `Number(s)` for a string: blanks are trimmed, the empty string is 0,
      an optionally signed run of decimal digits is its value, and every other
      text is read as NaN (None). */
  function StringToNumber(s: string): Option<int>
  {
    var t := TrimEnd(TrimStart(s));
    if t == "" then Some(0)
    else if t[0] == '-' && IsDigits(t[1..]) then Some(0 - DecimalValue(t[1..]) as int)
    else if t[0] == '+' && IsDigits(t[1..]) then Some(DecimalValue(t[1..]))
    else if IsDigits(t) then Some(DecimalValue(t))
    else None
  }

  /** `Number(v)`; None stands for NaN. */
  function ToNumber(v: JsValue): Option<int>
  {
    match v
    case Undefined => None
    case Null => Some(0)
    case Bool(b) => Some(if b then 1 else 0)
    case Num(n) => Some(n)
    case Str(s) => StringToNumber(s)
    case Obj(_) => None
  }

  /** `String(v)`, which is also what `localStorage.setItem` and a template
      literal make of a value. */
  function ToJsString(v: JsValue): string
  {
    match v
    case Undefined => "undefined"
    case Null => "null"
    case Bool(b) => if b then "true" else "false"
    case Num(n) => if n < 0 then "-" + NatToDecimal(-n) else NatToDecimal(n)
    case Str(s) => s
    case Obj(_) => "[object Object]"
  }

  /** A truthy value never becomes the empty string, so storing it leaves an
      item that `if (item)` accepts. */
  lemma TruthyHasText(v: JsValue)
    requires Truthy(v)
    ensures ToJsString(v) != ""
  {
  }

  lemma {:induction false} DecimalRoundTrip(n: nat)
    ensures DecimalValue(NatToDecimal(n)) == n
  {
    var last := ['0' + (n % 10) as char];
    if n >= 10 {
      var prefix := NatToDecimal(n / 10);
      DecimalRoundTrip(n / 10);
      assert (prefix + last)[..|prefix + last| - 1] == prefix;
    }
  }

  /** A number written with `String` and read back with `Number` is itself,
      so a numeric id survives being stored as text. */
  lemma NumberOfStringOfNumber(n: int)
    ensures ToNumber(Str(ToJsString(Num(n)))) == Some(n)
  {
    if n < 0 {
      NegativeRoundTrip(n);
    } else {
      NonNegativeRoundTrip(n);
    }
  }

  lemma NonNegativeRoundTrip(m: nat)
    ensures ToNumber(Str(ToJsString(Num(m)))) == Some(m as int)
  {
    var t := NatToDecimal(m);
    assert ToJsString(Num(m)) == t;
    DecimalRoundTrip(m);
    TrimmedDigits(t, t);
    assert t[0] != '-' && t[0] != '+';
    assert StringToNumber(t) == Some(DecimalValue(t));
  }

  lemma NegativeRoundTrip(n: int)
    requires n < 0
    ensures ToNumber(Str(ToJsString(Num(n)))) == Some(n)
  {
    var digits := NatToDecimal(-n);
    var t := "-" + digits;
    assert ToJsString(Num(n)) == t;
    DecimalRoundTrip(-n);
    TrimmedDigits(t, digits);
    assert t[1..] == digits;
    assert StringToNumber(t) == Some(0 - DecimalValue(digits) as int);
  }

  lemma TrimmedDigits(t: string, digits: string)
    requires IsDigits(digits)
    requires t == digits || t == "-" + digits
    ensures TrimEnd(TrimStart(t)) == t
  {
    assert t[|t| - 1] == digits[|digits| - 1];
    assert !IsJsWhiteSpace(t[0]);
    assert TrimStart(t) == t;
    assert !IsJsWhiteSpace(t[|t| - 1]);
  }
}
