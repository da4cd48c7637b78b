/** The fragment of JavaScript the two client files rely on: values and their
    truthiness, property access with and without optional chaining, object
    spread, `String.prototype.trim` and `parseInt(value, 10)`. Numbers are
    integers here; see README for what that leaves out. */
module JsValues {
  import opened Common
  import Decimal

  datatype JsValue =
    | Undefined
    | Null
    | Bool(b: bool)
    | Num(n: int)
    | Str(s: string)
    | Obj(fields: map<string, JsValue>)

  /** ECMAScript ToBoolean. */
  predicate Truthy(v: JsValue) {
    match v
    case Undefined => false
    case Null => false
    case Bool(b) => b
    case Num(n) => n != 0
    case Str(s) => |s| > 0
    case Obj(_) => true
  }

  /** `v === null || v === undefined`. */
  predicate Nullish(v: JsValue) {
    v.Undefined? || v.Null?
  }

  /** `row[key]` on a plain object: a missing property reads as `undefined`. */
  function Get(row: map<string, JsValue>, key: string): (v: JsValue)
    ensures key !in row ==> v == Undefined
    ensures key in row ==> v == row[key]
  {
    if key in row then row[key] else Undefined
  }

  /** `v?.key`: `undefined` on a nullish value, and on primitives, whose
      properties this model does not go into. */
  function Member(v: JsValue, key: string): (r: JsValue)
    ensures Nullish(v) ==> r == Undefined
    ensures v.Obj? ==> r == Get(v.fields, key)
  {
    if v.Obj? then Get(v.fields, key) else Undefined
  }

  /** The own properties `...v` contributes to an object literal; `null`,
      `undefined` and non-string primitives contribute none. */
  function Spread(v: JsValue): (m: map<string, JsValue>)
    ensures v.Obj? ==> m == v.fields
    ensures !v.Obj? && !v.Str? ==> m == map[]
  {
    if v.Obj? then v.fields else map[]
  }

  /** WhiteSpace and LineTerminator of ECMAScript (section 12.2 and 12.3 of
      ECMA-262): the characters `trim` removes and `parseInt` skips. */
  predicate IsJsSpace(c: char) {
    c == '\t' || c == '\U{000B}' || c == '\U{000C}' || c == ' ' || c == '\U{00A0}' || c == '\U{FEFF}'
    || c == '\U{1680}' || ('\U{2000}' <= c <= '\U{200A}') || c == '\U{202F}' || c == '\U{205F}' || c == '\U{3000}'
    || c == '\n' || c == '\r' || c == '\U{2028}' || c == '\U{2029}'
  }

  predicate AllJsSpace(s: string) {
    forall i :: 0 <= i < |s| ==> IsJsSpace(s[i])
  }

  /** The number of white-space characters `s` starts with. */
  function LeadingSpaces(s: string): (n: nat)
    ensures n <= |s|
    ensures forall i :: 0 <= i < n ==> IsJsSpace(s[i])
    ensures n < |s| ==> !IsJsSpace(s[n])
    decreases |s|
  {
    if |s| > 0 && IsJsSpace(s[0]) then 1 + LeadingSpaces(s[1..]) else 0
  }

  /** The number of white-space characters `s` ends with. */
  function TrailingSpaces(s: string): (n: nat)
    ensures n <= |s|
    ensures forall i :: |s| - n <= i < |s| ==> IsJsSpace(s[i])
    ensures n < |s| ==> !IsJsSpace(s[|s| - n - 1])
    decreases |s|
  {
    if |s| > 0 && IsJsSpace(s[|s| - 1]) then 1 + TrailingSpaces(s[..|s| - 1]) else 0
  }

  /** `trimStart`: drops the leading white space. */
  function TrimStart(s: string): (t: string)
    ensures |t| <= |s| && t == s[|s| - |t|..]
    ensures forall i :: 0 <= i < |s| - |t| ==> IsJsSpace(s[i])
    ensures |t| > 0 ==> !IsJsSpace(t[0])
    ensures t == "" <==> AllJsSpace(s)
  {
    s[LeadingSpaces(s)..]
  }

  /** `trimEnd`: drops the trailing white space. */
  function TrimEnd(s: string): (t: string)
    ensures |t| <= |s| && t == s[..|t|]
    ensures forall i :: |t| <= i < |s| ==> IsJsSpace(s[i])
    ensures |t| > 0 ==> !IsJsSpace(t[|t| - 1])
    ensures t == "" <==> AllJsSpace(s)
  {
    s[..|s| - TrailingSpaces(s)]
  }

  /** `String.prototype.trim`. */
  function Trim(s: string): (t: string)
    ensures |t| <= |s|
    ensures |t| > 0 ==> !IsJsSpace(t[0]) && !IsJsSpace(t[|t| - 1])
    ensures t == "" <==> AllJsSpace(s)
  {
    TrimEnd(TrimStart(s))
  }

  /** Trimming once is enough. */
  lemma TrimIdempotent(s: string)
    ensures Trim(Trim(s)) == Trim(s)
  {
  }

  /** `v?.trim()`: `undefined` for a nullish value, the trimmed text for a
      string, and `None` where calling `trim` throws a TypeError (any other
      value has no `trim` method). */
  function OptionalTrim(v: JsValue): (r: Option<JsValue>)
    ensures Nullish(v) ==> r == Some(Undefined)
    ensures v.Str? ==> r == Some(Str(Trim(v.s)))
    ensures r.None? <==> !Nullish(v) && !v.Str?
  {
    match v
    case Undefined => Some(Undefined)
    case Null => Some(Undefined)
    case Str(s) => Some(Str(Trim(s)))
    case _ => None
  }

  /** ECMAScript ToString for the values of this model. */
  function ToJsString(v: JsValue): string {
    match v
    case Undefined => "undefined"
    case Null => "null"
    case Bool(b) => if b then "true" else "false"
    case Num(n) => Decimal.IntToString(n)
    case Str(s) => s
    case Obj(_) => "[object Object]"
  }

  /** The longest prefix of `s` made of the digits 0-9. */
  function LeadingDigits(s: string): (d: string)
    ensures |d| <= |s| && d == s[..|d|] && Decimal.AllDigits(d)
    ensures |d| < |s| ==> !Decimal.IsDigit(s[|d|])
    ensures Decimal.AllDigits(s) ==> d == s
    decreases |s|
  {
    if |s| == 0 || !Decimal.IsDigit(s[0]) then ""
    else
      var rest := LeadingDigits(s[1..]);
      assert Decimal.AllDigits(s) ==> Decimal.AllDigits(s[1..]);
      [s[0]] + rest
  }

  /** The sign and the remaining text after an optional `+` or `-`. */
  function SplitSign(t: string): (r: (int, string))
    ensures r.0 == 1 || r.0 == -1
    ensures r.1 == t || (|t| > 0 && r.1 == t[1..] && (t[0] == '-' || t[0] == '+'))
    ensures r.0 == -1 <==> |t| > 0 && t[0] == '-'
  {
    if |t| > 0 && t[0] == '-' then (-1, t[1..])
    else if |t| > 0 && t[0] == '+' then (1, t[1..])
    else (1, t)
  }

  /** `parseInt(s, 10)` (section 19.2.5 of ECMA-262): skip leading white
      space, read an optional sign and the longest run of decimal digits;
      `None` is `NaN`, the result when there is no digit. */
  function ParseInt(s: string): (r: Option<int>)
    ensures r.None? <==> |LeadingDigits(SplitSign(TrimStart(s)).1)| == 0
  {
    var (sign, rest) := SplitSign(TrimStart(s));
    var ds := LeadingDigits(rest);
    if |ds| == 0 then None else Some(sign * Decimal.DigitsValue(ds))
  }

  /** Text that does not start with white space is left alone by `trimStart`. */
  lemma TrimStartNoSpace(s: string)
    requires |s| > 0 && !IsJsSpace(s[0])
    ensures TrimStart(s) == s
  {
    assert LeadingSpaces(s) == 0;
  }

  /** A numeral with no sign is read as the number it denotes. */
  lemma ParseIntOfNatToString(m: nat)
    ensures ParseInt(Decimal.NatToString(m)) == Some(m)
  {
    var digits := Decimal.NatToString(m);
    assert Decimal.IsDigit(digits[0]);
    TrimStartNoSpace(digits);
    assert SplitSign(digits) == (1, digits);
    assert LeadingDigits(digits) == digits;
    Decimal.DigitsValueOfNatToString(m);
  }

  /** A minus sign and a numeral are read as the negated number. */
  lemma ParseIntOfNegatedNatToString(m: nat)
    ensures ParseInt("-" + Decimal.NatToString(m)) == Some(-(m as int))
  {
    var digits := Decimal.NatToString(m);
    var s := "-" + digits;
    TrimStartNoSpace(s);
    assert s[1..] == digits;
    assert SplitSign(s) == (-1, digits);
    assert LeadingDigits(digits) == digits;
    Decimal.DigitsValueOfNatToString(m);
  }

  /** `parseInt` reads back what `String(n)` writes for every integer. */
  lemma ParseIntOfIntToString(n: int)
    ensures ParseInt(Decimal.IntToString(n)) == Some(n)
  {
    if n >= 0 {
      ParseIntOfNatToString(n);
    } else {
      var m: nat := -n;
      assert Decimal.IntToString(n) == "-" + Decimal.NatToString(m);
      ParseIntOfNegatedNatToString(m);
    }
  }

  /** Text that starts (after white space and a sign) with something other
      than a digit is `NaN`. */
  lemma ParseIntNaN(s: string)
    requires var rest := SplitSign(TrimStart(s)).1; |rest| == 0 || !Decimal.IsDigit(rest[0])
    ensures ParseInt(s).None?
  {
  }
}
