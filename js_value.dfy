/** The slice of JavaScript value semantics the renderer relies on: the values a
    property may hold, the `value == null` test, string coercion by `String(v)` and
    `+`, `String.prototype.trim`, and the own enumerable entries that `for…in`
    visits on `extend({}, v)`. */
module JsValue {

  /** A property value. An object is an ordered list of (key, value) entries; its
      order stands in for the order in which `for…in` enumerates its keys. */
  datatype Value =
    | Undefined
    | Null
    | Bool(b: bool)
    | Num(n: int)
    | Str(s: string)
    | Obj(entries: seq<(string, Value)>)

  /** `v == null` in JavaScript: true for `null` and for `undefined` alike. */
  predicate IsNullish(v: Value) {
    v.Undefined? || v.Null?
  }

  /** The value of a digit character. */
  function DigitValue(c: char): nat {
    if '0' <= c <= '9' then (c as int) - ('0' as int) else 0
  }

  /** The number a string of decimal digits denotes, most significant first. */
  function DigitsValue(s: string): nat {
    if s == [] then 0 else DigitsValue(s[..|s| - 1]) * 10 + DigitValue(s[|s| - 1])
  }

  /** The number a decimal numeral denotes, with an optional leading `-`. */
  function DecimalValue(s: string): int {
    if s != [] && s[0] == '-' then -(DigitsValue(s[1..]) as int) else DigitsValue(s)
  }

  /** A canonical numeral of a natural number: decimal digits only, and no leading
      zero unless the numeral is `0` itself. */
  predicate CanonicalDigits(d: string) {
    && |d| >= 1
    && (forall i :: 0 <= i < |d| ==> '0' <= d[i] <= '9')
    && (|d| > 1 ==> d[0] != '0')
  }

  /** The decimal digits of a natural number, most significant first, no leading zero. */
  function NatDigits(n: nat): (r: string)
    ensures |r| >= 1
    ensures forall i :: 0 <= i < |r| ==> '0' <= r[i] <= '9'
    ensures |r| > 1 ==> r[0] != '0'
    ensures DigitsValue(r) == n
  {
    if n < 10 then
      var r := [(('0' as int) + n) as char];
      assert r[..0] == [];
      r
    else
      var d := [(('0' as int) + n % 10) as char];
      var r := NatDigits(n / 10) + d;
      assert r[..|r| - 1] == NatDigits(n / 10);
      r
  }

  /** `String(n)` for an integral number: a `-` exactly for a negative number, then
      the canonical digits of its magnitude, which read back as `n`. */
  function Decimal(n: int): (r: string)
    ensures |r| >= 1
    ensures (r[0] == '-') <==> n < 0
    ensures CanonicalDigits(if n < 0 then r[1..] else r)
    ensures DecimalValue(r) == n
  {
    if n < 0 then
      var r := "-" + NatDigits(-n);
      assert r[1..] == NatDigits(-n);
      r
    else NatDigits(n)
  }

  /** `String(v)`, which is also what `+` does to a non-string operand. It is empty
      only for the empty string, and a number's text is its canonical numeral. */
  function ToJsString(v: Value): (r: string)
    ensures r == [] <==> v == Str([])
    ensures v.Num? ==> |r| >= 1 && ((r[0] == '-') <==> v.n < 0)
    ensures v.Num? ==> CanonicalDigits(if v.n < 0 then r[1..] else r)
    ensures v.Num? ==> DecimalValue(r) == v.n
  {
    match v
    case Undefined => "undefined"
    case Null => "null"
    case Bool(b) => if b then "true" else "false"
    case Num(n) => Decimal(n)
    case Str(s) => s
    case Obj(_) => "[object Object]"
  }

  /** The entries `for…in` visits on `extend({}, v)`: the entries of an object, the
      characters of a string under their index keys, and nothing for any other value. */
  function OwnEntries(v: Value): (r: seq<(string, Value)>)
    ensures v.Obj? ==> r == v.entries
    ensures v.Str? ==> |r| == |v.s|
    ensures v.Str? ==> forall i :: 0 <= i < |r| ==> r[i] == (Decimal(i), Str([v.s[i]]))
    ensures v.Str? ==> forall i :: 0 <= i < |r| ==> DecimalValue(r[i].0) == i
    ensures !v.Obj? && !v.Str? ==> r == []
  {
    match v
    case Obj(entries) => entries
    case Str(s) => seq(|s|, i requires 0 <= i < |s| => (Decimal(i), Str([s[i]])))
    case _ => []
  }

  /** The characters `String.prototype.trim` strips: the WhiteSpace and
      LineTerminator code points of ECMAScript. */
  predicate IsWhiteSpace(c: char) {
    var k := c as int;
    k == 0x09 || k == 0x0A || k == 0x0B || k == 0x0C || k == 0x0D || k == 0x20
    || k == 0xA0 || k == 0x1680 || (0x2000 <= k <= 0x200A) || k == 0x2028
    || k == 0x2029 || k == 0x202F || k == 0x205F || k == 0x3000 || k == 0xFEFF
  }

  /** `s` with its leading white space removed. */
  function TrimStart(s: string): (r: string)
    ensures |r| <= |s| && r == s[|s| - |r|..]
  {
    if s != [] && IsWhiteSpace(s[0]) then TrimStart(s[1..]) else s
  }

  /** `s` with its trailing white space removed. */
  function TrimEnd(s: string): (r: string)
    ensures |r| <= |s| && r == s[..|r|]
  {
    if s != [] && IsWhiteSpace(s[|s| - 1]) then TrimEnd(s[..|s| - 1]) else s
  }

  /** `s.trim()`. */
  function Trim(s: string): string {
    TrimStart(TrimEnd(s))
  }

  /** `TrimStart` removes the longest prefix made of white space only. */
  lemma {:induction false} TrimStartSpec(s: string)
    ensures var r := TrimStart(s);
      && (forall i :: 0 <= i < |s| - |r| ==> IsWhiteSpace(s[i]))
      && (r == [] || !IsWhiteSpace(r[0]))
  {
    if s != [] && IsWhiteSpace(s[0]) {
      var t := s[1..];
      TrimStartSpec(t);
      var r := TrimStart(s);
      assert r == TrimStart(t);
      forall i | 0 <= i < |s| - |r| ensures IsWhiteSpace(s[i]) {
        if i > 0 {
          assert i - 1 < |t| - |r|;
          assert s[i] == t[i - 1];
        }
      }
    }
  }

  /** `TrimEnd` removes the longest suffix made of white space only. */
  lemma {:induction false} TrimEndSpec(s: string)
    ensures var r := TrimEnd(s);
      && (forall i :: |r| <= i < |s| ==> IsWhiteSpace(s[i]))
      && (r == [] || !IsWhiteSpace(r[|r| - 1]))
  {
    if s != [] && IsWhiteSpace(s[|s| - 1]) {
      var t := s[..|s| - 1];
      TrimEndSpec(t);
      var r := TrimEnd(s);
      assert r == TrimEnd(t);
      forall i | |r| <= i < |s| ensures IsWhiteSpace(s[i]) {
        if i < |s| - 1 {
          assert s[i] == t[i];
        }
      }
    }
  }

  /** Neither end of `s.trim()` is white space, and it is empty exactly when `s`
      is all white space. */
  lemma TrimSpec(s: string)
    ensures var r := Trim(s);
      && (r == [] || (!IsWhiteSpace(r[0]) && !IsWhiteSpace(r[|r| - 1])))
      && (r == [] <==> forall i :: 0 <= i < |s| ==> IsWhiteSpace(s[i]))
  {
    var e := TrimEnd(s);
    var r := TrimStart(e);
    TrimEndSpec(s);
    TrimStartSpec(e);
    assert r != [] ==> r[|r| - 1] == e[|e| - 1];
    assert r == [] ==> e == [];
  }

  /** Trimming the end of a string whose last character is a space and whose
      one before last is not removes just that space. */
  lemma TrimEndFinalSpace(s: string)
    requires |s| >= 2 && s[|s| - 1] == ' ' && !IsWhiteSpace(s[|s| - 2])
    ensures TrimEnd(s) == s[..|s| - 1]
  {
    assert TrimEnd(s) == TrimEnd(s[..|s| - 1]);
    assert s[..|s| - 1][|s| - 2] == s[|s| - 2];
  }

  /** Trimming the start of a string that ends in a non-white-space character
      leaves that character at the end. */
  lemma TrimStartKeepsEnd(s: string)
    requires s != [] && !IsWhiteSpace(s[|s| - 1])
    ensures var r := TrimStart(s); r != [] && r[|r| - 1] == s[|s| - 1]
  {
    TrimStartSpec(s);
  }
}
