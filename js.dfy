/**
 * The parts of the JavaScript runtime the droidium core leans on: its values
 * and their truthiness, `Number()` on decimal text, `String()` of an integer,
 * `toString(16)`, loose equality against a string, and the string methods
 * the parser calls (`indexOf`, `startsWith`, `endsWith`, `includes`,
 * `trimLeft`).  Numbers are modelled as integers only.
 */
module Js {

  datatype Option<+T> = None | Some(value: T)

  /** What a JavaScript callback never sees because the code stopped first. */
  datatype Failure =
    | Diverges     // a scanning loop runs past the end of its string and never returns normally
    | TypeError    // a property read or method call on undefined, or on the wrong kind of value
    | SyntaxError  // `new Function` rejects the generated source text
    | Thrown(message: string)  // `throw Error(message)`

  datatype Result<+T> = Ok(value: T) | Err(failure: Failure)

  /** A regular-expression literal; whether it matches a string is a parameter of the model. */
  datatype Pattern = Pattern(source: string, flags: string)

  datatype JsValue =
    | Undefined
    | Null
    | Bool(b: bool)
    | Num(n: int)
    | Str(s: string)
    | Regex(p: Pattern)

  predicate Truthy(v: JsValue) {
    match v
    case Undefined => false
    case Null => false
    case Bool(b) => b
    case Num(n) => n != 0
    case Str(s) => s != ""
    case Regex(_) => true
  }

  /** `a || b` */
  function Or(a: JsValue, b: JsValue): JsValue {
    if Truthy(a) then a else b
  }

  // ---------------------------------------------------------------- digits

  predicate IsDigit(c: char) {
    '0' <= c <= '9'
  }

  predicate AllDigits(s: string) {
    forall i :: 0 <= i < |s| ==> IsDigit(s[i])
  }

  function DigitValue(c: char): nat
    requires IsDigit(c)
  {
    (c as int) - ('0' as int)
  }

  function DigitChar(d: nat): char
    requires d < 10
  {
    ('0' as int + d) as char
  }

  /** The value of a string of decimal digits, most significant first. */
  function DigitsValue(s: string): nat
    requires AllDigits(s)
  {
    if s == [] then 0 else DigitsValue(s[..|s| - 1]) * 10 + DigitValue(s[|s| - 1])
  }

  /** `String(n)` for a non-negative integer: decimal, no leading zeros. */
  function NatToString(n: nat): (r: string)
    ensures r != [] && AllDigits(r)
    ensures DigitsValue(r) == n
  {
    if n < 10 then
      [DigitChar(n)]
    else
      var s := NatToString(n / 10);
      var r := s + [DigitChar(n % 10)];
      assert r[..|r| - 1] == s;
      r
  }

  /** `String(n)` for an integer. */
  function IntToString(n: int): string {
    if n < 0 then "-" + NatToString(-n) else NatToString(n)
  }

  /**
   * `Number(s)` on text: the empty string is 0, an optionally signed run of
   * decimal digits is its value, anything else is NaN (None).
   */
  function ToNumber(s: string): (r: Option<int>)
    ensures s != "" && !IsDigit(s[0]) && s[0] != '-' && s[0] != '+' ==> r.None?
    ensures r.Some? && s != "" && s[0] != '-' ==> r.value >= 0
    ensures r.Some? && s != "" && s[0] == '-' ==> r.value <= 0
  {
    if s == "" then Some(0)
    else if s[0] == '-' && |s| > 1 && AllDigits(s[1..]) then Some(0 - DigitsValue(s[1..]))
    else if s[0] == '+' && |s| > 1 && AllDigits(s[1..]) then Some(DigitsValue(s[1..]))
    else if AllDigits(s) then Some(DigitsValue(s))
    else None
  }

  /** `Number(String(n)) === n`. */
  lemma ToNumberIntToString(n: int)
    ensures ToNumber(IntToString(n)) == Some(n)
  {
    if n < 0 {
      var d := NatToString(-n);
      assert ("-" + d)[1..] == d;
    } else {
      var d := NatToString(n);
      assert IsDigit(d[0]);
    }
  }

  /** `Number(x) || 0` where `x` may be undefined (None). */
  function NumberOrZero(x: Option<string>): int {
    match x
    case None => 0
    case Some(s) => match ToNumber(s) case Some(n) => n case None => 0
  }

  /** `n >>> 0`: the unsigned 32-bit value of an integer. */
  function ToUint32(n: int): nat {
    n % 0x1_0000_0000
  }

  /** On a signed 32-bit integer, `>>> 0` adds 2^32 to a negative value and keeps the rest. */
  lemma Uint32OfInt32(n: int)
    requires -0x8000_0000 <= n < 0x8000_0000
    ensures ToUint32(n) == if n < 0 then n + 0x1_0000_0000 else n
  {
    var unsigned := if n < 0 then n + 0x1_0000_0000 else n;
    assert 0 <= unsigned < 0x1_0000_0000 && unsigned - n == (if n < 0 then 1 else 0) * 0x1_0000_0000;
  }

  // ------------------------------------------------------------------- hex

  predicate IsHexDigit(c: char) {
    '0' <= c <= '9' || 'a' <= c <= 'f'
  }

  function HexChar(d: nat): char
    requires d < 16
  {
    if d < 10 then ('0' as int + d) as char else ('a' as int + d - 10) as char
  }

  function HexValue(c: char): nat
    requires IsHexDigit(c)
  {
    if c <= '9' then (c as int) - ('0' as int) else (c as int) - ('a' as int) + 10
  }

  /** `n.toString(16)`: lower-case hexadecimal without padding. */
  function ToHex(n: nat): (r: string)
    ensures r != []
  {
    if n < 16 then [HexChar(n)] else ToHex(n / 16) + [HexChar(n % 16)]
  }

  /** The reading of a hexadecimal string, most significant digit first. */
  function ParseHex(s: string): nat
    requires forall i :: 0 <= i < |s| ==> IsHexDigit(s[i])
  {
    if s == [] then 0 else ParseHex(s[..|s| - 1]) * 16 + HexValue(s[|s| - 1])
  }

  /** `toString(16)` writes only hexadecimal digits, and reading them back gives the number. */
  lemma {:induction false} HexRoundTrip(n: nat)
    ensures forall i :: 0 <= i < |ToHex(n)| ==> IsHexDigit(ToHex(n)[i])
    ensures ParseHex(ToHex(n)) == n
  {
    if n >= 16 {
      HexRoundTrip(n / 16);
      var s := ToHex(n / 16);
      assert ToHex(n) == s + [HexChar(n % 16)];
      assert ToHex(n)[..|ToHex(n)| - 1] == s;
    }
  }

  // ------------------------------------------------------------ characters

  function ToLowerAscii(c: char): char {
    if 'A' <= c <= 'Z' then (c as int + 32) as char else c
  }

  function ToUpperAscii(c: char): char {
    if 'a' <= c <= 'z' then (c as int - 32) as char else c
  }

  /** The white space and line terminators `trimLeft` removes. */
  predicate IsJsSpace(c: char) {
    c == ' ' || c == '\t' || c == '\n' || c == '\U{000B}' || c == '\U{000C}' || c == '\r'
    || c == '\U{00A0}' || c == '\U{1680}' || ('\U{2000}' <= c <= '\U{200A}')
    || c == '\U{2028}' || c == '\U{2029}' || c == '\U{202F}' || c == '\U{205F}'
    || c == '\U{3000}' || c == '\U{FEFF}'
  }

  /** The characters a regular expression's `.` does not match. */
  predicate IsLineTerminator(c: char) {
    c == '\n' || c == '\r' || c == '\U{2028}' || c == '\U{2029}'
  }

  // --------------------------------------------------------------- strings

  /** `s.trimLeft()` */
  function TrimLeft(s: string): string {
    if s != [] && IsJsSpace(s[0]) then TrimLeft(s[1..]) else s
  }

  /** `trimLeft` removes exactly the leading white space: a suffix is left that starts with none. */
  lemma {:induction false} TrimLeftDrops(s: string)
    ensures |TrimLeft(s)| <= |s| && TrimLeft(s) == s[|s| - |TrimLeft(s)|..]
    ensures TrimLeft(s) != [] ==> !IsJsSpace(TrimLeft(s)[0])
    ensures forall i :: 0 <= i < |s| - |TrimLeft(s)| ==> IsJsSpace(s[i])
  {
    if s != [] && IsJsSpace(s[0]) {
      TrimLeftDrops(s[1..]);
      assert forall i :: 1 <= i < |s| ==> s[i] == s[1..][i - 1];
    }
  }

  /** `s.indexOf(c)`, with None for -1. */
  function IndexOf(s: string, c: char): (r: Option<nat>)
    ensures r.Some? ==> r.value < |s| && s[r.value] == c && c !in s[..r.value]
    ensures r.None? ==> c !in s
  {
    if s == [] then None
    else if s[0] == c then Some(0)
    else match IndexOf(s[1..], c)
      case None => None
      case Some(k) => Some(k + 1)
  }

  predicate StartsWith(s: string, prefix: string) {
    |prefix| <= |s| && s[..|prefix|] == prefix
  }

  predicate EndsWith(s: string, suffix: string) {
    |suffix| <= |s| && s[|s| - |suffix|..] == suffix
  }

  /** `s.includes(part)` */
  predicate Includes(s: string, part: string) {
    exists i | 0 <= i <= |s| :: OccursAt(s, part, i)
  }

  predicate OccursAt(s: string, part: string, i: nat) {
    i + |part| <= |s| && s[i..i + |part|] == part
  }

  /** `RegExp.prototype.toString`: what a regular expression turns into next to a string. */
  function RegexText(p: Pattern): string {
    "/" + p.source + "/" + p.flags
  }

  /** `String(v)` */
  function ToStr(v: JsValue): string {
    match v
    case Undefined => "undefined"
    case Null => "null"
    case Bool(b) => if b then "true" else "false"
    case Num(n) => IntToString(n)
    case Str(s) => s
    case Regex(p) => RegexText(p)
  }

  /**
   * `x == v` where `x` is a string, or undefined (None): undefined equals
   * only undefined and null; numbers and booleans compare with `Number(x)`;
   * a regular expression compares through its text.
   */
  predicate LooseEquals(x: Option<string>, v: JsValue)
    ensures x.None? ==> (LooseEquals(x, v) <==> v.Undefined? || v.Null?)
    ensures StrictEquals(x, v) ==> LooseEquals(x, v)
  {
    match v
    case Undefined => x.None?
    case Null => x.None?
    case Bool(b) => x.Some? && ToNumber(x.value) == Some(if b then 1 else 0)
    case Num(n) => x.Some? && ToNumber(x.value) == Some(n)
    case Str(s) => x == Some(s)
    case Regex(p) => x == Some(RegexText(p))
  }

  /** `v == n` for an integer n: strings and booleans convert to numbers first; undefined and null equal no number. */
  predicate LooseEqualsNumber(v: JsValue, n: int) {
    match v
    case Undefined => false
    case Null => false
    case Bool(b) => (if b then 1 else 0) == n
    case Num(m) => m == n
    case Str(s) => ToNumber(s) == Some(n)
    case Regex(p) => ToNumber(RegexText(p)) == Some(n)
  }

  /** `x === v` where `x` is a string or undefined: a fresh regular expression equals nothing. */
  predicate StrictEquals(x: Option<string>, v: JsValue) {
    match v
    case Undefined => x.None?
    case Str(s) => x == Some(s)
    case _ => false
  }
}
