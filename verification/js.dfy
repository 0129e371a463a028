/**
  The pieces of JavaScript value semantics the portfolio code relies on:
  truthiness (`x || d`), `parseInt`, `String(v)`, `String.prototype.trim`,
  ASCII `toLowerCase`, `includes`, `indexOf`, `startsWith` and
  `replace` with a string pattern (first occurrence only).
*/
module Js {
  import opened Wrappers

  /** A value as it arrives in a JSON request body or a form field.
      Numbers are modelled as integers, with NaN kept apart. */
  datatype JsValue =
    | Undefined
    | Null
    | Bool(b: bool)
    | Num(n: int)
    | NaN
    | Str(s: string)
    | Arr(items: seq<JsValue>)
    | Obj(fields: map<string, JsValue>)

  /** JavaScript truthiness: undefined, null, false, 0, NaN and "" are falsy. */
  predicate Truthy(v: JsValue) {
    match v
    case Undefined => false
    case Null => false
    case Bool(b) => b
    case Num(n) => n != 0
    case NaN => false
    case Str(s) => s != ""
    case Arr(_) => true
    case Obj(_) => true
  }

  /** `v || d` */
  function Or(v: JsValue, d: JsValue): JsValue {
    if Truthy(v) then v else d
  }

  /** `v || ''` on an optional text field: a missing text reads as empty. */
  function TextOrEmpty(v: Option<string>): (r: string)
    ensures v.Some? ==> r == v.value
    ensures v.None? ==> r == ""
  {
    v.GetOr("")
  }

  /** Reading `v[key]`; `None` stands for the TypeError thrown when `v` is
      undefined or null. A primitive has none of the keys used here. */
  function Prop(v: JsValue, key: string): Option<JsValue> {
    match v
    case Undefined => None
    case Null => None
    case Obj(fields) => Some(if key in fields then fields[key] else Undefined)
    case _ => Some(Undefined)
  }

  /** Reading `obj[key]` on a plain object. */
  function Field(fields: map<string, JsValue>, key: string): JsValue {
    if key in fields then fields[key] else Undefined
  }

  // ---------------------------------------------------------------------
  // Characters and whitespace

  /** The characters `String.prototype.trim` strips and `\s` matches:
      WhiteSpace and LineTerminator of ECMAScript. */
  predicate IsWhitespace(c: char) {
    var n := c as int;
    (9 <= n <= 13) || n == 0x20 || n == 0xA0 || n == 0x1680
    || (0x2000 <= n <= 0x200A) || n == 0x2028 || n == 0x2029
    || n == 0x202F || n == 0x205F || n == 0x3000 || n == 0xFEFF
  }

  predicate IsBlank(s: string) {
    forall i :: 0 <= i < |s| ==> IsWhitespace(s[i])
  }

  function TrimStart(s: string): (r: string)
    ensures |r| <= |s| && r == s[|s| - |r|..]
    ensures r != [] ==> !IsWhitespace(r[0])
    ensures forall i :: 0 <= i < |s| - |r| ==> IsWhitespace(s[i])
  {
    if s != [] && IsWhitespace(s[0]) then TrimStart(s[1..]) else s
  }

  function TrimEnd(s: string): (r: string)
    ensures |r| <= |s| && r == s[..|r|]
    ensures r != [] ==> !IsWhitespace(r[|r| - 1])
    ensures forall i :: |r| <= i < |s| ==> IsWhitespace(s[i])
  {
    if s != [] && IsWhitespace(s[|s| - 1]) then TrimEnd(s[..|s| - 1]) else s
  }

  /** `s.trim()` */
  function Trim(s: string): string {
    TrimEnd(TrimStart(s))
  }

  /** `s.trim() === ''` holds exactly for the strings made of whitespace only. */
  lemma TrimEmptyIffBlank(s: string)
    ensures Trim(s) == "" <==> IsBlank(s)
  {
    if Trim(s) == "" {
      TrimmedAway(s);
    } else {
      TrimKeeps(s);
    }
  }

  lemma TrimmedAway(s: string)
    requires Trim(s) == ""
    ensures IsBlank(s)
  {
    var t := TrimStart(s);
    var k := |s| - |t|;
    assert IsBlank(s[..k]);
    assert s[k..] == t;
    assert IsBlank(t) by {
      assert TrimEnd(t) == "";
      assert t[0..] == t;
    }
    BlankSplit(s, k);
  }

  /** A string whose two halves are blank is blank. */
  lemma BlankSplit(s: string, k: int)
    requires 0 <= k <= |s| && IsBlank(s[..k]) && IsBlank(s[k..])
    ensures IsBlank(s)
  {
    forall i | 0 <= i < |s| ensures IsWhitespace(s[i]) {
      if i < k {
        assert s[..k][i] == s[i];
      } else {
        assert s[k..][i - k] == s[i];
      }
    }
  }

  lemma TrimKeeps(s: string)
    requires Trim(s) != ""
    ensures !IsBlank(s)
  {
    var t := TrimStart(s);
    var r := TrimEnd(t);
    assert r[0] == t[0];
    assert t[0] == s[|s| - |t|];
  }

  function LowerChar(c: char): char {
    if 'A' <= c <= 'Z' then (c as int + 32) as char else c
  }

  /** `s.toLowerCase()` on ASCII letters. */
  function ToLower(s: string): (r: string)
    ensures |r| == |s|
    ensures forall i :: 0 <= i < |s| ==> r[i] == LowerChar(s[i])
  {
    seq(|s|, i requires 0 <= i < |s| => LowerChar(s[i]))
  }

  /** Lowercasing leaves no ASCII capital, changes nothing else, and
      lowercasing again changes nothing. */
  lemma ToLowerCases(s: string)
    ensures forall i :: 0 <= i < |s| ==> !('A' <= ToLower(s)[i] <= 'Z')
    ensures forall i :: 0 <= i < |s| && !('A' <= s[i] <= 'Z') ==> ToLower(s)[i] == s[i]
    ensures forall i :: 0 <= i < |s| && 'A' <= s[i] <= 'Z' ==> ToLower(s)[i] as int == s[i] as int + 32
    ensures ToLower(ToLower(s)) == ToLower(s)
  {
  }

  // ---------------------------------------------------------------------
  // Substrings

  predicate OccursAt(s: string, t: string, k: int) {
    0 <= k && k + |t| <= |s| && s[k..k + |t|] == t
  }

  /** `s.indexOf(t, from)`: the first occurrence at or after `from`, or -1. */
  function IndexOfFrom(s: string, t: string, from: nat): (r: int)
    ensures r == -1 || (from <= r && OccursAt(s, t, r))
    ensures r == -1 ==> forall k :: from <= k ==> !OccursAt(s, t, k)
    ensures r != -1 ==> forall k :: from <= k < r ==> !OccursAt(s, t, k)
    decreases |s| - from
  {
    if from + |t| > |s| then -1
    else if s[from..from + |t|] == t then from
    else IndexOfFrom(s, t, from + 1)
  }

  function IndexOf(s: string, t: string): int {
    IndexOfFrom(s, t, 0)
  }

  /** `s.includes(t)` */
  predicate Includes(s: string, t: string) {
    IndexOf(s, t) >= 0
  }

  lemma IncludesIffOccurs(s: string, t: string)
    ensures Includes(s, t) <==> exists k :: OccursAt(s, t, k)
  {
  }

  /** An occurrence anywhere makes `includes` true. */
  lemma IncludesAt(s: string, t: string, k: int)
    requires OccursAt(s, t, k)
    ensures Includes(s, t)
  {
  }

  /** A string that starts with `t` finds it at 0. */
  lemma IndexOfAtStart(s: string, t: string)
    requires |t| <= |s| && s[..|t|] == t
    ensures IndexOf(s, t) == 0
  {
    assert OccursAt(s, t, 0);
  }

  /** `s.startsWith(t)` */
  predicate StartsWith(s: string, t: string) {
    |t| <= |s| && s[..|t|] == t
  }

  /** `s.replace(pat, rep)` with a string pattern: only the first occurrence
      is replaced; without one, `s` is returned unchanged. */
  function ReplaceFirst(s: string, pat: string, rep: string): (r: string)
    ensures IndexOf(s, pat) == -1 ==> r == s
    ensures IndexOf(s, pat) != -1 ==>
      var k := IndexOf(s, pat);
      r == s[..k] + rep + s[k + |pat|..]
  {
    var k := IndexOf(s, pat);
    if k == -1 then s else s[..k] + rep + s[k + |pat|..]
  }

  /** Replacing a pattern a string starts with swaps that prefix and keeps
      the rest. */
  lemma ReplaceLeadingPrefix(pat: string, rest: string, rep: string)
    ensures ReplaceFirst(pat + rest, pat, rep) == rep + rest
  {
    var s := pat + rest;
    IndexOfAtStart(s, pat);
    assert s[..0] == [] && s[|pat|..] == rest;
  }

  /** A string that ends with `t` includes it. */
  lemma IncludesSuffix(pre: string, t: string)
    ensures Includes(pre + t, t)
  {
    var s := pre + t;
    assert s[|pre|..|pre| + |t|] == t;
    IncludesAt(s, t, |pre|);
  }

  /** Appending to a string keeps what it includes. */
  lemma IncludesExtended(s: string, t: string, rest: string)
    requires Includes(s, t)
    ensures Includes(s + rest, t)
  {
    IncludesIffOccurs(s, t);
    var k :| OccursAt(s, t, k);
    assert (s + rest)[k..k + |t|] == s[k..k + |t|];
    IncludesAt(s + rest, t, k);
  }

  /** A string whose first character is not white space is not blank. */
  lemma NotBlankAfter(s: string, rest: string)
    requires s != [] && !IsWhitespace(s[0])
    ensures !IsBlank(s + rest)
  {
    assert (s + rest)[0] == s[0];
  }

  // ---------------------------------------------------------------------
  // Numbers and strings

  predicate IsDigit(c: char) { '0' <= c <= '9' }

  function DigitChar(d: nat): (c: char)
    requires d < 10
    ensures IsDigit(c)
  {
    ('0' as int + d) as char
  }

  function DigitValue(c: char): nat
    requires IsDigit(c)
  {
    c as int - '0' as int
  }

  /** Decimal digits of `n`, most significant first, without leading zeros. */
  function NatToString(n: nat): (r: string)
    ensures r != [] && forall i :: 0 <= i < |r| ==> IsDigit(r[i])
    decreases n
  {
    if n < 10 then [DigitChar(n)] else NatToString(n / 10) + [DigitChar(n % 10)]
  }

  /** `String(n)` for an integer. */
  function IntToString(n: int): string {
    if n < 0 then "-" + NatToString(-n) else NatToString(n)
  }

  /** `String(v)`. */
  function ToJsString(v: JsValue): string {
    match v
    case Undefined => "undefined"
    case Null => "null"
    case Bool(b) => if b then "true" else "false"
    case Num(n) => IntToString(n)
    case NaN => "NaN"
    case Str(s) => s
    case Arr(items) => JoinItems(items)
    case Obj(_) => "[object Object]"
  }

  /** `items.join(',')` as `Array.prototype.toString` does it: undefined and
      null become the empty string. */
  function JoinItems(items: seq<JsValue>): string
    decreases items
  {
    if items == [] then ""
    else
      var first := if items[0].Undefined? || items[0].Null? then "" else ToJsString(items[0]);
      if |items| == 1 then first else first + "," + JoinItems(items[1..])
  }

  /** Value of a run of decimal digits. */
  function DecimalValue(d: string): nat
    requires forall i :: 0 <= i < |d| ==> IsDigit(d[i])
  {
    if d == [] then 0 else DecimalValue(d[..|d| - 1]) * 10 + DigitValue(d[|d| - 1])
  }

  predicate IsHexDigit(c: char) {
    IsDigit(c) || 'a' <= c <= 'f' || 'A' <= c <= 'F'
  }

  function HexDigitValue(c: char): nat
    requires IsHexDigit(c)
  {
    if IsDigit(c) then DigitValue(c)
    else if 'a' <= c <= 'f' then c as int - 'a' as int + 10
    else c as int - 'A' as int + 10
  }

  function HexValue(d: string): nat
    requires forall i :: 0 <= i < |d| ==> IsHexDigit(d[i])
  {
    if d == [] then 0 else HexValue(d[..|d| - 1]) * 16 + HexDigitValue(d[|d| - 1])
  }

  /** The longest prefix of `s` made of decimal digits. */
  function DigitPrefix(s: string): (r: string)
    ensures |r| <= |s| && r == s[..|r|]
    ensures forall i :: 0 <= i < |r| ==> IsDigit(r[i])
    ensures |r| < |s| ==> !IsDigit(s[|r|])
  {
    if s != [] && IsDigit(s[0]) then [s[0]] + DigitPrefix(s[1..]) else []
  }

  /** The longest prefix of `s` made of hexadecimal digits. */
  function HexPrefix(s: string): (r: string)
    ensures |r| <= |s| && r == s[..|r|]
    ensures forall i :: 0 <= i < |r| ==> IsHexDigit(r[i])
    ensures |r| < |s| ==> !IsHexDigit(s[|r|])
  {
    if s != [] && IsHexDigit(s[0]) then [s[0]] + HexPrefix(s[1..]) else []
  }

  /** `parseInt(s)` without a radix: leading whitespace, an optional sign,
      then hexadecimal digits after `0x`/`0X` or decimal digits; NaN when no
      digit follows. */
  function ParseIntString(s: string): (r: JsValue)
    ensures r.Num? || r.NaN?
  {
    ParseSigned(TrimStart(s))
  }

  /** `parseInt` once the leading whitespace is skipped. */
  function ParseSigned(t: string): (r: JsValue)
    ensures r.Num? || r.NaN?
  {
    var neg := t != [] && t[0] == '-';
    var u := if t != [] && (t[0] == '-' || t[0] == '+') then t[1..] else t;
    if |u| >= 2 && u[0] == '0' && (u[1] == 'x' || u[1] == 'X') then
      var h := HexPrefix(u[2..]);
      var value: int := HexValue(h);
      if h == [] then NaN else Num(if neg then -value else value)
    else
      var d := DigitPrefix(u);
      var value: int := DecimalValue(d);
      if d == [] then NaN else Num(if neg then -value else value)
  }

  /** `parseInt(v)`: the argument is first converted with `String(v)`. */
  function ParseInt(v: JsValue): (r: JsValue)
    ensures r.Num? || r.NaN?
  {
    ParseIntString(ToJsString(v))
  }

  lemma {:induction false} DecimalValueOfNatToString(n: nat)
    ensures DecimalValue(NatToString(n)) == n
    decreases n
  {
    if n >= 10 {
      DecimalValueOfNatToString(n / 10);
      var s := NatToString(n);
      assert s[..|s| - 1] == NatToString(n / 10);
    }
  }

  lemma DigitPrefixOfDigits(s: string)
    requires forall i :: 0 <= i < |s| ==> IsDigit(s[i])
    ensures DigitPrefix(s) == s
  {
  }

  lemma ParseDigits(d: string, neg: bool)
    requires d != [] && forall i :: 0 <= i < |d| ==> IsDigit(d[i])
    requires !(|d| >= 2 && d[0] == '0' && (d[1] == 'x' || d[1] == 'X'))
    ensures var value: int := DecimalValue(d);
      ParseIntString(if neg then "-" + d else d) == Num(if neg then -value else value)
  {
    var s := if neg then "-" + d else d;
    assert s[0] == if neg then '-' else d[0];
    TrimStartNonBlank(s);
    SignedDigits(d, neg);
  }

  lemma TrimStartNonBlank(s: string)
    requires s != [] && !IsWhitespace(s[0])
    ensures TrimStart(s) == s
  {
  }

  lemma SignedDigits(d: string, neg: bool)
    requires d != [] && forall i :: 0 <= i < |d| ==> IsDigit(d[i])
    requires !(|d| >= 2 && d[0] == '0' && (d[1] == 'x' || d[1] == 'X'))
    ensures var value: int := DecimalValue(d);
      ParseSigned(if neg then "-" + d else d) == Num(if neg then -value else value)
  {
    var t := if neg then "-" + d else d;
    assert t[0] == '-' <==> neg;
    assert (if t[0] == '-' || t[0] == '+' then t[1..] else t) == d;
    DigitPrefixOfDigits(d);
  }

  /** The digit prefix of digits followed by a non-digit is those digits. */
  lemma {:induction false} DigitPrefixStops(d: string, rest: string)
    requires forall i :: 0 <= i < |d| ==> IsDigit(d[i])
    requires rest == [] || !IsDigit(rest[0])
    ensures DigitPrefix(d + rest) == d
    decreases |d|
  {
    var s := d + rest;
    if d == [] {
      assert s == rest;
    } else {
      assert s[0] == d[0] && s[1..] == d[1..] + rest;
      DigitPrefixStops(d[1..], rest);
      assert d == [d[0]] + d[1..];
    }
  }

  /** `parseInt` reads the leading decimal number and ignores what follows
      it: `parseInt("2abc")` is 2 (a lone `0` before `x` starts a
      hexadecimal number instead). */
  lemma ParseStopsAtNonDigit(d: string, rest: string)
    requires d != [] && forall i :: 0 <= i < |d| ==> IsDigit(d[i])
    requires rest == [] || !IsDigit(rest[0])
    requires !(d == "0" && rest != [] && (rest[0] == 'x' || rest[0] == 'X'))
    ensures ParseIntString(d + rest) == Num(DecimalValue(d))
  {
    var s := d + rest;
    DigitPrefixStops(d, rest);
    assert s[0] == d[0];
    assert |s| >= 2 ==> s[1] == (if |d| >= 2 then d[1] else rest[0]);
    assert |d| == 1 ==> d == [d[0]];
    ParseUnsignedDigits(s, d);
  }

  lemma ParseUnsignedDigits(s: string, d: string)
    requires s != [] && IsDigit(s[0])
    requires !(|s| >= 2 && s[0] == '0' && (s[1] == 'x' || s[1] == 'X'))
    requires DigitPrefix(s) == d
    ensures ParseIntString(s) == Num(DecimalValue(d))
  {
    assert !IsWhitespace(s[0]) && s[0] != '-' && s[0] != '+';
    assert TrimStart(s) == s;
    assert d != [] by {
      assert DigitPrefix(s) == [s[0]] + DigitPrefix(s[1..]);
    }
  }

  /** Leading whitespace is skipped. */
  lemma {:induction false} ParseSkipsBlank(ws: string, s: string)
    requires IsBlank(ws)
    ensures ParseIntString(ws + s) == ParseIntString(s)
    decreases |ws|
  {
    TrimStartSkipsBlank(ws, s);
  }

  lemma {:induction false} TrimStartSkipsBlank(ws: string, s: string)
    requires IsBlank(ws)
    ensures TrimStart(ws + s) == TrimStart(s)
    decreases |ws|
  {
    if ws == [] {
      assert ws + s == s;
    } else {
      var u := ws + s;
      assert u[0] == ws[0] && u[1..] == ws[1..] + s;
      assert IsBlank(ws[1..]) by {
        forall i | 0 <= i < |ws[1..]| ensures IsWhitespace(ws[1..][i]) {
          assert ws[1..][i] == ws[i + 1];
        }
      }
      TrimStartSkipsBlank(ws[1..], s);
    }
  }

  /** Text that starts with anything but whitespace, a sign or a digit is
      not a number: `parseInt("abc")` is NaN. */
  lemma ParseTextIsNaN(s: string)
    requires s != [] && !IsWhitespace(s[0]) && !IsDigit(s[0]) && s[0] != '-' && s[0] != '+'
    ensures ParseIntString(s) == NaN
  {
    assert TrimStart(s) == s;
    if |s| >= 2 {
      assert !(s[0] == '0');
    }
  }

  /** `parseInt` gives back any integer it is handed as a number. */
  lemma ParseIntOfNumber(n: int)
    ensures ParseInt(Num(n)) == Num(n)
  {
    var m: nat := if n < 0 then -n else n;
    var d := NatToString(m);
    DecimalValueOfNatToString(m);
    assert d[0] == '0' ==> m < 10 by {
      if m >= 10 {
        NatToStringLeadingDigit(m);
      }
    }
    ParseDigits(d, n < 0);
  }

  lemma {:induction false} NatToStringLeadingDigit(n: nat)
    requires n >= 10
    ensures NatToString(n)[0] != '0'
    decreases n
  {
    if n / 10 >= 10 {
      NatToStringLeadingDigit(n / 10);
    }
  }
}
