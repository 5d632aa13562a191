/**
 * The attribute reader: typed lookup of the `data-*` metadata of an element,
 * including the falsy-default quirk and a model of `parseInt`.
 */
module Attributes {
  import opened Wrappers

  /** The dynamically typed values `getDataAttribute` can return. */
  datatype AttrValue = Str(s: string) | Int(n: int) | NaN | Bool(b: bool)

  /** JavaScript truthiness of an attribute value. */
  predicate Truthy(v: AttrValue)
  {
    match v
    case Str(s) => s != ""
    case Int(n) => n != 0
    case NaN => false
    case Bool(b) => b
  }

  /** The characters matched by the `\s` class of JavaScript regular expressions. */
  predicate IsSpace(c: char)
  {
    c == ' ' || c == '\t' || c == '\n' || c == '\r' || c == '\U{000B}' || c == '\U{000C}'
    || c == '\U{00A0}' || c == '\U{1680}' || ('\U{2000}' <= c <= '\U{200A}')
    || c == '\U{2028}' || c == '\U{2029}' || c == '\U{202F}' || c == '\U{205F}'
    || c == '\U{3000}' || c == '\U{FEFF}'
  }

  predicate IsDigit(c: char) { '0' <= c <= '9' }

  /** The value of a decimal digit (0 for any other character, which never occurs). */
  function DigitValue(c: char): nat
  {
    if IsDigit(c) then (c as int) - ('0' as int) else 0
  }

  predicate AllDigits(s: string)
  {
    forall i :: 0 <= i < |s| ==> IsDigit(s[i])
  }

  /** Drops leading whitespace, as `parseInt` does before reading a number. */
  function TrimStart(s: string): (r: string)
    ensures |r| <= |s|
    ensures r == [] || !IsSpace(r[0])
  {
    if s != [] && IsSpace(s[0]) then TrimStart(s[1..]) else s
  }

  /** The longest prefix of `s` made of decimal digits. */
  function DigitPrefix(s: string): (r: string)
    ensures |r| <= |s| && r == s[..|r|] && AllDigits(r)
    ensures |r| == |s| || !IsDigit(s[|r|])
  {
    if s != [] && IsDigit(s[0]) then [s[0]] + DigitPrefix(s[1..]) else []
  }

  /** The number a string of decimal digits denotes. */
  function DigitsValue(d: string): nat
  {
    if d == [] then 0 else 10 * DigitsValue(d[..|d| - 1]) + DigitValue(d[|d| - 1])
  }

  /**
   * `window.parseInt(value)` with no radix, restricted to decimal text: leading
   * whitespace, an optional sign, then the longest digit prefix; `None` stands
   * for the NaN the source gets when no digit follows.
   */
  function ParseInt(s: string): (r: Option<int>)
    ensures r.None? <==> DigitPrefix(Unsigned(TrimStart(s))) == []
  {
    var t := TrimStart(s);
    var u := Unsigned(t);
    var d := DigitPrefix(u);
    var v: int := DigitsValue(d);
    if d == [] then None
    else if t != [] && t[0] == '-' then Some(-v)
    else Some(v)
  }

  /** The text after an optional leading sign. */
  function Unsigned(t: string): string
  {
    if t != [] && (t[0] == '-' || t[0] == '+') then t[1..] else t
  }

  lemma {:induction false} DigitPrefixOfDigits(d: string, rest: string)
    requires AllDigits(d)
    requires rest == [] || !IsDigit(rest[0])
    ensures DigitPrefix(d + rest) == d
  {
    if d != [] {
      assert (d + rest)[1..] == d[1..] + rest;
      DigitPrefixOfDigits(d[1..], rest);
    }
  }

  /**
   * `parseInt` reads a run of digits, with or without a minus sign, and stops at
   * the first non-digit: `"500"` reads as 500, `"12px"` as 12, `"-3"` as -3.
   */
  lemma {:induction false} ParseIntReadsDigits(d: string, rest: string)
    requires d != [] && AllDigits(d)
    requires rest == [] || !IsDigit(rest[0])
    ensures ParseInt(d + rest) == Some(DigitsValue(d))
    ensures ParseInt("-" + (d + rest)) == Some(-(DigitsValue(d) as int))
  {
    ParseIntPlainDigits(d, rest);
    ParseIntMinusDigits(d, rest);
  }

  lemma ParseIntPlainDigits(d: string, rest: string)
    requires d != [] && AllDigits(d)
    requires rest == [] || !IsDigit(rest[0])
    ensures ParseInt(d + rest) == Some(DigitsValue(d))
  {
    var u := d + rest;
    assert u[0] == d[0];
    DigitPrefixOfDigits(d, rest);
    ParseIntUnsigned(u);
  }

  lemma ParseIntMinusDigits(d: string, rest: string)
    requires d != [] && AllDigits(d)
    requires rest == [] || !IsDigit(rest[0])
    ensures ParseInt("-" + (d + rest)) == Some(-(DigitsValue(d) as int))
  {
    var u := d + rest;
    assert u[0] == d[0];
    DigitPrefixOfDigits(d, rest);
    ParseIntNegative(u, d);
  }

  lemma {:induction false} ParseIntUnsigned(t: string)
    requires t != [] && IsDigit(t[0])
    ensures ParseInt(t) == Some(DigitsValue(DigitPrefix(t)))
  {
    assert TrimStart(t) == t;
    assert Unsigned(t) == t;
  }

  lemma {:induction false} ParseIntNegative(t: string, d: string)
    requires t != [] && IsDigit(t[0]) && DigitPrefix(t) == d
    ensures ParseInt("-" + t) == Some(-(DigitsValue(d) as int))
  {
    var s := "-" + t;
    assert s[0] == '-';
    assert TrimStart(s) == s;
    assert s[1..] == t;
    assert Unsigned(s) == t;
  }

  /** Text with no digit after the optional sign reads as NaN. */
  lemma {:induction false} ParseIntNaN(t: string)
    requires t != [] && !IsDigit(t[0]) && !IsSpace(t[0]) && t[0] != '-' && t[0] != '+'
    ensures ParseInt(t).None?
  {
    assert TrimStart(t) == t;
    assert Unsigned(t) == t;
  }

  /** `defaultValue || false`: a falsy default collapses to `false`. */
  function DefaultOrFalse(defaultValue: AttrValue): (r: AttrValue)
    ensures Truthy(defaultValue) ==> r == defaultValue
    ensures !Truthy(defaultValue) ==> r == Bool(false)
  {
    if Truthy(defaultValue) then defaultValue else Bool(false)
  }

  /**
   * `getDataAttribute(name, element, type, defaultValue)`: `attrs` holds the
   * element's attributes, a missing key standing for `getAttribute` returning null.
   */
  function GetDataAttribute(name: string, attrs: map<string, string>, kind: string,
                            defaultValue: AttrValue): (r: AttrValue)
    ensures ("data-" + name !in attrs || attrs["data-" + name] == "") ==>
              r == DefaultOrFalse(defaultValue)
    ensures "data-" + name in attrs && attrs["data-" + name] != "" ==>
              var raw := attrs["data-" + name];
              if kind == "int" then r == (if ParseInt(raw).Some? then Int(ParseInt(raw).value) else NaN)
              else if kind == "bol" then r == Bool(raw == "true")
              else r == Str(raw)
  {
    var key := "data-" + name;
    if key !in attrs || attrs[key] == "" then DefaultOrFalse(defaultValue)
    else
      var raw := attrs[key];
      if kind == "int" then (match ParseInt(raw) case Some(n) => Int(n) case None => NaN)
      else if kind == "bol" then Bool(raw == "true")
      else Str(raw)
  }

  /**
   * A missing or empty attribute reads as the default when that is truthy and as
   * `false` otherwise, whatever kind was asked for.
   */
  lemma {:induction false} MissingIsDefaultOrFalse(name: string, attrs: map<string, string>, kind: string,
                                defaultValue: AttrValue)
    requires "data-" + name !in attrs || attrs["data-" + name] == ""
    ensures GetDataAttribute(name, attrs, kind, defaultValue)
            == (if Truthy(defaultValue) then defaultValue else Bool(false))
    ensures GetDataAttribute(name, attrs, kind, defaultValue) == GetDataAttribute(name, attrs, "str", defaultValue)
  {
  }

  /** A `str` read of a present attribute is truthy exactly when the attribute is non-empty. */
  lemma {:induction false} StrReadTruthy(name: string, attrs: map<string, string>)
    ensures Truthy(GetDataAttribute(name, attrs, "str", Bool(false)))
            <==> ("data-" + name in attrs && attrs["data-" + name] != "")
  {
  }
}
