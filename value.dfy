/**
 * The text pipeline of `getValue` for a simple field: every line break, with
 * one optional `.` after it, becomes a single space, then trailing whitespace
 * is cut off.
 */
module Value {
  import opened Attributes
  import Paste

  /** Drops one `.` right after a line break, the `[.]?` of the break pattern. */
  function SkipDot(t: string): (r: string)
    ensures |r| <= |t|
  {
    if t != [] && t[0] == '.' then t[1..] else t
  }

  /**
   * `replace(/(\r\n|\n|\r)[.]?/g, ' ')`: scanning left to right, `"\r\n"` is
   * tried before a lone `"\n"` or `"\r"`.
   */
  function ReplaceBreaks(s: string): (r: string)
    ensures |r| <= |s|
  {
    if s == [] then []
    else if |s| >= 2 && s[0] == '\r' && s[1] == '\n' then " " + ReplaceBreaks(SkipDot(s[2..]))
    else if Paste.IsBreak(s[0]) then " " + ReplaceBreaks(SkipDot(s[1..]))
    else [s[0]] + ReplaceBreaks(s[1..])
  }

  /** `replace(/\s+$/g, '')`: the text without its trailing whitespace. */
  function TrimEnd(s: string): (r: string)
    ensures |r| <= |s| && r == s[..|r|]
    ensures r == [] || !IsSpace(r[|r| - 1])
    ensures forall i :: |r| <= i < |s| ==> IsSpace(s[i])
  {
    if s != [] && IsSpace(s[|s| - 1]) then TrimEnd(s[..|s| - 1]) else s
  }

  /**
   * The value `getValue` reports for a field whose rendered text is `text`: one
   * line (no line break) that ends in a visible character (no trailing whitespace).
   */
  function SimpleValue(text: string): (v: string)
    ensures Paste.NoBreak(v)
    ensures v == [] || !IsSpace(v[|v| - 1])
  {
    var r := ReplaceBreaks(text);
    ReplaceBreaksLeavesNoBreak(text);
    var v := TrimEnd(r);
    assert forall i :: 0 <= i < |v| ==> v[i] == r[i];
    v
  }

  lemma {:induction false} ReplaceBreaksCons(c: char, s: string)
    requires !Paste.IsBreak(c)
    ensures ReplaceBreaks([c] + s) == [c] + ReplaceBreaks(s)
  {
    assert ([c] + s)[1..] == s;
  }

  /** No line break survives the replacement. */
  lemma {:induction false} ReplaceBreaksLeavesNoBreak(s: string)
    ensures Paste.NoBreak(ReplaceBreaks(s))
    decreases |s|
  {
    if s != [] {
      if |s| >= 2 && s[0] == '\r' && s[1] == '\n' {
        ReplaceBreaksLeavesNoBreak(SkipDot(s[2..]));
      } else if Paste.IsBreak(s[0]) {
        ReplaceBreaksLeavesNoBreak(SkipDot(s[1..]));
      } else {
        ReplaceBreaksLeavesNoBreak(s[1..]);
      }
      var r := ReplaceBreaks(s);
      var t := r[1..];
      assert Paste.NoBreak(t);
      forall i | 0 <= i < |r| ensures !Paste.IsBreak(r[i]) {
        if i > 0 { assert r[i] == t[i - 1]; }
      }
    }
  }

  /** Text without line breaks passes the replacement untouched. */
  lemma {:induction false} ReplaceBreaksPlain(s: string)
    requires Paste.NoBreak(s)
    ensures ReplaceBreaks(s) == s
  {
    if s != [] {
      ReplaceBreaksPlain(s[1..]);
      ReplaceBreaksCons(s[0], s[1..]);
      assert s == [s[0]] + s[1..];
    }
  }

  /** Text without line breaks in front is copied in front of the replacement. */
  lemma {:induction false} ReplaceBreaksPlainPrefix(a: string, s: string)
    requires Paste.NoBreak(a)
    ensures ReplaceBreaks(a + s) == a + ReplaceBreaks(s)
  {
    if a != [] {
      var t := a + s;
      var r := ReplaceBreaks(s);
      assert t[0] == a[0] && t[1..] == a[1..] + s;
      NoBreakTail(a);
      ReplaceBreaksPlainPrefix(a[1..], s);
      ReplaceBreaksHead(t);
      assert [a[0]] + (a[1..] + r) == a + r;
    } else {
      assert a + s == s;
    }
  }

  lemma NoBreakTail(a: string)
    requires a != [] && Paste.NoBreak(a)
    ensures Paste.NoBreak(a[1..]) && !Paste.IsBreak(a[0])
  {
    forall i | 0 <= i < |a[1..]| ensures !Paste.IsBreak(a[1..][i]) { assert a[1..][i] == a[i + 1]; }
  }

  /** A first character that is not a line break is copied. */
  lemma ReplaceBreaksHead(t: string)
    requires t != [] && !Paste.IsBreak(t[0])
    ensures ReplaceBreaks(t) == [t[0]] + ReplaceBreaks(t[1..])
  {
  }

  /**
   * A Windows line break and the full stop after it are one match:
   * `"a\r\n.b"` reads as `"a b"`.
   */
  lemma {:induction false} BreakAndDotAreOneSpace(a: string, b: string)
    requires Paste.NoBreak(a) && Paste.NoBreak(b)
    ensures ReplaceBreaks(a + "\r\n." + b) == a + " " + b
  {
    var x := "\r\n." + b;
    assert a + "\r\n." + b == a + x;
    ReplaceBreaksPlainPrefix(a, x);
    assert |x| >= 2 && x[0] == '\r' && x[1] == '\n';
    assert x[2..] == "." + b;
    assert SkipDot(x[2..]) == b;
    ReplaceBreaksPlain(b);
    assert ReplaceBreaks(x) == " " + b;
  }

  /** Trimming twice is trimming once. */
  lemma {:induction false} TrimEndIdempotent(s: string)
    ensures TrimEnd(TrimEnd(s)) == TrimEnd(s)
  {
  }

  /** One line of text that does not end in whitespace is reported as it is. */
  lemma {:induction false} SimpleValueOfPlainLine(text: string)
    requires Paste.NoBreak(text) && (text == [] || !IsSpace(text[|text| - 1]))
    ensures SimpleValue(text) == text
  {
    ReplaceBreaksPlain(text);
  }
}
