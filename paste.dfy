/**
 * The markup built by `binds.paste` from the clipboard's plain text: simple
 * fields collapse whitespace runs, rich fields get one block per line.
 */
module Paste {
  import opened Attributes

  /** The default block element, `self.default.blockElement`. */
  const BlockElement: string := "p"

  predicate IsBreak(c: char) { c == '\r' || c == '\n' }

  /** `text.replace(/\s+/g, ' ')`: every whitespace run becomes one space. */
  function CollapseSpaces(s: string): (r: string)
    ensures |r| <= |s|
    decreases |s|
  {
    if s == [] then []
    else if IsSpace(s[0]) then " " + CollapseSpaces(TrimStart(s))
    else [s[0]] + CollapseSpaces(s[1..])
  }

  /** The characters of `s` other than whitespace, in order. */
  function Visible(s: string): string
  {
    if s == [] then [] else (if IsSpace(s[0]) then [] else [s[0]]) + Visible(s[1..])
  }

  lemma {:induction false} VisibleOfSpaces(s: string)
    ensures Visible(s) == Visible(TrimStart(s))
  {
    if s != [] && IsSpace(s[0]) {
      VisibleOfSpaces(s[1..]);
    }
  }

  /** Collapsing whitespace keeps every other character, in order. */
  lemma {:induction false} CollapseKeepsText(s: string)
    ensures Visible(CollapseSpaces(s)) == Visible(s)
    decreases |s|
  {
    if s != [] {
      if IsSpace(s[0]) {
        var r := CollapseSpaces(TrimStart(s));
        CollapseKeepsText(TrimStart(s));
        assert (" " + r)[1..] == r;
        VisibleOfSpaces(s);
      } else {
        var r := CollapseSpaces(s[1..]);
        CollapseKeepsText(s[1..]);
        assert ([s[0]] + r)[1..] == r;
      }
    }
  }

  /** The first character of the collapsed text is whitespace exactly when that of the input is. */
  lemma {:induction false} CollapseFirst(s: string)
    requires s != []
    ensures CollapseSpaces(s) != [] && (IsSpace(CollapseSpaces(s)[0]) <==> IsSpace(s[0]))
  {
  }

  /**
   * After collapsing, the only whitespace left is the plain space, and no two
   * whitespace characters are adjacent.
   */
  lemma {:induction false} CollapseShape(s: string)
    ensures forall i :: 0 <= i < |CollapseSpaces(s)| && IsSpace(CollapseSpaces(s)[i]) ==> CollapseSpaces(s)[i] == ' '
    ensures forall i :: 0 <= i < |CollapseSpaces(s)| - 1 ==> !(IsSpace(CollapseSpaces(s)[i]) && IsSpace(CollapseSpaces(s)[i + 1]))
    decreases |s|
  {
    if s != [] {
      var r := CollapseSpaces(s);
      if IsSpace(s[0]) {
        var t := TrimStart(s);
        var q := CollapseSpaces(t);
        CollapseShape(t);
        assert r == " " + q;
        if q != [] {
          CollapseFirst(t);
        }
        assert forall i :: 1 <= i < |r| ==> r[i] == q[i - 1];
      } else {
        var q := CollapseSpaces(s[1..]);
        CollapseShape(s[1..]);
        assert r == [s[0]] + q;
        assert forall i :: 1 <= i < |r| ==> r[i] == q[i - 1];
      }
    }
  }

  predicate AllSpace(w: string)
  {
    forall i :: 0 <= i < |w| ==> IsSpace(w[i])
  }

  /** Text that ends in a visible character. */
  predicate EndsVisible(a: string)
  {
    a != [] && !IsSpace(a[|a| - 1])
  }

  /** Leading whitespace is dropped up to the first visible character, wherever the text goes on after it. */
  lemma {:induction false} TrimStartAppend(a: string, x: string)
    requires EndsVisible(a)
    ensures TrimStart(a + x) == TrimStart(a) + x
    ensures EndsVisible(TrimStart(a)) && |TrimStart(a)| <= |a|
  {
    assert (a + x)[0] == a[0];
    if IsSpace(a[0]) {
      assert |a| > 1;
      assert (a + x)[1..] == a[1..] + x;
      assert a[1..][|a| - 2] == a[|a| - 1];
      TrimStartAppend(a[1..], x);
    }
  }

  /** A run of whitespace followed by text that starts visibly is all dropped. */
  lemma {:induction false} TrimStartRun(w: string, b: string)
    requires AllSpace(w)
    requires b == [] || !IsSpace(b[0])
    ensures TrimStart(w + b) == b
  {
    if w != [] {
      assert (w + b)[0] == w[0] && (w + b)[1..] == w[1..] + b;
      TrimStartRun(w[1..], b);
    } else {
      assert w + b == b;
    }
  }

  /** Collapsing distributes over a cut just after a visible character: no run crosses it. */
  lemma {:induction false} CollapseAppend(a: string, x: string)
    requires a == [] || EndsVisible(a)
    ensures CollapseSpaces(a + x) == CollapseSpaces(a) + CollapseSpaces(x)
    decreases |a|
  {
    if a == [] {
      assert a + x == x;
    } else {
      var ax := a + x;
      assert ax[0] == a[0];
      if IsSpace(a[0]) {
        TrimStartAppend(a, x);
        CollapseAppend(TrimStart(a), x);
      } else {
        assert ax[1..] == a[1..] + x;
        assert |a| > 1 ==> a[1..][|a| - 2] == a[|a| - 1];
        CollapseAppend(a[1..], x);
      }
    }
  }

  /**
   * Each whitespace run becomes exactly one space: between visible text on both
   * sides, a non-empty run of whitespace turns into a single `' '`.
   */
  lemma {:induction false} CollapseRun(a: string, w: string, b: string)
    requires a == [] || EndsVisible(a)
    requires w != [] && AllSpace(w)
    requires b == [] || !IsSpace(b[0])
    ensures CollapseSpaces(a + w + b) == CollapseSpaces(a) + " " + CollapseSpaces(b)
  {
    assert a + w + b == a + (w + b);
    CollapseAppend(a, w + b);
    assert (w + b)[0] == w[0];
    TrimStartRun(w, b);
  }

  /** `text.split(/[\r\n]/)`: the pieces between single line-break characters. */
  function SplitLines(s: string): (r: seq<string>)
    ensures |r| >= 1
  {
    if s == [] then [[]]
    else if IsBreak(s[0]) then [[]] + SplitLines(s[1..])
    else
      var t := SplitLines(s[1..]);
      [[s[0]] + t[0]] + t[1..]
  }

  /** The line-break characters of `s`, in order. */
  function Breaks(s: string): string
  {
    if s == [] then [] else (if IsBreak(s[0]) then [s[0]] else []) + Breaks(s[1..])
  }

  /** The pieces glued back together with the given separators between them. */
  function Join(pieces: seq<string>, seps: string): string
    requires |pieces| == |seps| + 1
  {
    if seps == [] then pieces[0] else pieces[0] + [seps[0]] + Join(pieces[1..], seps[1..])
  }

  predicate NoBreak(s: string)
  {
    forall i :: 0 <= i < |s| ==> !IsBreak(s[i])
  }

  /** There is one more piece than line-break characters. */
  lemma {:induction false} SplitLinesCount(s: string)
    ensures |SplitLines(s)| == |Breaks(s)| + 1
  {
    if s != [] {
      SplitLinesCount(s[1..]);
    }
  }

  /** No piece holds a line break. */
  lemma {:induction false} SplitLinesPieces(s: string)
    ensures forall k :: 0 <= k < |SplitLines(s)| ==> NoBreak(SplitLines(s)[k])
  {
    if s != [] {
      var t := SplitLines(s[1..]);
      SplitLinesPieces(s[1..]);
      var p := SplitLines(s);
      if !IsBreak(s[0]) {
        assert p[0] == [s[0]] + t[0] && p[1..] == t[1..];
        assert NoBreak(p[0]) by {
          forall i | 0 <= i < |p[0]| ensures !IsBreak(p[0][i]) {
            if i > 0 { assert p[0][i] == t[0][i - 1]; }
          }
        }
        forall k | 0 < k < |p| ensures NoBreak(p[k]) { assert p[k] == t[k]; }
      } else {
        forall k | 0 < k < |p| ensures NoBreak(p[k]) { assert p[k] == t[k - 1]; }
      }
    }
  }

  /**
   * Splitting loses nothing but the separators: joining the pieces with the
   * line breaks in their order gives the text back.
   */
  lemma {:induction false} SplitLinesJoin(s: string)
    ensures |SplitLines(s)| == |Breaks(s)| + 1
    ensures Join(SplitLines(s), Breaks(s)) == s
  {
    SplitLinesCount(s);
    if s != [] {
      var t := SplitLines(s[1..]);
      var b := Breaks(s[1..]);
      SplitLinesJoin(s[1..]);
      if IsBreak(s[0]) {
        assert Breaks(s) == [s[0]] + b;
        JoinAfterBreak(t, s[0], b);
      } else {
        assert Breaks(s) == b;
        JoinIntoFirst(t, s[0], b);
      }
      assert s == [s[0]] + s[1..];
    }
  }

  /** A separator in front: an empty first piece, then the rest. */
  lemma JoinAfterBreak(t: seq<string>, c: char, b: string)
    requires |t| == |b| + 1
    ensures Join([[]] + t, [c] + b) == [c] + Join(t, b)
  {
    var p := [[]] + t;
    var q := [c] + b;
    assert p[0] == [] && p[1..] == t && q[0] == c && q[1..] == b;
  }

  /** A character in front joins the first piece. */
  lemma JoinIntoFirst(t: seq<string>, c: char, b: string)
    requires |t| == |b| + 1
    ensures Join([[c] + t[0]] + t[1..], b) == [c] + Join(t, b)
  {
    var p := [[c] + t[0]] + t[1..];
    assert p[0] == [c] + t[0] && p[1..] == t[1..];
    if b != [] {
      var r := Join(t[1..], b[1..]);
      assert Join(p, b) == ([c] + t[0]) + [b[0]] + r;
      assert Join(t, b) == t[0] + [b[0]] + r;
    }
  }

  /** Text without line breaks is one piece. */
  lemma {:induction false} SplitLinesNoBreak(a: string)
    requires NoBreak(a)
    ensures SplitLines(a) == [a]
  {
    if a != [] {
      SplitLinesNoBreak(a[1..]);
      assert a == [a[0]] + a[1..];
    }
  }

  /** A line break ends the piece before it: `split("a" + "\n" + s) == ["a"] + split(s)`. */
  lemma {:induction false} SplitLinesAtBreak(a: string, c: char, s: string)
    requires NoBreak(a) && IsBreak(c)
    ensures SplitLines(a + [c] + s) == [a] + SplitLines(s)
  {
    var x := a + [c] + s;
    if a == [] {
      assert x == [c] + s && x[1..] == s;
    } else {
      assert x[0] == a[0] && x[1..] == a[1..] + [c] + s;
      SplitLinesAtBreak(a[1..], c, s);
      assert a == [a[0]] + a[1..];
    }
  }

  /** `"\r\n"` is two separators, so it leaves an empty piece between its neighbours. */
  lemma CarriageReturnLineFeed(a: string, b: string)
    requires NoBreak(a) && NoBreak(b)
    ensures SplitLines(a + "\r\n" + b) == [a, [], b]
  {
    assert a + "\r\n" + b == a + ['\r'] + ([] + ['\n'] + b);
    SplitLinesAtBreak(a, '\r', [] + ['\n'] + b);
    SplitLinesAtBreak([], '\n', b);
    SplitLinesNoBreak(b);
  }

  /** One block of the default element around `x`: `<p>` + x + `</p>`. */
  function Block(x: string): string
  {
    "<" + BlockElement + ">" + x + "</" + BlockElement + ">"
  }

  /** The concatenation over the pieces of `Block(piece)`. */
  function WrapBlocks(pieces: seq<string>): (html: string)
  {
    if pieces == [] then [] else Block(pieces[0]) + WrapBlocks(pieces[1..])
  }

  lemma {:induction false} WrapBlocksAppend(p: seq<string>, q: seq<string>)
    ensures WrapBlocks(p + q) == WrapBlocks(p) + WrapBlocks(q)
  {
    if p != [] {
      assert (p + q)[0] == p[0] && (p + q)[1..] == p[1..] + q;
      WrapBlocksAppend(p[1..], q);
    } else {
      assert p + q == q;
    }
  }

  /**
   * `binds.paste`'s markup for a field of type `kind`: one block per line for a
   * rich field; collapsed whitespace for a simple field and for any other type
   * (the switch's default branch).
   */
  function PasteHtml(kind: string, text: string): (html: string)
    ensures NoBreak(html)
  {
    if kind == "rich" then
      SplitLinesPieces(text);
      WrapBlocksNoBreak(SplitLines(text));
      WrapBlocks(SplitLines(text))
    else
      CollapseNoBreak(text);
      CollapseSpaces(text)
  }

  /** Collapsing turns every line break into a plain space. */
  lemma {:induction false} CollapseNoBreak(s: string)
    ensures NoBreak(CollapseSpaces(s))
  {
    CollapseShape(s);
  }

  /** The loop of `binds.paste`, pushing an opening tag, the line and a closing tag per line. */
  method Markup(kind: string, text: string) returns (html: string)
    ensures html == PasteHtml(kind, text)
  {
    if kind == "rich" {
      var blocks := SplitLines(text);
      html := [];
      var i := 0;
      while i < |blocks|
        invariant 0 <= i <= |blocks|
        invariant html == WrapBlocks(blocks[..i])
      {
        WrapBlocksSnoc(blocks[..i], blocks[i]);
        assert blocks[..i + 1] == blocks[..i] + [blocks[i]];
        html := html + Block(blocks[i]);
        i := i + 1;
      }
      assert blocks[..|blocks|] == blocks;
    } else {
      html := CollapseSpaces(text);
    }
  }

  /** One more piece adds its block at the end. */
  lemma WrapBlocksSnoc(p: seq<string>, x: string)
    ensures WrapBlocks(p + [x]) == WrapBlocks(p) + Block(x)
  {
    WrapBlocksAppend(p, [x]);
    assert [x][1..] == [];
    assert WrapBlocks([x]) == Block(x) + WrapBlocks([]);
  }

  lemma {:induction false} WrapTwo(x: string, y: string)
    ensures WrapBlocks([x, y]) == Block(x) + Block(y)
  {
    var ps := [x, y];
    assert ps[0] == x && ps[1..] == [y];
    assert [y][1..] == [];
    assert WrapBlocks([y]) == Block(y) + [];
  }

  lemma {:induction false} WrapThree(x: string, y: string, z: string)
    ensures WrapBlocks([x, y, z]) == Block(x) + Block(y) + Block(z)
  {
    var ps := [x, y, z];
    assert ps[0] == x && ps[1..] == [y, z];
    WrapTwo(y, z);
  }

  /** `"a\nb"` pasted into a rich field gives `<p>a</p><p>b</p>`. */
  lemma {:induction false} PasteTwoLines(a: string, b: string)
    requires NoBreak(a) && NoBreak(b)
    ensures PasteHtml("rich", a + "\n" + b) == Block(a) + Block(b)
  {
    assert a + "\n" + b == a + ['\n'] + b;
    SplitLinesAtBreak(a, '\n', b);
    SplitLinesNoBreak(b);
    assert [a] + [b] == [a, b];
    WrapTwo(a, b);
  }

  /** `"a\r\nb"` pasted into a rich field gives three blocks, the middle one empty. */
  lemma {:induction false} PasteCarriageReturnLineFeed(a: string, b: string)
    requires NoBreak(a) && NoBreak(b)
    ensures PasteHtml("rich", a + "\r\n" + b) == Block(a) + Block([]) + Block(b)
  {
    CarriageReturnLineFeed(a, b);
    WrapThree(a, [], b);
  }

  /** Rich paste output holds no line-break character. */
  lemma {:induction false} WrapBlocksNoBreak(pieces: seq<string>)
    requires forall k :: 0 <= k < |pieces| ==> NoBreak(pieces[k])
    ensures NoBreak(WrapBlocks(pieces))
  {
    if pieces != [] {
      WrapBlocksNoBreak(pieces[1..]);
      var w := WrapBlocks(pieces);
      var head := Block(pieces[0]);
      var tail := WrapBlocks(pieces[1..]);
      assert w == head + tail;
      assert NoBreak(head) by {
        forall i | 0 <= i < |head| ensures !IsBreak(head[i]) {
          if 3 <= i < 3 + |pieces[0]| { assert head[i] == pieces[0][i - 3]; }
        }
      }
      forall i | 0 <= i < |w| ensures !IsBreak(w[i]) {
        if i >= |head| { assert w[i] == tail[i - |head|]; }
      }
    }
  }
}
