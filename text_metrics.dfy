/**
 * Text metrics: the character count `setLength` stores in `field.length`.
 * The markup pattern (editor.js line 32) is written out by hand: a `<`, a run
 * of slashes, a run of tag characters, a run of slashes and a `>`.
 * The count then replaces every whitespace character and every `&nbsp;` by `_`.
 */
module TextMetrics {
  import opened Wrappers
  import opened Attributes

  predicate IsWordChar(c: char)
  {
    ('A' <= c <= 'Z') || ('a' <= c <= 'z') || IsDigit(c) || c == '_'
  }

  /** Members of the bracket class `[\w\s01-9='":;,\-]`. */
  predicate IsTagChar(c: char)
  {
    IsWordChar(c) || IsSpace(c) || c == '=' || c == '\'' || c == '"' || c == ':'
    || c == ';' || c == ',' || c == '-'
  }

  /**
   * Where the matcher stands after the `<`: in the leading run of slashes, in the
   * run of tag characters, or in the trailing run of slashes.
   */
  datatype Phase = Lead | Body | Trail

  /**
   * The number of characters the tag pattern consumes after its `<`, the closing
   * `>` included, or `None` if no match starts here. Neither a slash nor a `>` is
   * a tag character, so the first `>` reached ends the only possible match and
   * the greedy match of the regular expression is exactly this one.
   */
  function TagRest(u: string, phase: Phase): (r: Option<nat>)
    ensures r.Some? ==> 1 <= r.value <= |u|
  {
    if u == [] then None
    else if u[0] == '>' then Some(1)
    else if u[0] == '/' then
      (match TagRest(u[1..], if phase == Lead then Lead else Trail)
       case Some(k) => Some(k + 1)
       case None => None)
    else if IsTagChar(u[0]) && phase != Trail then
      (match TagRest(u[1..], Body)
       case Some(k) => Some(k + 1)
       case None => None)
    else None
  }

  lemma {:induction false} TagRestPrefix(u: string, phase: Phase, rest: string)
    requires TagRest(u, phase).Some?
    ensures TagRest(u + rest, phase) == TagRest(u, phase)
  {
    assert (u + rest)[0] == u[0];
    if u[0] != '>' {
      assert (u + rest)[1..] == u[1..] + rest;
      if u[0] == '/' {
        TagRestPrefix(u[1..], if phase == Lead then Lead else Trail, rest);
      } else {
        TagRestPrefix(u[1..], Body, rest);
      }
    }
  }

  /** The length of the match of the tag pattern at the start of `s`, if one starts there. */
  function TagLen(s: string): (r: Option<nat>)
    ensures r.Some? ==> 2 <= r.value <= |s| && s[0] == '<'
    ensures s == [] || s[0] != '<' ==> r.None?
  {
    if s == [] || s[0] != '<' then None
    else match TagRest(s[1..], Lead)
      case Some(k) => Some(k + 1)
      case None => None
  }

  /** `t` is exactly one match of the tag pattern. */
  predicate IsTag(t: string)
  {
    TagLen(t) == Some(|t|)
  }

  /** A tag matched at the front of `s` is still matched, unchanged, when text follows. */
  lemma {:induction false} TagLenPrefix(s: string, rest: string)
    requires TagLen(s).Some?
    ensures TagLen(s + rest) == TagLen(s)
  {
    var x := s + rest;
    assert x[0] == s[0];
    assert x[1..] == s[1..] + rest;
    TagRestPrefix(s[1..], Lead, rest);
  }

  /** `html.replace(regex.markup, '')`: every tag-shaped substring removed. */
  function StripTags(s: string): (r: string)
    ensures |r| <= |s|
    decreases |s|
  {
    if s == [] then []
    else if s[0] != '<' then [s[0]] + StripTags(s[1..])
    else match TagLen(s)
      case Some(k) => StripTags(s[k..])
      case None => [s[0]] + StripTags(s[1..])
  }

  /** `.replace(regex.spaceAndEnbsp, '_')`: each whitespace character and each `&nbsp;` becomes one `_`. */
  function MarkSpaces(t: string): (r: string)
    ensures |r| <= |t|
  {
    if t == [] then []
    else if |t| >= 6 && t[..6] == "&nbsp;" then "_" + MarkSpaces(t[6..])
    else if IsSpace(t[0]) then "_" + MarkSpaces(t[1..])
    else [t[0]] + MarkSpaces(t[1..])
  }

  /**
   * The UTF-16 code units of one character, which is what a JavaScript string's
   * `.length` counts: two (a surrogate pair) above the Basic Multilingual Plane.
   */
  function Units(c: char): nat
  {
    if c >= '\U{10000}' then 2 else 1
  }

  /** A JavaScript string's `.length`: its number of UTF-16 code units. */
  function Utf16Length(s: string): (n: nat)
    ensures |s| <= n <= 2 * |s|
  {
    if s == [] then 0 else Units(s[0]) + Utf16Length(s[1..])
  }

  /** Text inside the Basic Multilingual Plane has one code unit per character. */
  lemma {:induction false} Utf16LengthBmp(s: string)
    requires forall i :: 0 <= i < |s| ==> s[i] < '\U{10000}'
    ensures Utf16Length(s) == |s|
  {
    if s != [] {
      assert s[0] < '\U{10000}';
      Utf16LengthBmp(s[1..]);
    }
  }

  /** The value `setLength` assigns to `field.length`. */
  function TextLength(html: string): (n: nat)
    ensures n <= 2 * |html|
  {
    Utf16Length(MarkSpaces(StripTags(html)))
  }

  /** A character that cannot open a tag is kept. */
  lemma {:induction false} StripTagsStep(s: string)
    requires s != [] && TagLen(s).None?
    ensures StripTags(s) == [s[0]] + StripTags(s[1..])
  {
  }

  lemma {:induction false} StripTagsCons(c: char, s: string)
    requires c != '<'
    ensures StripTags([c] + s) == [c] + StripTags(s)
  {
    var x := [c] + s;
    assert x[0] == c && x[1..] == s;
  }

  lemma {:induction false} StripTagsPlainPrefix(p: string, s: string)
    requires '<' !in p
    ensures StripTags(p + s) == p + StripTags(s)
  {
    if p != [] {
      var q := p[1..];
      assert p == [p[0]] + q;
      calc {
        StripTags(p + s);
        { assert p + s == [p[0]] + (q + s); }
        StripTags([p[0]] + (q + s));
        { StripTagsCons(p[0], q + s); }
        [p[0]] + StripTags(q + s);
        { StripTagsPlainPrefix(q, s); }
        [p[0]] + (q + StripTags(s));
        p + StripTags(s);
      }
    } else {
      assert p + s == s;
    }
  }

  /** After marking, no whitespace character is left. */
  lemma {:induction false} MarkSpacesLeavesNoSpace(t: string)
    ensures forall i :: 0 <= i < |MarkSpaces(t)| ==> !IsSpace(MarkSpaces(t)[i])
  {
    if t != [] {
      MarkSpacesLeavesNoSpace(if |t| >= 6 && t[..6] == "&nbsp;" then t[6..] else t[1..]);
    }
  }

  lemma {:induction false} MarkSpacesPlain(t: string)
    requires forall i :: 0 <= i < |t| ==> t[i] != '&' && !IsSpace(t[i])
    ensures MarkSpaces(t) == t
  {
    if t != [] {
      assert |t| >= 6 ==> t[..6][0] == t[0];
      assert MarkSpaces(t) == [t[0]] + MarkSpaces(t[1..]);
      MarkSpacesPlain(t[1..]);
    }
  }

  /**
   * Text free of tags, entities and whitespace measures its own `.length`: one per
   * character, two for a character outside the Basic Multilingual Plane.
   */
  lemma {:induction false} TextLengthPlain(s: string)
    requires forall i :: 0 <= i < |s| ==> s[i] != '<' && s[i] != '&' && !IsSpace(s[i])
    ensures TextLength(s) == Utf16Length(s)
    ensures (forall i :: 0 <= i < |s| ==> s[i] < '\U{10000}') ==> TextLength(s) == |s|
  {
    if forall i :: 0 <= i < |s| ==> s[i] < '\U{10000}' {
      Utf16LengthBmp(s);
    }
    assert '<' !in s by {
      forall i | 0 <= i < |s| ensures s[i] != '<' { }
    }
    StripTagsPlainPrefix(s, []);
    assert s + [] == s;
    MarkSpacesPlain(s);
  }

  /** A tag in front of the markup contributes nothing to the count. */
  lemma {:induction false} TextLengthTag(t: string, s: string)
    requires IsTag(t)
    ensures TextLength(t + s) == TextLength(s)
  {
    TagLenPrefix(t, s);
    assert (t + s)[|t|..] == s;
  }

  /**
   * Any character other than `<` and `&` in front of the markup adds its code
   * units: one, or two for a character outside the Basic Multilingual Plane.
   */
  lemma {:induction false} TextLengthChar(c: char, s: string)
    requires c != '<' && c != '&'
    ensures TextLength([c] + s) == Units(c) + TextLength(s)
    ensures TextLength([c] + s) == (if c < '\U{10000}' then 1 else 2) + TextLength(s)
  {
    var x := [c] + s;
    assert x[0] == c;
    StripTagsStep(x);
    assert x[1..] == s;
    MarkSpacesStep(c, StripTags(s));
  }

  /** A character other than `&` keeps its code units: whitespace is a one-unit character, and so is `_`. */
  lemma {:induction false} MarkSpacesStep(c: char, t: string)
    requires c != '&'
    ensures Utf16Length(MarkSpaces([c] + t)) == Units(c) + Utf16Length(MarkSpaces(t))
  {
    var x := [c] + t;
    assert |x| >= 6 ==> x[..6][0] == c;
    assert x[1..] == t;
    var m := MarkSpaces(x);
    assert m == (if IsSpace(c) then "_" else [c]) + MarkSpaces(t);
    assert m[0] == (if IsSpace(c) then '_' else c) && m[1..] == MarkSpaces(t);
  }

  /** An emoji is one character of the text and two code units of its length. */
  lemma {:induction false} EmojiCountsTwo()
    ensures TextLength("\U{1F600}") == 2
  {
    TextLengthChar('\U{1F600}', "");
    assert ['\U{1F600}'] + "" == "\U{1F600}";
  }

  /** An `&nbsp;` in front of the markup counts as exactly one. */
  lemma {:induction false} TextLengthNbsp(s: string)
    ensures TextLength("&nbsp;" + s) == 1 + TextLength(s)
  {
    StripTagsPlainPrefix("&nbsp;", s);
    var t := "&nbsp;" + StripTags(s);
    assert t[..6] == "&nbsp;" && t[6..] == StripTags(s);
    var m := MarkSpaces(t);
    assert m[0] == '_' && m[1..] == MarkSpaces(StripTags(s));
  }

  function Concat(ts: seq<string>): string
  {
    if ts == [] then [] else ts[0] + Concat(ts[1..])
  }

  /** Markup made only of tags has length 0. */
  lemma {:induction false} TagsOnlyHaveNoLength(ts: seq<string>)
    requires forall i :: 0 <= i < |ts| ==> IsTag(ts[i])
    ensures TextLength(Concat(ts)) == 0
  {
    if ts != [] {
      TagsOnlyHaveNoLength(ts[1..]);
      TextLengthTag(ts[0], Concat(ts[1..]));
    }
  }

  lemma {:induction false} TagRestOfName(name: string, phase: Phase)
    requires forall i :: 0 <= i < |name| ==> IsTagChar(name[i])
    requires phase != Trail
    ensures TagRest(name + ">", phase) == Some(|name| + 1)
  {
    var u := name + ">";
    if name == [] {
      assert u == ">";
    } else {
      assert u[0] == name[0] && u[1..] == name[1..] + ">";
      assert name[0] != '>' && name[0] != '/';
      TagRestOfName(name[1..], Body);
    }
  }

  /** `<name>` and `</name>` are tags whenever `name` is made of tag characters. */
  lemma {:induction false} OpenAndCloseTags(name: string)
    requires forall i :: 0 <= i < |name| ==> IsTagChar(name[i])
    ensures IsTag("<" + name + ">") && IsTag("</" + name + ">")
  {
    TagRestOfName(name, Lead);
    var o := "<" + name + ">";
    assert o[0] == '<' && o[1..] == name + ">";
    var c := "</" + name + ">";
    var u := "/" + name + ">";
    assert c[0] == '<' && c[1..] == u;
    assert u[0] == '/' && u[1..] == name + ">";
  }

  /** A matched tag is dropped whole. */
  lemma {:induction false} StripTagsTag(s: string, k: nat)
    requires s != [] && TagLen(s) == Some(k)
    ensures StripTags(s) == StripTags(s[k..])
  {
  }

  /** Removing tags is not idempotent: `<<a>>` loses `<a>` and leaves the tag `<>`. */
  lemma {:induction false} StripTagsNotIdempotent()
    ensures StripTags("<<a>>") == "<>"
    ensures StripTags(StripTags("<<a>>")) == ""
  {
    var s := "<<a>>";
    var u := "<a>>";
    assert s[0] == '<' && s[1..] == u;
    assert !IsTagChar('<');
    assert TagRest(u, Lead) == None;
    StripTagsStep(s);
    assert u[1..] == "a>>";
    TagRestOfName("a", Lead);
    assert "a" + ">" == "a>";
    TagRestPrefix("a>", Lead, ">");
    assert "a>" + ">" == "a>>";
    assert TagLen(u) == Some(3);
    StripTagsTag(u, 3);
    assert u[3..] == ">";
    assert StripTags(">") == ">" by { StripTagsCons('>', ""); }
    OpenAndCloseTags("");
    assert "<" + "" + ">" == "<>";
    StripTagsTag("<>", 2);
    assert "<>"[2..] == [];
  }
}
