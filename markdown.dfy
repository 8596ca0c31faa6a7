/** The chat bubble's markdown subset: four global regular-expression
    replacements applied in a fixed order (bold, italic, link, newline).
    Each pass is written out as the left-to-right scan that JavaScript's
    `String.prototype.replace` with a global regex performs: try to match at
    the current index; on success emit the replacement and resume after the
    match, otherwise copy one character and move on. */
module ChatMarkdown {
  import opened Basics
  import opened JsStrings
  import Gemini

  /** Where the lazy group `(.*?)` of an emphasis pattern stops: the first
      index j >= k at which the closing delimiter `d` occurs, provided no
      line terminator (which `.` does not match) lies in between. */
  function CloseFrom(s: string, d: string, k: nat): (r: Option<nat>)
    requires k <= |s|
    ensures r.Some? ==> k <= r.value && OccursAt(s, d, r.value)
    ensures r.Some? ==> forall i :: k <= i < r.value ==> !IsLineTerminator(s[i]) && !OccursAt(s, d, i)
    decreases |s| - k
  {
    if k + |d| > |s| then None
    else if s[k..k + |d|] == d then Some(k)
    else if IsLineTerminator(s[k]) then None
    else CloseFrom(s, d, k + 1)
  }

  function OpenTag(tag: string): string
  {
    "<" + tag + ">"
  }

  function CloseTag(tag: string): string
  {
    "</" + tag + ">"
  }

  /** The two tags the emphasis passes produce, spelled out. */
  lemma TagsSpelledOut()
    ensures OpenTag("strong") == "<strong>" && CloseTag("strong") == "</strong>"
    ensures OpenTag("em") == "<em>" && CloseTag("em") == "</em>"
  {
  }

  /** One emphasis pass: every `d(.*?)d` becomes `<tag>…</tag>`. */
  function Emphasis(s: string, d: string, tag: string): string
    requires |d| > 0
    decreases |s|
  {
    if s == [] then []
    else if OccursAt(s, d, 0) && CloseFrom(s, d, |d|).Some? then
      var j := CloseFrom(s, d, |d|).value;
      OpenTag(tag) + s[|d|..j] + CloseTag(tag) + Emphasis(s[j + |d|..], d, tag)
    else [s[0]] + Emphasis(s[1..], d, tag)
  }

  // The bold pass: each `**…**` (lazy, within one line) becomes `<strong>…</strong>`.
  function Bold(s: string): string
  {
    Emphasis(s, "**", "strong")
  }

  // The italic pass: each `*…*` (lazy, within one line) becomes `<em>…</em>`.
  function Italic(s: string): string
  {
    Emphasis(s, "*", "em")
  }

  /** The first index i >= k with s[i] == c. */
  function FirstFrom(s: string, c: char, k: nat): (r: Option<nat>)
    requires k <= |s|
    ensures r.Some? ==> k <= r.value < |s| && s[r.value] == c
    ensures r.Some? ==> forall i :: k <= i < r.value ==> s[i] != c
    ensures r.None? ==> forall i :: k <= i < |s| ==> s[i] != c
    decreases |s| - k
  {
    if k == |s| then None
    else if s[k] == c then Some(k)
    else FirstFrom(s, c, k + 1)
  }

  lemma FirstFromFinds(s: string, c: char, k: nat, j: nat)
    requires k <= j < |s| && s[j] == c
    requires forall i :: k <= i < j ==> s[i] != c
    ensures FirstFrom(s, c, k) == Some(j)
  {
  }

  // A match of the link pattern at index 0 of `s`: the link text, the URL and
  // the length of the match. The text runs to the first `]`, the URL to the
  // first `)` after `](`; both must be non-empty.
  function LinkAt(s: string): (r: Option<(string, string, nat)>)
    ensures r.Some? ==>
      var (t, u, e) := r.value;
      && 0 < e <= |s| && s[..e] == "[" + t + "](" + u + ")"
      && t != [] && ']' !in t && u != [] && ')' !in u
  {
    if s == [] || s[0] != '[' then None
    else match FirstFrom(s, ']', 1)
      case None => None
      case Some(p) =>
        if p == 1 || p + 1 >= |s| || s[p + 1] != '(' then None
        else match FirstFrom(s, ')', p + 2)
          case None => None
          case Some(q) =>
            if q == p + 2 then None
            else
              assert s[..q + 1] == "[" + s[1..p] + "](" + s[p + 2..q] + ")";
              Some((s[1..p], s[p + 2..q], q + 1))
  }

  const AnchorTarget := "\" target=\"_blank\""
  const AnchorRel := " rel=\"noopener noreferrer\""
  const AnchorClass := " class=\"text-blue-400 hover:underline\">"
  const AnchorAttributes := AnchorTarget + AnchorRel + AnchorClass

  function Anchor(text: string, href: string): string
  {
    "<a href=\"" + href + AnchorAttributes + text + "</a>"
  }

  /** The link pass. */
  function Links(s: string): string
    decreases |s|
  {
    if s == [] then []
    else match LinkAt(s)
      case Some((t, u, e)) => Anchor(t, u) + Links(s[e..])
      case None => [s[0]] + Links(s[1..])
  }

  /** The newline pass: every `\n` becomes `<br>`; no newline is left, and text without one is kept. */
  function Newlines(s: string): (r: string)
    ensures '\n' !in r
    ensures '\n' !in s ==> r == s
  {
    if s == [] then []
    else (if s[0] == '\n' then "<br>" else [s[0]]) + Newlines(s[1..])
  }

  /** `renderMarkdown`: empty text renders as empty, and the result never
      holds a newline. */
  function RenderMarkdown(text: string): (r: string)
    ensures text == [] ==> r == []
    ensures '\n' !in r
  {
    if text == [] then []
    else Newlines(Links(Italic(Bold(text))))
  }

  lemma {:induction false} EmphasisWithoutStar(s: string, d: string, tag: string)
    requires |d| > 0 && d[0] == '*' && '*' !in s
    ensures Emphasis(s, d, tag) == s
    decreases |s|
  {
    if s != [] {
      NotOccursAt(s, d, 0);
      EmphasisWithoutStar(s[1..], d, tag);
      assert s == [s[0]] + s[1..];
    }
  }

  lemma {:induction false} LinksWithoutBracket(s: string)
    requires '[' !in s
    ensures Links(s) == s
    decreases |s|
  {
    if s != [] {
      LinksWithoutBracket(s[1..]);
      assert s == [s[0]] + s[1..];
    }
  }

  /** Text with no `*`, `[` or newline is shown as it is. */
  lemma PlainTextUnchanged(s: string)
    requires '*' !in s && '[' !in s && '\n' !in s
    ensures RenderMarkdown(s) == s
  {
    EmphasisWithoutStar(s, "**", "strong");
    EmphasisWithoutStar(s, "*", "em");
    LinksWithoutBracket(s);
  }

  /** The delimiter cannot occur where its first character is missing. */
  lemma NotOccursAt(s: string, d: string, i: nat)
    requires i < |s| && |d| > 0 && s[i] != d[0]
    ensures !OccursAt(s, d, i)
  {
    if i + |d| <= |s| {
      assert s[i..i + |d|][0] == s[i];
    }
  }

  lemma {:induction false} CloseFromFinds(s: string, d: string, k: nat, j: nat)
    requires k <= j <= |s| && OccursAt(s, d, j)
    requires forall i :: k <= i < j ==> !IsLineTerminator(s[i]) && !OccursAt(s, d, i)
    ensures CloseFrom(s, d, k) == Some(j)
    decreases j - k
  {
    if k < j {
      assert !OccursAt(s, d, k);
      assert s[k..k + |d|] != d;
      CloseFromFinds(s, d, k + 1, j);
    }
  }

  /** An emphasised span `d x d` whose inner text has no `*` and no line
      terminator is replaced by `<tag>x</tag>`, and the scan resumes after it. */
  lemma EmphasisSpan(x: string, rest: string, d: string, tag: string)
    requires d == "**" || d == "*"
    requires '*' !in x && forall i :: 0 <= i < |x| ==> !IsLineTerminator(x[i])
    ensures Emphasis(d + x + d + rest, d, tag) == OpenTag(tag) + x + CloseTag(tag) + Emphasis(rest, d, tag)
  {
    var s := d + x + d + rest;
    var j := |d| + |x|;
    assert s[..|d|] == d && s[|d|..j] == x && s[j..j + |d|] == d && s[j + |d|..] == rest;
    assert CloseFrom(s, d, |d|) == Some(j) by {
      forall i | |d| <= i < j
        ensures !IsLineTerminator(s[i]) && !OccursAt(s, d, i)
      {
        assert s[i] == x[i - |d|];
        NotOccursAt(s, d, i);
      }
      CloseFromFinds(s, d, |d|, j);
    }
    assert OccursAt(s, d, 0);
  }

  /** `**x**` is rendered bold, and only because the bold pass runs first:
      the italic pass on its own would turn each `**` into an empty `<em></em>`. */
  lemma BoldBeforeItalic(x: string)
    requires '*' !in x && '[' !in x
    requires forall i :: 0 <= i < |x| ==> !IsLineTerminator(x[i])
    ensures RenderMarkdown("**" + x + "**") == "<strong>" + x + "</strong>"
    ensures Italic("**" + x + "**") == "<em></em>" + x + "<em></em>"
  {
    RenderBold(x);
    ItalicSplitsBold(x);
  }

  lemma RenderBold(x: string)
    requires '*' !in x && '[' !in x
    requires forall i :: 0 <= i < |x| ==> !IsLineTerminator(x[i])
    ensures RenderMarkdown("**" + x + "**") == "<strong>" + x + "</strong>"
  {
    var s := "**" + x + "**";
    var b := "<strong>" + x + "</strong>";
    BoldSpanAlone(x);
    StrongWithoutMarkup(x);
    EmphasisWithoutStar(b, "*", "em");
    LinksWithoutBracket(b);
  }

  lemma BoldSpanAlone(x: string)
    requires '*' !in x && forall i :: 0 <= i < |x| ==> !IsLineTerminator(x[i])
    ensures Bold("**" + x + "**") == "<strong>" + x + "</strong>"
  {
    var s := "**" + x + "**";
    EmphasisSpan(x, "", "**", "strong");
    TagsSpelledOut();
    assert s + "" == s;
    assert Emphasis("", "**", "strong") == [];
  }

  lemma StrongWithoutMarkup(x: string)
    requires '*' !in x && '[' !in x
    requires forall i :: 0 <= i < |x| ==> !IsLineTerminator(x[i])
    ensures var b := "<strong>" + x + "</strong>";
            '*' !in b && '[' !in b && '\n' !in b
  {
    assert '\n' !in x by {
      forall i | 0 <= i < |x| ensures x[i] != '\n' {
        assert !IsLineTerminator(x[i]);
      }
    }
  }

  lemma ItalicSplitsBold(x: string)
    requires '*' !in x
    ensures Italic("**" + x + "**") == "<em></em>" + x + "<em></em>"
  {
    EmphasisSpan("", x + "**", "*", "em");
    assert "**" + x + "**" == "*" + "" + "*" + (x + "**");
    ItalicTrailing(x);
  }

  lemma ItalicTrailing(x: string)
    requires '*' !in x
    ensures Italic(x + "**") == x + "<em></em>"
  {
    EmphasisAppendPlain(x, "**", "*", "em");
    EmphasisSpan("", "", "*", "em");
    assert "**" == "*" + "" + "*" + "";
  }

  /** A prefix with no `*` passes through an emphasis pass unchanged. */
  lemma {:induction false} EmphasisAppendPlain(p: string, rest: string, d: string, tag: string)
    requires |d| > 0 && d[0] == '*' && '*' !in p
    ensures Emphasis(p + rest, d, tag) == p + Emphasis(rest, d, tag)
    decreases |p|
  {
    if p != [] {
      var s := p + rest;
      assert s[0] == p[0] && s[1..] == p[1..] + rest;
      NotOccursAt(s, d, 0);
      assert Emphasis(s, d, tag) == [p[0]] + Emphasis(p[1..] + rest, d, tag);
      EmphasisAppendPlain(p[1..], rest, d, tag);
      assert p == [p[0]] + p[1..];
    } else {
      assert p + rest == rest;
    }
  }

  /** The link pattern matches `[t](u)` exactly when the text has no `]` and
      the URL no `)`, both non-empty. */
  lemma LinkAtMatches(t: string, u: string, rest: string)
    requires t != [] && ']' !in t && u != [] && ')' !in u
    ensures LinkAt("[" + t + "](" + u + ")" + rest) == Some((t, u, |t| + |u| + 4))
  {
    var s := "[" + t + "](" + u + ")" + rest;
    var p := |t| + 1;
    var q := |t| + |u| + 3;
    assert s[1..p] == t && s[p + 2..q] == u;
    assert s[p] == ']' && s[p + 1] == '(' && s[q] == ')';
    assert FirstFrom(s, ']', 1) == Some(p) by {
      assert forall i :: 1 <= i < p ==> s[i] == t[i - 1];
      FirstFromFinds(s, ']', 1, p);
    }
    assert FirstFrom(s, ')', p + 2) == Some(q) by {
      assert forall i :: p + 2 <= i < q ==> s[i] == u[i - p - 2];
      FirstFromFinds(s, ')', p + 2, q);
    }
  }

  /** `[t](u)` becomes an anchor whose href is u and whose text is t. */
  lemma RenderLink(t: string, u: string)
    requires t != [] && ']' !in t && u != [] && ')' !in u
    requires '*' !in t && '*' !in u && '\n' !in t && '\n' !in u
    ensures RenderMarkdown("[" + t + "](" + u + ")") == Anchor(t, u)
  {
    var s := "[" + t + "](" + u + ")";
    NoStarInLink(t, u);
    EmphasisWithoutStar(s, "**", "strong");
    EmphasisWithoutStar(s, "*", "em");
    LinkAlone(t, u);
    AnchorWithoutNewline(t, u);
    assert RenderMarkdown(s) == Newlines(Links(Italic(Bold(s))));
  }

  lemma NoStarInLink(t: string, u: string)
    requires '*' !in t && '*' !in u
    ensures '*' !in "[" + t + "](" + u + ")"
  {
  }

  lemma AnchorWithoutNewline(t: string, u: string)
    requires '\n' !in t && '\n' !in u
    ensures '\n' !in Anchor(t, u)
  {
    AttributesWithoutNewline();
    var open, close := "<a href=\"", "</a>";
    assert '\n' !in open && '\n' !in close;
    assert Anchor(t, u) == open + u + AnchorAttributes + t + close;
  }

  lemma AttributesWithoutNewline()
    ensures '\n' !in AnchorAttributes
  {
    assert '\n' !in AnchorTarget;
    assert '\n' !in AnchorRel;
    assert '\n' !in AnchorClass;
  }

  lemma LinkAlone(t: string, u: string)
    requires t != [] && ']' !in t && u != [] && ')' !in u
    ensures Links("[" + t + "](" + u + ")") == Anchor(t, u)
  {
    var s := "[" + t + "](" + u + ")";
    LinkAtMatches(t, u, "");
    assert s + "" == s;
    assert |s| == |t| + |u| + 4;
    assert s[|t| + |u| + 4..] == [];
  }

  /** A source link of the restaurant-search footer is shown as an anchor to
      its URI, labelled with its title, when neither holds markup characters. */
  lemma FooterLinkRendered(c: Gemini.GroundingChunk)
    requires Gemini.Citable(c)
    requires var t, u := c.web.value.title.value, c.web.value.uri.value;
             ']' !in t && ')' !in u && '*' !in t && '*' !in u && '\n' !in t && '\n' !in u
    ensures RenderMarkdown(Gemini.SourceLink(c)) == Anchor(c.web.value.title.value, c.web.value.uri.value)
  {
    RenderLink(c.web.value.title.value, c.web.value.uri.value);
  }

  /** The newline pass works character by character: it distributes over
      concatenation, and a single newline becomes `<br>`. */
  lemma {:induction false} NewlinesAppend(a: string, b: string)
    ensures Newlines(a + b) == Newlines(a) + Newlines(b)
    ensures Newlines("\n") == "<br>"
    decreases |a|
  {
    assert Newlines("\n") == "<br>" + Newlines([]);
    if a == [] {
      assert a + b == b;
    } else {
      var ab := a + b;
      assert ab[0] == a[0] && ab[1..] == a[1..] + b;
      NewlinesAppend(a[1..], b);
      var head := if a[0] == '\n' then "<br>" else [a[0]];
      assert Newlines(ab) == head + Newlines(a[1..] + b);
      assert Newlines(a) == head + Newlines(a[1..]);
    }
  }

  /** Two lines of plain text render joined by a `<br>`. */
  lemma RenderLineBreak(a: string, b: string)
    requires '*' !in a && '[' !in a && '\n' !in a
    requires '*' !in b && '[' !in b && '\n' !in b
    ensures RenderMarkdown(a + "\n" + b) == a + "<br>" + b
  {
    var s := a + "\n" + b;
    EmphasisWithoutStar(s, "**", "strong");
    EmphasisWithoutStar(s, "*", "em");
    LinksWithoutBracket(s);
    NewlinesAppend(a, "\n");
    NewlinesAppend(a + "\n", b);
  }

  /** Text free of the characters the passes react to: no `*`, no `[` and no
      line terminator. */
  ghost predicate NoMarkup(x: string)
  {
    '*' !in x && '[' !in x && forall i :: 0 <= i < |x| ==> !IsLineTerminator(x[i])
  }

  lemma NoMarkupWithoutNewline(x: string)
    requires NoMarkup(x)
    ensures '\n' !in x
  {
    forall i | 0 <= i < |x|
      ensures x[i] != '\n'
    {
      assert !IsLineTerminator(x[i]);
    }
  }

  /** The bold pass takes `**a*b*c**` whole: single stars inside do not close it. */
  lemma BoldAroundSingleStars(a: string, b: string, c: string)
    requires NoMarkup(a) && NoMarkup(b) && NoMarkup(c) && b != [] && c != []
    ensures var x := a + "*" + b + "*" + c;
            Bold("**" + x + "**") == "<strong>" + x + "</strong>"
  {
    var x := a + "*" + b + "*" + c;
    var s := "**" + x + "**";
    var j := 2 + |x|;
    assert s[..2] == "**" && s[2..j] == x && s[j..j + 2] == "**" && s[j + 2..] == [];
    assert CloseFrom(s, "**", 2) == Some(j) by {
      forall i | 2 <= i < j
        ensures !IsLineTerminator(s[i]) && !OccursAt(s, "**", i)
      {
        var k := i - 2;
        assert s[i] == x[k];
        if k < |a| {
          assert x[k] == a[k];
        } else if k == |a| {
          assert s[i + 1] == b[0];
          NotOccursAt(s, "**", i + 1);
          assert s[i..i + 2][1] == s[i + 1];
        } else if k <= |a| + |b| {
          assert x[k] == b[k - |a| - 1];
        } else if k == |a| + |b| + 1 {
          assert s[i + 1] == c[0];
          assert s[i..i + 2][1] == s[i + 1];
        } else {
          assert x[k] == c[k - |a| - |b| - 2];
        }
        if s[i] != '*' {
          NotOccursAt(s, "**", i);
        }
      }
      CloseFromFinds(s, "**", 2, j);
    }
    assert OccursAt(s, "**", 0);
    TagsSpelledOut();
    assert Emphasis(s[j + 2..], "**", "strong") == [];
  }

  /** A single-star span followed by star-free text becomes an `<em>` span. */
  lemma ItalicSpanBeforePlain(b: string, tail: string)
    requires '*' !in b && forall i :: 0 <= i < |b| ==> !IsLineTerminator(b[i])
    requires '*' !in tail
    ensures Italic("*" + b + "*" + tail) == "<em>" + b + "</em>" + tail
  {
    EmphasisSpan(b, tail, "*", "em");
    EmphasisWithoutStar(tail, "*", "em");
    TagsSpelledOut();
  }

  /** The italic pass turns the single stars left inside a bold span into an
      `<em>` span. */
  lemma ItalicInsideStrong(a: string, b: string, c: string)
    requires NoMarkup(a) && NoMarkup(b) && NoMarkup(c)
    ensures Italic("<strong>" + (a + "*" + b + "*" + c) + "</strong>")
            == "<strong>" + a + "<em>" + b + "</em>" + c + "</strong>"
  {
    var p := "<strong>" + a;
    var tail := c + "</strong>";
    var mid := "*" + b + "*" + tail;
    assert '*' !in p && '*' !in tail by {
      assert '*' !in "<strong>" && '*' !in "</strong>";
    }
    assert "<strong>" + (a + "*" + b + "*" + c) + "</strong>" == p + mid;
    ItalicSpanBetweenPlain(p, b, tail);
    assert p + ("<em>" + b + "</em>" + tail) == "<strong>" + a + "<em>" + b + "</em>" + c + "</strong>";
  }

  lemma ItalicSpanBetweenPlain(p: string, b: string, tail: string)
    requires '*' !in p && '*' !in tail
    requires '*' !in b && forall i :: 0 <= i < |b| ==> !IsLineTerminator(b[i])
    ensures Italic(p + ("*" + b + "*" + tail)) == p + ("<em>" + b + "</em>" + tail)
  {
    EmphasisAppendPlain(p, "*" + b + "*" + tail, "*", "em");
    ItalicSpanBeforePlain(b, tail);
  }

  lemma StrongEmWithoutMarkup(a: string, b: string, c: string)
    requires NoMarkup(a) && NoMarkup(b) && NoMarkup(c)
    ensures var r := "<strong>" + a + "<em>" + b + "</em>" + c + "</strong>";
            '[' !in r && '\n' !in r
  {
    NoMarkupWithoutNewline(a);
    NoMarkupWithoutNewline(b);
    NoMarkupWithoutNewline(c);
  }

  /** Single stars inside bold text are still turned into italics by the
      italic pass: `**a*b*c**` renders as `<strong>a<em>b</em>c</strong>`. */
  lemma ItalicInsideBold(a: string, b: string, c: string)
    requires NoMarkup(a) && NoMarkup(b) && NoMarkup(c) && b != [] && c != []
    ensures RenderMarkdown("**" + a + "*" + b + "*" + c + "**")
            == "<strong>" + a + "<em>" + b + "</em>" + c + "</strong>"
  {
    var x := a + "*" + b + "*" + c;
    var s := "**" + a + "*" + b + "*" + c + "**";
    assert s == "**" + x + "**";
    BoldAroundSingleStars(a, b, c);
    ItalicInsideStrong(a, b, c);
    var r := "<strong>" + a + "<em>" + b + "</em>" + c + "</strong>";
    StrongEmWithoutMarkup(a, b, c);
    LinksWithoutBracket(r);
  }
}
