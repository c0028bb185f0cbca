/**
 * `escapeHtml` of copy_link_with_metadata.user.js: the text is put into a detached
 * `<div>` with `textContent` and read back through `innerHTML`.  That is the
 * "escaping a string" step of HTML fragment serialisation (HTML Living Standard,
 * section 13.3, "Serializing HTML fragments", text-node case): `&`, U+00A0, `<` and
 * `>` become `&amp;`, `&nbsp;`, `&lt;` and `&gt;`, and every other character,
 * double and single quotes included, is copied unchanged.
 */
module HtmlEscape {
  import opened JsString

  const NoBreakSpace: char := '\U{00A0}'

  /** The characters the text-node serialiser replaces by a character reference. */
  predicate IsSpecial(c: char) {
    c == '&' || c == NoBreakSpace || c == '<' || c == '>'
  }

  /** The serialisation of one character of a text node. */
  function EscapeChar(c: char): (r: string)
    ensures r == [c] <==> !IsSpecial(c)
    ensures IsSpecial(c) ==> |r| >= 4 && r[0] == '&' && r[|r| - 1] == ';'
  {
    if c == '&' then "&amp;"
    else if c == NoBreakSpace then "&nbsp;"
    else if c == '<' then "&lt;"
    else if c == '>' then "&gt;"
    else [c]
  }

  /** The `innerHTML` of a `<div>` whose only child is a text node holding `text`. */
  function Escape(text: string): (r: string)
    ensures forall i :: 0 <= i < |r| ==> r[i] != '<' && r[i] != '>' && r[i] != NoBreakSpace
    ensures |text| <= |r|
  {
    if text == [] then [] else EscapeChar(text[0]) + Escape(text[1..])
  }

  /**
   * The reference decoder for the four character references `Escape` produces; any
   * other text, a stray `&` included, is read literally.
   */
  function Unescape(html: string): string
    decreases |html|
  {
    if html == [] then []
    else if StartsWith(html, "&amp;") then "&" + Unescape(html[5..])
    else if StartsWith(html, "&nbsp;") then [NoBreakSpace] + Unescape(html[6..])
    else if StartsWith(html, "&lt;") then "<" + Unescape(html[4..])
    else if StartsWith(html, "&gt;") then ">" + Unescape(html[4..])
    else [html[0]] + Unescape(html[1..])
  }

  /** Decoding the escaped text gives back the text: escaping loses nothing. */
  lemma {:induction false} UnescapeEscape(text: string)
    ensures Unescape(Escape(text)) == text
  {
    if text != [] {
      assert Escape(text) == EscapeChar(text[0]) + Escape(text[1..]);
      UnescapeEscapeChar(text[0], Escape(text[1..]));
      UnescapeEscape(text[1..]);
    }
  }

  /** Decoding one escaped character, whatever follows it. */
  lemma UnescapeEscapeChar(c: char, rest: string)
    ensures Unescape(EscapeChar(c) + rest) == [c] + Unescape(rest)
  {
    if c == '&' {
      UnescapeReference("&amp;", c, rest);
    } else if c == NoBreakSpace {
      UnescapeReference("&nbsp;", c, rest);
    } else if c == '<' {
      UnescapeReference("&lt;", c, rest);
    } else if c == '>' {
      UnescapeReference("&gt;", c, rest);
    } else {
      var e := [c] + rest;
      assert e[0] == c;
      assert !StartsWith(e, "&amp;") && !StartsWith(e, "&nbsp;") && !StartsWith(e, "&lt;") && !StartsWith(e, "&gt;");
      assert e[1..] == rest;
    }
  }

  lemma UnescapeReference(ref: string, c: char, rest: string)
    requires (ref, c) in {("&amp;", '&'), ("&nbsp;", NoBreakSpace), ("&lt;", '<'), ("&gt;", '>')}
    ensures Unescape(ref + rest) == [c] + Unescape(rest)
  {
    var e := ref + rest;
    assert e[..|ref|] == ref && e[|ref|..] == rest;
    assert e[1] == ref[1];
  }

  /** Escaping works character by character: it distributes over concatenation. */
  lemma {:induction false} EscapeConcat(a: string, b: string)
    ensures Escape(a + b) == Escape(a) + Escape(b)
  {
    if a != [] {
      assert (a + b)[0] == a[0] && (a + b)[1..] == a[1..] + b;
      EscapeConcat(a[1..], b);
    } else {
      assert a + b == b;
    }
  }

  /**
   * Escaping leaves a text unchanged exactly when it holds none of the four special
   * characters; in particular `"` and `'` are never touched.
   */
  lemma {:induction false} EscapeIdentity(text: string)
    ensures Escape(text) == text <==> forall i :: 0 <= i < |text| ==> !IsSpecial(text[i])
  {
    if text != [] {
      EscapeIdentity(text[1..]);
      var c := text[0];
      if IsSpecial(c) {
        assert |EscapeChar(c)| > 1;
        assert |Escape(text)| > |text|;
      } else {
        assert forall i :: 1 <= i < |text| ==> text[i] == text[1..][i - 1];
      }
    }
  }

  /** The quotes that delimit the `href` and `src` attributes pass through unescaped. */
  lemma QuotesUnescaped()
    ensures Escape("\"") == "\"" && Escape("'") == "'"
  {
    EscapeIdentity("\"");
    EscapeIdentity("'");
  }
}
