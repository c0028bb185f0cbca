/**
 * `generateLink` of copy_link_with_metadata.user.js: the rich-text snippet built
 * from the chosen URL and the page metadata.  The site name is put in front of the
 * title unless the raw title already includes it (a case-sensitive test), then
 * come the anchor, the optional `<small>` description and the optional `<img>`
 * thumbnail, each page value escaped by `escapeHtml`.
 */
module LinkSnippet {
  import opened Wrappers
  import opened JsString
  import opened HtmlEscape
  import opened PageMetadata

  /** What goes between the site name and the title: space, U+2014 EM DASH, space. */
  const SiteNameSeparator := " \U{2014} "

  /** The title text before escaping: the site name is prepended unless the title already includes it. */
  function ComposeTitle(title: string, siteName: Option<string>): (r: string)
    ensures EndsWith(r, title)
    ensures Truthy(siteName) ==> Includes(r, siteName.value)
    ensures !Truthy(siteName) || Includes(title, siteName.value) ==> r == title
    ensures Truthy(siteName) && !Includes(title, siteName.value) ==> StartsWith(r, siteName.value + SiteNameSeparator)
  {
    if Truthy(siteName) && !Includes(title, siteName.value) then
      IncludesPrefix(siteName.value, SiteNameSeparator + title);
      assert siteName.value + SiteNameSeparator + title == siteName.value + (SiteNameSeparator + title);
      siteName.value + SiteNameSeparator + title
    else title
  }

  /** Composing the title a second time with the same site name changes nothing. */
  lemma ComposeTitleIdempotent(title: string, siteName: Option<string>)
    ensures ComposeTitle(ComposeTitle(title, siteName), siteName) == ComposeTitle(title, siteName)
  {
  }

  /** `<a href="url">titleHtml</a>`, with the URL escaped and the title already in HTML. */
  function AnchorHtml(url: string, titleHtml: string): string {
    "<a href=\"" + Escape(url) + "\">" + titleHtml + "</a>"
  }

  /** The anchor that opens every snippet, for a title given as text. */
  function Anchor(url: string, title: string): string {
    AnchorHtml(url, Escape(title))
  }

  /** The visible description line. */
  function DescriptionLine(description: string): string {
    "<br/><small>" + Escape(description) + "</small>"
  }

  /** The thumbnail image line. */
  function ImageLine(thumbnail: string): string {
    ImageOpening + Escape(thumbnail) + "\"/>"
  }

  /** `generateLink(url, metadata)`. */
  function GenerateLink(url: string, metadata: Metadata): (r: string)
    ensures StartsWith(r, "<a href=\"" + Escape(url) + "\">")
    ensures Truthy(metadata.thumbnail) ==> EndsWith(r, ImageLine(metadata.thumbnail.value))
    ensures !Truthy(metadata.thumbnail) && Truthy(metadata.description) ==> EndsWith(r, DescriptionLine(metadata.description.value))
  {
    var title :=
      if Truthy(metadata.siteName) && !Includes(metadata.title, metadata.siteName.value) then
        Escape(metadata.siteName.value) + SiteNameSeparator + Escape(metadata.title)
      else Escape(metadata.title);
    var linkHtml := AnchorHtml(url, title);
    var linkHtml := if Truthy(metadata.description)
      then linkHtml + DescriptionLine(metadata.description.value)
      else linkHtml;
    if Truthy(metadata.thumbnail)
      then linkHtml + ImageLine(metadata.thumbnail.value)
      else linkHtml
  }

  /**
   * The layout of every snippet: the anchor for the composed title, then the
   * description line exactly when the description is truthy, then the image line
   * exactly when the thumbnail is truthy; neither optional line depends on the other.
   */
  lemma GenerateLinkLayout(url: string, metadata: Metadata)
    ensures GenerateLink(url, metadata) ==
              Anchor(url, ComposeTitle(metadata.title, metadata.siteName))
              + (if Truthy(metadata.description) then DescriptionLine(metadata.description.value) else "")
              + (if Truthy(metadata.thumbnail) then ImageLine(metadata.thumbnail.value) else "")
  {
    EscapedTitle(metadata.title, metadata.siteName);
    var a := Anchor(url, ComposeTitle(metadata.title, metadata.siteName));
    assert a + "" == a;
    var d := if Truthy(metadata.description) then DescriptionLine(metadata.description.value) else "";
    assert a + d + "" == a + d;
  }

  /** Escaping the site name and the title one by one is escaping the composed title. */
  lemma EscapedTitle(title: string, siteName: Option<string>)
    ensures Escape(ComposeTitle(title, siteName)) ==
              if Truthy(siteName) && !Includes(title, siteName.value)
              then Escape(siteName.value) + SiteNameSeparator + Escape(title)
              else Escape(title)
  {
    if Truthy(siteName) && !Includes(title, siteName.value) {
      EscapeConcat(siteName.value, SiteNameSeparator + title);
      EscapeConcat(SiteNameSeparator, title);
      EscapeIdentity(SiteNameSeparator);
      assert siteName.value + SiteNameSeparator + title == siteName.value + (SiteNameSeparator + title);
    }
  }

  /** The number of occurrences of `c` in `s`. */
  function CountChar(s: string, c: char): nat {
    if s == [] then 0 else (if s[0] == c then 1 else 0) + CountChar(s[1..], c)
  }

  lemma {:induction false} CountCharConcat(a: string, b: string, c: char)
    ensures CountChar(a + b, c) == CountChar(a, c) + CountChar(b, c)
  {
    if a == [] {
      assert a + b == b;
    } else {
      assert (a + b)[1..] == a[1..] + b;
      CountCharConcat(a[1..], b, c);
    }
  }

  lemma {:induction false} CountCharAbsent(s: string, c: char)
    requires forall i :: 0 <= i < |s| ==> s[i] != c
    ensures CountChar(s, c) == 0
  {
    if s != [] {
      CountCharAbsent(s[1..], c);
    }
  }

  lemma CountCharEscape(s: string)
    ensures CountChar(Escape(s), '<') == 0
  {
    CountCharAbsent(Escape(s), '<');
  }

  /** The count over a template with one hole: `before + hole + after`. */
  lemma CountCharAround(before: string, hole: string, after: string, c: char)
    ensures CountChar(before + hole + after, c) == CountChar(before, c) + CountChar(hole, c) + CountChar(after, c)
  {
    CountCharConcat(before + hole, after, c);
    CountCharConcat(before, hole, c);
  }

  lemma AnchorTagCount(url: string, title: string)
    ensures CountChar(Anchor(url, title), '<') == 2
  {
    var u, t := Escape(url), Escape(title);
    CountCharEscape(url);
    CountCharEscape(title);
    CountCharAround("<a href=\"", u, "\">", '<');
    CountCharAround("<a href=\"" + u + "\">", t, "</a>", '<');
  }

  lemma DescriptionTagCount(description: string)
    ensures CountChar(DescriptionLine(description), '<') == 3
  {
    CountCharEscape(description);
    CountCharAround("<br/><small>", Escape(description), "</small>", '<');
  }

  const ImageOpening := "<br/><img data-editor-shrink=\"true\" src=\""

  lemma ImageOpeningTagCount()
    ensures CountChar(ImageOpening, '<') == 2
  {
    ImageOpeningParts();
    ImageAttributesTagCount();
    ImageTagNameCount();
    CountCharConcat("<br/><img", " data-editor-shrink=\"true\" src=\"", '<');
  }

  lemma ImageOpeningParts()
    ensures ImageOpening == "<br/><img" + " data-editor-shrink=\"true\" src=\""
  {
  }

  lemma ImageTagNameCount()
    ensures CountChar("<br/><img", '<') == 2
  {
  }

  lemma ImageAttributesTagCount()
    ensures CountChar(" data-editor-shrink=\"true\" src=\"", '<') == 0
  {
    CountCharAbsent(" data-editor-shrink=\"true\" src=\"", '<');
  }

  lemma ImageTagCount(thumbnail: string)
    ensures CountChar(ImageLine(thumbnail), '<') == 2
  {
    ImageOpeningTagCount();
    CountCharEscape(thumbnail);
    CountCharAround(ImageOpening, Escape(thumbnail), "\"/>", '<');
  }

  /**
   * No markup comes from the page: every `<` of the snippet belongs to the fixed
   * template.  The anchor has two, the description line three and the image line
   * two, so the count also tells which optional lines are present.
   */
  lemma SnippetTagCount(url: string, metadata: Metadata)
    ensures CountChar(GenerateLink(url, metadata), '<') ==
              2 + (if Truthy(metadata.description) then 3 else 0) + (if Truthy(metadata.thumbnail) then 2 else 0)
  {
    GenerateLinkLayout(url, metadata);
    var a := Anchor(url, ComposeTitle(metadata.title, metadata.siteName));
    AnchorTagCount(url, ComposeTitle(metadata.title, metadata.siteName));
    var d := if Truthy(metadata.description) then DescriptionLine(metadata.description.value) else "";
    if Truthy(metadata.description) {
      DescriptionTagCount(metadata.description.value);
    }
    var t := if Truthy(metadata.thumbnail) then ImageLine(metadata.thumbnail.value) else "";
    if Truthy(metadata.thumbnail) {
      ImageTagCount(metadata.thumbnail.value);
    }
    CountCharConcat(a + d, t, '<');
    CountCharConcat(a, d, '<');
  }
}
