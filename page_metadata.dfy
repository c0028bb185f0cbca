/**
 * `getPageMetadata` of copy_link_with_metadata.user.js.  The document is injected
 * as a `Page`: one field per DOM query the function makes, each holding the
 * attribute the function reads from the element found, or None when
 * `querySelector` finds no element.  Some("") is an element that is present with
 * an empty `content`/`href`, which the fallback chains treat differently from an
 * absent one.
 */
module PageMetadata {
  import opened Wrappers
  import opened JsString

  datatype Page = Page(
    title: string,                    // document.title
    location: string,                 // window.location.href
    canonicalLink: Option<string>,    // link[rel="canonical"]: its href
    ogImage: Option<string>,          // meta[property="og:image"]: its content
    imageSrcLink: Option<string>,     // link[rel="image_src"]: its href
    iconLink: Option<string>,         // first of link[rel="icon"], link[rel="shortcut icon"]: its href
    ogDescription: Option<string>,    // meta[property="og:description"]: its content
    metaDescription: Option<string>,  // meta[name="description"]: its content
    ogSiteName: Option<string>)       // meta[property="og:site_name"]: its content

  /** The record `getPageMetadata` returns; None stands for null. */
  datatype Metadata = Metadata(
    title: string,
    url: string,
    canonicalUrl: Option<string>,
    thumbnail: Option<string>,
    description: Option<string>,
    siteName: Option<string>)

  /**
   * What `getPageMetadata` does: it returns the record, or it throws because the
   * `URL` constructor rejected the thumbnail it was asked to resolve.
   */
  datatype Extraction = Extracted(metadata: Metadata) | ResolutionFailed(thumbnail: string)

  /** The thumbnail after the relative-URL step, or the value the `URL` constructor threw on. */
  datatype Resolution = Resolved(thumbnail: Option<string>) | Unresolvable(rejected: string)

  /**
   * `new URL(relative, base).href`, which the model does not look into: Some(href)
   * when the constructor succeeds, None when it throws.
   */
  type UrlResolver = (string, string) -> Option<string>

  /** A description shorter than this is treated as missing. */
  const MinDescriptionLength := 12

  /**
   * og:image if its element exists (even with empty content), else image_src's href,
   * else null.  What this priority means for the extracted thumbnail is stated by
   * `ThumbnailOrder` and `EmptyOgImageSkipsImageSrc`.
   */
  function PrimaryThumbnail(page: Page): (r: Option<string>)
    ensures page.ogImage.Some? ==> r == page.ogImage
    ensures page.ogImage.None? ==> r == page.imageSrcLink
  {
    if page.ogImage.Some? then page.ogImage
    else if page.imageSrcLink.Some? then page.imageSrcLink
    else None
  }

  /** The thumbnail before URL resolution: a falsy primary value falls back to the icon's href. */
  function RawThumbnail(page: Page): (r: Option<string>)
    ensures Truthy(PrimaryThumbnail(page)) ==> r == PrimaryThumbnail(page)
    ensures !Truthy(PrimaryThumbnail(page)) ==> r == page.iconLink
    ensures Truthy(r) ==> r in {page.ogImage, page.imageSrcLink, page.iconLink}
  {
    var primary := PrimaryThumbnail(page);
    if !Truthy(primary) then
      (if page.iconLink.Some? then page.iconLink else None)
    else primary
  }

  /**
   * A truthy value not starting with "http" is resolved against the page; anything
   * else is kept verbatim.  So the step fails only on a relative value the resolver
   * rejects, and a truthy thumbnail it yields is either the input, already absolute,
   * or what the resolver made of the input.
   */
  function ResolveThumbnail(raw: Option<string>, base: string, resolve: UrlResolver): (r: Resolution)
    ensures r.Unresolvable? <==> Truthy(raw) && !StartsWith(raw.value, "http") && resolve(raw.value, base).None?
    ensures r.Unresolvable? ==> r.rejected == raw.value
    ensures !Truthy(raw) || StartsWith(raw.value, "http") ==> r == Resolved(raw)
    ensures r.Resolved? && Truthy(raw) && !StartsWith(raw.value, "http") ==> r.thumbnail == resolve(raw.value, base)
    ensures r.Resolved? && Truthy(r.thumbnail) ==>
              (r.thumbnail == raw && StartsWith(raw.value, "http")) || (Truthy(raw) && r.thumbnail == resolve(raw.value, base))
  {
    if Truthy(raw) && !StartsWith(raw.value, "http") then
      match resolve(raw.value, base)
      case None => Unresolvable(raw.value)
      case Some(href) => Resolved(Some(href))
    else Resolved(raw)
  }

  /**
   * Resolving is stable: when the resolver only ever yields absolute URLs, feeding
   * the resolved thumbnail through the step again changes nothing.
   */
  lemma ResolutionIsStable(raw: Option<string>, base: string, resolve: UrlResolver)
    requires forall v :: resolve(v, base).Some? ==> StartsWith(resolve(v, base).value, "http")
    requires ResolveThumbnail(raw, base, resolve).Resolved?
    ensures ResolveThumbnail(ResolveThumbnail(raw, base, resolve).thumbnail, base, resolve)
            == ResolveThumbnail(raw, base, resolve)
  {
  }

  /** og:description whenever its element exists, else meta description; a non-empty value shorter than 12 UTF-16 units becomes null. */
  function SelectDescription(page: Page): (r: Option<string>)
    ensures page.ogDescription.Some? ==> r == page.ogDescription || r == None
    ensures page.ogDescription.None? ==> r == page.metaDescription || r == None
    ensures page.ogDescription.None? && page.metaDescription.None? ==> r == None
    ensures Truthy(r) ==> Utf16Length(r.value) >= MinDescriptionLength
    ensures forall d :: (page.ogDescription == Some(d) || (page.ogDescription.None? && page.metaDescription == Some(d))) ==>
              (r == None <==> (d != "" && Utf16Length(d) < MinDescriptionLength))
  {
    var description :=
      if page.ogDescription.Some? then page.ogDescription
      else if page.metaDescription.Some? then page.metaDescription
      else None;
    if Truthy(description) && Utf16Length(description.value) < MinDescriptionLength then None
    else description
  }

  /**
   * Six emoji are twelve UTF-16 units: the description is kept, although it holds
   * only six characters.
   */
  lemma AstralDescriptionKept(page: Page)
    requires page.ogDescription == Some("\U{1F600}\U{1F600}\U{1F600}\U{1F600}\U{1F600}\U{1F600}")
    ensures SelectDescription(page) == page.ogDescription
  {
    var d := page.ogDescription.value;
    assert Utf16Length(d[5..]) == 2;
    assert Utf16Length(d[4..]) == 4;
    assert Utf16Length(d[3..]) == 6;
    assert Utf16Length(d[2..]) == 8;
    assert Utf16Length(d[1..]) == 10;
  }

  /**
   * `getPageMetadata()`.  It throws exactly when the thumbnail before resolution is
   * a relative URL the resolver rejects.  Otherwise the title, URL, canonical link
   * and site name are the page's own, the description is the selected one (at
   * least 12 UTF-16 units when truthy, and taken from og:description or meta
   * description), and a truthy thumbnail is one of the page's image or icon values,
   * kept because it is absolute, or the resolver's output for that value.
   */
  function GetPageMetadata(page: Page, resolve: UrlResolver): (r: Extraction)
    ensures r.ResolutionFailed? <==>
              Truthy(RawThumbnail(page)) && !StartsWith(RawThumbnail(page).value, "http")
              && resolve(RawThumbnail(page).value, page.location).None?
    ensures r.ResolutionFailed? ==> Some(r.thumbnail) in {page.ogImage, page.imageSrcLink, page.iconLink}
    ensures r.Extracted? ==> r.metadata.title == page.title && r.metadata.url == page.location
    ensures r.Extracted? ==> r.metadata.canonicalUrl == page.canonicalLink && r.metadata.siteName == page.ogSiteName
    ensures r.Extracted? ==> r.metadata.description == SelectDescription(page)
    ensures r.Extracted? && Truthy(r.metadata.description) ==>
              Utf16Length(r.metadata.description.value) >= MinDescriptionLength
              && r.metadata.description in {page.ogDescription, page.metaDescription}
    ensures r.Extracted? ==> r.metadata.thumbnail == ResolveThumbnail(RawThumbnail(page), page.location, resolve).thumbnail
    ensures r.Extracted? && Truthy(r.metadata.thumbnail) ==>
              || (StartsWith(r.metadata.thumbnail.value, "http") && r.metadata.thumbnail in {page.ogImage, page.imageSrcLink, page.iconLink})
              || (exists v :: Some(v) in {page.ogImage, page.imageSrcLink, page.iconLink} && v != "" && r.metadata.thumbnail == resolve(v, page.location))
  {
    match ResolveThumbnail(RawThumbnail(page), page.location, resolve)
    case Unresolvable(t) => ResolutionFailed(t)
    case Resolved(thumbnail) =>
      Extracted(Metadata(
        page.title,
        page.location,
        page.canonicalLink,
        thumbnail,
        SelectDescription(page),
        page.ogSiteName))
  }

  /**
   * The thumbnail priority, stated on the page: an absolute og:image, then an
   * absolute image_src (only when og:image is missing altogether), then the icon,
   * and null when none of them yields a value.
   */
  lemma ThumbnailOrder(page: Page, resolve: UrlResolver)
    ensures Truthy(page.ogImage) && StartsWith(page.ogImage.value, "http") ==>
              GetPageMetadata(page, resolve).Extracted? && GetPageMetadata(page, resolve).metadata.thumbnail == page.ogImage
    ensures page.ogImage.None? && Truthy(page.imageSrcLink) && StartsWith(page.imageSrcLink.value, "http") ==>
              GetPageMetadata(page, resolve).Extracted? && GetPageMetadata(page, resolve).metadata.thumbnail == page.imageSrcLink
    ensures !Truthy(page.ogImage) && !Truthy(page.imageSrcLink) && Truthy(page.iconLink) && StartsWith(page.iconLink.value, "http") ==>
              GetPageMetadata(page, resolve).Extracted? && GetPageMetadata(page, resolve).metadata.thumbnail == page.iconLink
    ensures page.ogImage.None? && page.imageSrcLink.None? && page.iconLink.None? ==>
              GetPageMetadata(page, resolve).Extracted? && GetPageMetadata(page, resolve).metadata.thumbnail == None
  {
  }

  /** og:image's element wins over image_src even when its content is empty: image_src is then never looked at. */
  lemma EmptyOgImageSkipsImageSrc(page: Page, resolve: UrlResolver)
    requires page.ogImage == Some("")
    ensures GetPageMetadata(page, resolve) == GetPageMetadata(page.(imageSrcLink := None), resolve)
    ensures RawThumbnail(page) == page.iconLink
  {
  }
}
