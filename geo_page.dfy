/**
 * fogospt_geolinks.user.js, `processCoordinates`: every `.f-location` element not
 * yet marked `data-processed="true"` whose text content holds a coordinate pair has
 * its content replaced by one container holding the page's own Google Maps link
 * (when it has one), a link to omaps.app and a copy button; the element is then
 * marked.  Elements are objects updated in place; their content is a value tree.
 */
module GeoPage {
  import opened Wrappers
  import opened JsString
  import opened GeoLinks

  /** A DOM node: a text node, or an element with its tag, its `href` attribute and its children. */
  datatype Node = Text(data: string) | Elem(tag: string, href: Option<string>, children: seq<Node>)

  /** `textContent` of a node. */
  function NodeText(n: Node): string
    decreases n
  {
    match n
    case Text(d) => d
    case Elem(_, _, ch) => TextContent(ch)
  }

  /** `textContent` of a list of nodes: their texts in document order. */
  function TextContent(nodes: seq<Node>): string
    decreases nodes
  {
    if nodes == [] then "" else NodeText(nodes[0]) + TextContent(nodes[1..])
  }

  const MapsHrefMarker := "google.com/maps"

  /** `a[href*="google.com/maps"]`. */
  predicate IsMapsAnchor(n: Node) {
    n.Elem? && n.tag == "a" && n.href.Some? && Includes(n.href.value, MapsHrefMarker)
  }

  predicate IsIcon(n: Node) {
    n.Elem? && n.tag == "i"
  }

  /** The node has an `i` element among its children. */
  predicate HasIconChild(n: Node) {
    n.Elem? && exists k :: 0 <= k < |n.children| && IsIcon(n.children[k])
  }

  /**
   * All matches of `a[href*="google.com/maps"] i` among the children of `parent`
   * from index `k` on and their descendants, in document order, each given by the
   * `i` element's parent: an `i` element matches when a Google Maps anchor lies on
   * its path from `parent`, or `inside` holds (`parent` is, or lies inside, such
   * an anchor).  An element comes before its descendants, and they before its next
   * sibling.
   */
  ghost function MapsIconParents(parent: Node, k: nat, inside: bool): seq<Node>
    requires parent.Elem? && k <= |parent.children|
    decreases parent, |parent.children| - k
  {
    if k == |parent.children| then []
    else
      var c := parent.children[k];
      (if IsIcon(c) && inside then [parent] else [])
      + (if c.Elem? then MapsIconParents(c, 0, inside || IsMapsAnchor(c)) else [])
      + MapsIconParents(parent, k + 1, inside)
  }

  /**
   * The search `querySelector` makes, stopping at the first match: the parent of
   * the first matching `i` element in document order, and None exactly when no `i`
   * element matches.
   */
  function IconParentFrom(parent: Node, k: nat, inside: bool): (r: Option<Node>)
    requires parent.Elem? && k <= |parent.children|
    ensures r.None? <==> MapsIconParents(parent, k, inside) == []
    ensures r.Some? ==> r.value == MapsIconParents(parent, k, inside)[0]
    ensures r.Some? ==> HasIconChild(r.value)
    decreases parent, |parent.children| - k
  {
    if k == |parent.children| then None
    else
      var c := parent.children[k];
      if IsIcon(c) && inside then Some(parent)
      else
        match if c.Elem? then IconParentFrom(c, 0, inside || IsMapsAnchor(c)) else None
        case Some(p) => Some(p)
        case None => IconParentFrom(parent, k + 1, inside)
  }

  /**
   * `element.querySelector('a[href*="google.com/maps"] i').parentElement` for an
   * element with these children: the element itself is not an anchor here, so
   * only anchors among its descendants count.  The result is the parent of the
   * first `i` element, in document order, inside a Google Maps anchor, and None
   * when there is no such `i` element.
   */
  function MapLinkOf(children: seq<Node>): (r: Option<Node>)
    ensures var matches := MapsIconParents(Elem("div", None, children), 0, false);
            if matches == [] then r.None? else r == Some(matches[0])
    ensures r.Some? ==> HasIconChild(r.value)
  {
    IconParentFrom(Elem("div", None, children), 0, false)
  }

  /** An empty `i` element, as icon fonts use. */
  const EmptyIcon := Elem("i", None, [])

  /** The parent kept is the `i` element's own parent, not the anchor above it. */
  lemma MapLinkIsIconParent(href: string)
    requires Includes(href, MapsHrefMarker)
    ensures var span := Elem("span", None, [EmptyIcon]);
            MapLinkOf([Elem("a", Some(href), [span])]) == Some(span)
  {
    var span := Elem("span", None, [EmptyIcon]);
    var anchor := Elem("a", Some(href), [span]);
    assert MapsIconParents(span, 0, true)[0] == span;
    assert MapsIconParents(anchor, 0, true)[0] == span;
    assert MapsIconParents(Elem("div", None, [anchor]), 0, false)[0] == span;
  }

  /** An `i` element outside every Google Maps anchor is not a match, whatever other anchors hold. */
  lemma IconOutsideAnchorIgnored(href: string)
    requires !Includes(href, MapsHrefMarker)
    ensures MapLinkOf([Elem("span", None, [EmptyIcon]), Elem("a", Some(href), [EmptyIcon])]) == None
  {
    var span := Elem("span", None, [EmptyIcon]);
    var anchor := Elem("a", Some(href), [EmptyIcon]);
    assert MapsIconParents(span, 0, false) == [];
    assert MapsIconParents(anchor, 0, false) == [];
    assert MapsIconParents(Elem("div", None, [span, anchor]), 1, false) == [];
  }

  const CopyButtonLabel := "\U{1F4CB}"

  /** The link to omaps.app: its `href` and its text. */
  function GeoLink(c: Coordinates): Node {
    Elem("a", Some(MapUrl(c)), [Text(DisplayText(c))])
  }

  /** The copy button; its label, set through `innerHTML`, is one text node. */
  const CopyButton := Elem("button", None, [Text(CopyButtonLabel)])

  /** The container that replaces the element's content. */
  function Container(c: Coordinates, mapLink: Option<Node>): Node {
    var kept := if mapLink.Some? then [mapLink.value] else [];
    Elem("div", None, kept + [GeoLink(c), CopyButton])
  }

  /** The part of an element `processCoordinates` reads and writes: `dataset.processed` and the content. */
  datatype ElementState = ElementState(processed: Option<string>, children: seq<Node>)

  const ProcessedMark := "true"

  /** One element's turn in `processCoordinates`. */
  function Process(e: ElementState): (r: ElementState)
    ensures e.processed == Some(ProcessedMark) ==> r == e
    ensures r == e || (r.processed == Some(ProcessedMark) && |r.children| == 1)
  {
    if e.processed == Some(ProcessedMark) then e
    else
      match FindCoordinates(TextContent(e.children))
      case None => e
      case Some(found) =>
        ElementState(Some(ProcessedMark), [Container(found.coordinates, MapLinkOf(e.children))])
  }

  /** Running `processCoordinates` again changes nothing: what it rewrites, it marks. */
  lemma ProcessIdempotent(e: ElementState)
    ensures Process(Process(e)) == Process(e)
  {
  }

  /**
   * An element is left exactly as it was if it was marked, or if its text holds no
   * coordinates; otherwise it is marked and its content becomes one container.
   */
  lemma ProcessOutcome(e: ElementState)
    ensures Process(e) == e <==>
            e.processed == Some(ProcessedMark) || FindCoordinates(TextContent(e.children)).None?
    ensures Process(e).processed == Some(ProcessedMark) <==>
            e.processed == Some(ProcessedMark) || FindCoordinates(TextContent(e.children)).Some?
  {
  }

  /**
   * When an element is rewritten, both the link's `href` and its text, scanned with
   * the same pattern, give back the two numbers first found in the element's text.
   */
  lemma RewrittenLinkAgrees(e: ElementState)
    requires e.processed != Some(ProcessedMark) && FindCoordinates(TextContent(e.children)).Some?
    ensures var c := FindCoordinates(TextContent(e.children)).value.coordinates;
            && Process(e) == ElementState(Some(ProcessedMark), [Container(c, MapLinkOf(e.children))])
            && FindCoordinates(GeoLink(c).href.value) == Some(Found(|MapsPrefix|, Coordinates(c.latitude, "", c.longitude)))
            && FindCoordinates(NodeText(GeoLink(c))) == Some(Found(0, Coordinates(c.latitude, " ", c.longitude)))
  {
    var c := FindCoordinates(TextContent(e.children)).value.coordinates;
    MapUrlReparses(c);
    assert NodeText(GeoLink(c)) == DisplayText(c) by {
      assert TextContent([Text(DisplayText(c))]) == DisplayText(c) + TextContent([]);
    }
    DisplayTextReparses(c);
  }

  /** `textContent` of a list of nodes splits at any concatenation. */
  lemma {:induction false} TextContentConcat(a: seq<Node>, b: seq<Node>)
    ensures TextContent(a + b) == TextContent(a) + TextContent(b)
    decreases a
  {
    if a == [] {
      assert a + b == b;
    } else {
      assert (a + b)[1..] == a[1..] + b;
      TextContentConcat(a[1..], b);
    }
  }

  /**
   * The text of a rewritten element: the kept map link's text, the coordinates as
   * displayed, and the copy button's label.
   */
  lemma ContainerText(c: Coordinates, mapLink: Option<Node>)
    ensures NodeText(Container(c, mapLink)) ==
            (if mapLink.Some? then NodeText(mapLink.value) else "") + DisplayText(c) + CopyButtonLabel
  {
    var kept := if mapLink.Some? then [mapLink.value] else [];
    TextContentConcat(kept, [GeoLink(c), CopyButton]);
    assert NodeText(GeoLink(c)) == DisplayText(c) by {
      assert TextContent([Text(DisplayText(c))]) == DisplayText(c) + TextContent([]);
    }
    assert NodeText(CopyButton) == CopyButtonLabel by {
      assert TextContent([Text(CopyButtonLabel)]) == CopyButtonLabel + TextContent([]);
    }
    assert TextContent([GeoLink(c), CopyButton]) == DisplayText(c) + CopyButtonLabel by {
      assert [GeoLink(c), CopyButton][1..] == [CopyButton];
      assert TextContent([CopyButton]) == CopyButtonLabel + TextContent([]);
    }
    if mapLink.Some? {
      assert TextContent(kept) == NodeText(mapLink.value) + TextContent([]);
    }
  }

  /** A `.f-location` element, updated in place. */
  class LocationElement {
    var processed: Option<string>
    var children: seq<Node>

    function State(): ElementState
      reads this
    {
      ElementState(processed, children)
    }

    constructor (processed: Option<string>, children: seq<Node>)
      ensures State() == ElementState(processed, children)
    {
      this.processed := processed;
      this.children := children;
    }

    /** The body of the `forEach` callback for this element. */
    method ProcessOnce()
      modifies this
      ensures State() == Process(old(State()))
    {
      if processed == Some(ProcessedMark) {
        return;
      }
      var found := FindCoordinates(TextContent(children));
      if found.Some? {
        processed := Some(ProcessedMark);
        var mapLink := MapLinkOf(children);
        children := [Container(found.value.coordinates, mapLink)];
      }
    }
  }

  /**
   * `processCoordinates` over the elements `querySelectorAll('.f-location')` returned,
   * in document order.  Each ends up processed exactly once, even when it is listed twice.
   */
  method ProcessCoordinates(elements: seq<LocationElement>)
    modifies set e | e in elements
    ensures forall e :: e in elements ==> e.State() == Process(old(e.State()))
  {
    var i := 0;
    while i < |elements|
      invariant i <= |elements|
      invariant forall e :: e in elements ==>
        e.State() == if e in elements[..i] then Process(old(e.State())) else old(e.State())
    {
      var e := elements[i];
      ProcessIdempotent(old(e.State()));
      e.ProcessOnce();
      assert elements[..i + 1] == elements[..i] + [e];
      i := i + 1;
    }
    assert elements[..i] == elements;
  }
}
