/** The Swiggy Instamart adapter (lib/scrapers/swiggy.ts): one container
    selector that must appear and whose matches are the result elements, a
    presence test on three nodes, the enclosing anchor or the page URL as the
    link, and the aria-label as the quantity. */
module Swiggy {
  import opened Types
  import opened Text
  import opened Browser
  import opened Chains

  const BaseUrl: string := "https://www.swiggy.com"
  const ContainerSelector: string := "div[data-testid=\"default_container_ux4\"]"
  const TitleSelector: string := ".novMV"
  const PriceSelector: string := "[data-testid=\"item-offer-price\"]"
  const QuantitySelector: string := "div[aria-label][class*=\"entQHA\"]"
  const ImageSelector: string := "img.sc-dcJsrY"

  /** The link is computed before the presence test: the enclosing anchor's
      href resolved against the site, or the page URL when there is no
      anchor; None where the URL constructor throws. */
  function SwiggyLink(el: Element, pageUrl: string, resolve: (string, string) -> Option<string>): (link: Option<string>)
    ensures el.closestAnchor.None? ==> link == Some(pageUrl)
    ensures el.closestAnchor.Some? ==> link == resolve(el.closestAnchor.value.href, BaseUrl)
  {
    match el.closestAnchor
    case Some(anchor) => resolve(anchor.href, BaseUrl)
    case None => Some(pageUrl)
  }

  /** The quantity is the aria-label of the quantity node, when both exist. */
  function QuantityOf(el: Element): (quantity: Option<string>)
    ensures quantity.Some? <==> el.Query(QuantitySelector).Some? && el.Query(QuantitySelector).value.ariaLabel.Some?
    ensures quantity.Some? ==> quantity == el.Query(QuantitySelector).value.ariaLabel
  {
    match el.Query(QuantitySelector)
    case Some(q) => q.ariaLabel
    case None => None
  }

  /** One element's listing: present exactly when the link did not throw and
      the title, price and image nodes exist. */
  function SwiggyItem(el: Element, pageUrl: string, resolve: (string, string) -> Option<string>): (r: Option<Listing>)
    ensures r.Some? <==>
      && SwiggyLink(el, pageUrl, resolve).Some?
      && el.Query(TitleSelector).Some? && el.Query(PriceSelector).Some? && el.Query(ImageSelector).Some?
    ensures r.Some? ==>
      && r.value.platform == Swiggy
      && Some(r.value.link) == SwiggyLink(el, pageUrl, resolve)
      && r.value.title == Trim(el.Query(TitleSelector).value.text)
      && r.value.price == Trim(el.Query(PriceSelector).value.text)
      && r.value.image == Some(el.Query(ImageSelector).value.src)
      && r.value.quantity == QuantityOf(el)
      && r.value.rating.None?
  {
    match SwiggyLink(el, pageUrl, resolve)
    case None => None
    case Some(link) =>
      match (el.Query(TitleSelector), el.Query(PriceSelector), el.Query(ImageSelector))
      case (Some(title), Some(price), Some(image)) =>
        Some(Listing(
          title := Trim(title.text),
          price := Trim(price.text),
          image := Some(image.src),
          link := link,
          quantity := QuantityOf(el),
          rating := None,
          platform := Swiggy))
      case _ => None
  }

  function SwiggyItemWith(pageUrl: string, resolve: (string, string) -> Option<string>): Element -> Option<Listing> {
    el => SwiggyItem(el, pageUrl, resolve)
  }

  predicate Emittable(l: Listing) {
    l.platform == Swiggy && l.image.Some? && l.rating.None?
  }

  /** What scrapeSwiggy resolves with, before the finally block: the capped
      listings of every element the container selector matches, or [] when
      the session failed, the wait timed out or the evaluation threw. */
  function SwiggyResults(s: Session): (r: seq<Listing>)
    ensures |r| <= MaxResults
    ensures forall l :: l in r ==> Emittable(l)
    ensures r != [] ==> s.launched && s.loaded && s.Appeared(ContainerSelector) && s.page.Some?
  {
    if !s.launched || !s.loaded || !s.Appeared(ContainerSelector) then []
    else match s.page
      case None => []
      case Some(doc) =>
        var els := doc.QueryAll(ContainerSelector);
        KeptAll(els, SwiggyItemWith(doc.url, doc.resolve), Emittable);
        Capped(Kept(els, SwiggyItemWith(doc.url, doc.resolve)))
  }

  /** scrapeSwiggy: the container wait, the page loop, the finally block. */
  method ScrapeSwiggy(s: Session) returns (outcome: Outcome, closeCalled: bool)
    ensures closeCalled == s.launched
    ensures outcome == Settle(s, SwiggyResults(s))
  {
    var caught: seq<Listing> := [];
    if s.launched && s.loaded && s.Appeared(ContainerSelector) && s.page.Some? {
      var doc := s.page.value;
      caught := Collect(doc.QueryAll(ContainerSelector), SwiggyItemWith(doc.url, doc.resolve));
    }
    closeCalled := s.launched;
    outcome := Settle(s, caught);
  }

  /** A link that throws skips the element even when every node is present:
      the link is computed before the presence test. */
  lemma SwiggyLinkFailureSkips(el: Element, pageUrl: string, resolve: (string, string) -> Option<string>)
    requires el.closestAnchor.Some? && resolve(el.closestAnchor.value.href, BaseUrl).None?
    ensures SwiggyItem(el, pageUrl, resolve).None?
  {
  }
}
