/** The Zepto adapter (lib/scrapers/zepto.ts): one container selector that
    must appear, cards inside that container, a presence test on three nodes,
    and the page's own URL as every listing's link. */
module Zepto {
  import opened Types
  import opened Text
  import opened Browser
  import opened Chains

  const ContainerSelector: string := "[class*=\"product-list-wrapper\"]"
  const CardSelector: string := "[class*=\"product-card-wrapper\"]"
  const TitleSelector: string := "[class*=\"product-name\"]"
  const PriceSelector: string := "p[class*=\"selling-price\"]"
  const QuantitySelector: string := "p[class*=\"product-meta-info\"]"
  const ImageSelector: string := "img.product-img"

  /** One card's listing: present exactly when the title, price and image
      nodes exist.  Their texts are trimmed but never checked for emptiness, the quantity is
      the trimmed text of its node when there is one, and the link is the
      URL of the page. */
  function ZeptoItem(el: Element, pageUrl: string): (r: Option<Listing>)
    ensures r.Some? <==>
      el.Query(TitleSelector).Some? && el.Query(PriceSelector).Some? && el.Query(ImageSelector).Some?
    ensures r.Some? ==>
      && r.value.platform == Zepto
      && r.value.link == pageUrl
      && r.value.title == Trim(el.Query(TitleSelector).value.text)
      && r.value.price == Trim(el.Query(PriceSelector).value.text)
      && r.value.image == Some(el.Query(ImageSelector).value.src)
      && (r.value.quantity.Some? <==> el.Query(QuantitySelector).Some?)
      && r.value.rating.None?
  {
    match (el.Query(TitleSelector), el.Query(PriceSelector), el.Query(ImageSelector))
    case (Some(title), Some(price), Some(image)) =>
      var quantity := match el.Query(QuantitySelector)
        case Some(q) => Some(Trim(q.text))
        case None => None;
      Some(Listing(
        title := Trim(title.text),
        price := Trim(price.text),
        image := Some(image.src),
        link := pageUrl,
        quantity := quantity,
        rating := None,
        platform := Zepto))
    case _ => None
  }

  function ZeptoItemAt(pageUrl: string): Element -> Option<Listing> {
    el => ZeptoItem(el, pageUrl)
  }

  predicate Emittable(l: Listing, pageUrl: string) {
    l.platform == Zepto && l.link == pageUrl && l.image.Some? && l.rating.None?
  }

  function EmittableAt(pageUrl: string): Listing -> bool {
    l => Emittable(l, pageUrl)
  }

  /** What scrapeZepto resolves with, before the finally block: [] when the
      session failed, the container wait timed out, the page evaluation threw
      or the container is gone by then; otherwise the capped listings of the
      container's cards. */
  function ZeptoResults(s: Session): (r: seq<Listing>)
    ensures |r| <= MaxResults
    ensures r != [] ==>
              && s.launched && s.loaded && s.Appeared(ContainerSelector) && s.page.Some?
              && s.page.value.QueryFirst(ContainerSelector).Some?
              && forall l :: l in r ==> Emittable(l, s.page.value.url)
  {
    if !s.launched || !s.loaded || !s.Appeared(ContainerSelector) then []
    else match s.page
      case None => []
      case Some(doc) =>
        match doc.QueryFirst(ContainerSelector)
        case None => []
        case Some(container) =>
          var cards := container.QueryAll(CardSelector);
          KeptAll(cards, ZeptoItemAt(doc.url), EmittableAt(doc.url));
          Capped(Kept(cards, ZeptoItemAt(doc.url)))
  }

  /** scrapeZepto: the container wait, the page loop over the container's
      cards, and the finally block. */
  method ScrapeZepto(s: Session) returns (outcome: Outcome, closeCalled: bool)
    ensures closeCalled == s.launched
    ensures outcome == Settle(s, ZeptoResults(s))
  {
    var caught: seq<Listing> := [];
    if s.launched && s.loaded && s.Appeared(ContainerSelector) && s.page.Some? {
      var doc := s.page.value;
      var container := doc.QueryFirst(ContainerSelector);
      if container.Some? {
        caught := Collect(container.value.QueryAll(CardSelector), ZeptoItemAt(doc.url));
      }
    }
    closeCalled := s.launched;
    outcome := Settle(s, caught);
  }

  /** Every listing of one run carries the same link: the page URL. */
  lemma ZeptoLinksAgree(s: Session, i: nat, j: nat)
    requires i < |ZeptoResults(s)| && j < |ZeptoResults(s)|
    ensures ZeptoResults(s)[i].link == ZeptoResults(s)[j].link == s.page.value.url
  {
    assert ZeptoResults(s)[i] in ZeptoResults(s);
    assert ZeptoResults(s)[j] in ZeptoResults(s);
  }

  /** Texts are never checked for emptiness: a card whose title node is blank is still emitted,
      with the empty string as its title. */
  lemma ZeptoBlankTitleEmitted(el: Element, pageUrl: string)
    requires el.Query(TitleSelector).Some? && el.Query(PriceSelector).Some? && el.Query(ImageSelector).Some?
    requires forall i :: 0 <= i < |el.Query(TitleSelector).value.text| ==> IsSpace(el.Query(TitleSelector).value.text[i])
    ensures ZeptoItem(el, pageUrl).Some? && ZeptoItem(el, pageUrl).value.title == ""
  {
    TrimEmptyIffBlank(el.Query(TitleSelector).value.text);
  }
}
