/** The Blinkit adapter (lib/scrapers/blinkit.ts): one container selector
    that must appear, cards inside it, a presence test on four nodes and the
    enclosing anchor, and links that are kept when absolute and resolved
    against the site otherwise. */
module Blinkit {
  import opened Types
  import opened Text
  import opened Browser
  import opened Chains

  const BaseUrl: string := "https://blinkit.com"
  const ContainerSelector: string := ".ProductList__Grid-sc-1q2y52o-1"
  const CardSelector: string := ".Product__ListItem-sc-1daaf0c-0"
  const TitleSelector: string := ".Product__details__name"
  const PriceSelector: string := ".Product__details__price > span"
  const QuantitySelector: string := ".Product__details__quantity"
  const ImageSelector: string := "img.Product__image"

  /** The anchor's href, reassigned to its resolution against the site when it
      does not start with "http"; None where the URL constructor throws. */
  function BlinkitLink(href: string, resolve: (string, string) -> Option<string>): (link: Option<string>)
    ensures StartsWith(href, "http") ==> link == Some(href)
    ensures !StartsWith(href, "http") ==> link == resolve(href, BaseUrl)
  {
    if StartsWith(href, "http") then Some(href) else resolve(href, BaseUrl)
  }

  /** The per-card step with its `let link` reassignment. */
  method ResolveBlinkitLink(href: string, resolve: (string, string) -> Option<string>) returns (link: Option<string>)
    ensures link == BlinkitLink(href, resolve)
  {
    link := Some(href);
    if !StartsWith(href, "http") {
      link := resolve(href, BaseUrl);
    }
  }

  /** One card's listing: present exactly when the title, price, quantity and
      image nodes and an enclosing anchor all exist and the link resolves. */
  function BlinkitItem(el: Element, resolve: (string, string) -> Option<string>): (r: Option<Listing>)
    ensures r.Some? <==>
      && el.Query(TitleSelector).Some? && el.Query(PriceSelector).Some?
      && el.Query(QuantitySelector).Some? && el.Query(ImageSelector).Some?
      && el.closestAnchor.Some? && BlinkitLink(el.closestAnchor.value.href, resolve).Some?
    ensures r.Some? ==>
      && r.value.platform == Blinkit
      && r.value.title == Trim(el.Query(TitleSelector).value.text)
      && r.value.price == Trim(el.Query(PriceSelector).value.text)
      && r.value.quantity == Some(Trim(el.Query(QuantitySelector).value.text))
      && r.value.image == Some(el.Query(ImageSelector).value.src)
      && Some(r.value.link) == BlinkitLink(el.closestAnchor.value.href, resolve)
      && r.value.rating.None?
  {
    match (el.Query(TitleSelector), el.Query(PriceSelector), el.Query(QuantitySelector), el.Query(ImageSelector), el.closestAnchor)
    case (Some(title), Some(price), Some(quantity), Some(image), Some(anchor)) =>
      (match BlinkitLink(anchor.href, resolve)
       case None => None
       case Some(link) =>
         Some(Listing(
           title := Trim(title.text),
           price := Trim(price.text),
           image := Some(image.src),
           link := link,
           quantity := Some(Trim(quantity.text)),
           rating := None,
           platform := Blinkit)))
    case _ => None
  }

  function BlinkitItemWith(resolve: (string, string) -> Option<string>): Element -> Option<Listing> {
    el => BlinkitItem(el, resolve)
  }

  predicate Emittable(l: Listing) {
    l.platform == Blinkit && l.quantity.Some? && l.image.Some? && l.rating.None?
  }

  /** What scrapeBlinkit resolves with, before the finally block. */
  function BlinkitResults(s: Session): (r: seq<Listing>)
    ensures |r| <= MaxResults
    ensures forall l :: l in r ==> Emittable(l)
    ensures r != [] ==>
              && s.launched && s.loaded && s.Appeared(ContainerSelector) && s.page.Some?
              && s.page.value.QueryFirst(ContainerSelector).Some?
  {
    if !s.launched || !s.loaded || !s.Appeared(ContainerSelector) then []
    else match s.page
      case None => []
      case Some(doc) =>
        match doc.QueryFirst(ContainerSelector)
        case None => []
        case Some(container) =>
          var cards := container.QueryAll(CardSelector);
          KeptAll(cards, BlinkitItemWith(doc.resolve), Emittable);
          Capped(Kept(cards, BlinkitItemWith(doc.resolve)))
  }

  /** scrapeBlinkit: the container wait, the page loop over the container's
      cards, and the finally block. */
  method ScrapeBlinkit(s: Session) returns (outcome: Outcome, closeCalled: bool)
    ensures closeCalled == s.launched
    ensures outcome == Settle(s, BlinkitResults(s))
  {
    var caught: seq<Listing> := [];
    if s.launched && s.loaded && s.Appeared(ContainerSelector) && s.page.Some? {
      var doc := s.page.value;
      var container := doc.QueryFirst(ContainerSelector);
      if container.Some? {
        caught := Collect(container.value.QueryAll(CardSelector), BlinkitItemWith(doc.resolve));
      }
    }
    closeCalled := s.launched;
    outcome := Settle(s, caught);
  }

  /** A link that already starts with "http" is emitted exactly as the anchor
      gave it, whatever the URL constructor would have made of it. */
  lemma BlinkitAbsoluteLinkKept(el: Element, resolve: (string, string) -> Option<string>)
    requires BlinkitItem(el, resolve).Some?
    requires StartsWith(el.closestAnchor.value.href, "http")
    ensures BlinkitItem(el, resolve).value.link == el.closestAnchor.value.href
  {
  }

  /** A card without an enclosing anchor is never emitted, even with every
      other node present. */
  lemma BlinkitNeedsAnchor(el: Element, resolve: (string, string) -> Option<string>)
    requires el.closestAnchor.None?
    ensures BlinkitItem(el, resolve).None?
  {
  }
}
