/** The Amazon adapter (lib/scrapers/amazon.ts): a container selector chain,
    title and price chains, a single link anchor whose href is filtered and
    resolved against the page URL, and the same empty-list-on-error and
    close-in-finally shape as the other adapters. */
module Amazon {
  import opened Types
  import opened Text
  import opened Browser
  import opened Chains

  const ContainerSelectors: seq<string> := [
    "[data-component-type=\"s-search-result\"]",
    ".s-result-item",
    "[data-asin]:not([data-asin=\"\"])",
    ".sg-col-inner .s-widget-container"]
  const TitleSelectors: seq<string> := [
    "h2.a-size-mini span.a-text-normal",
    "span.a-size-medium.a-color-base.a-text-normal",
    "h2.a-size-medium span",
    "h2 a span"]
  const PriceSelectors: seq<string> := [".a-price-whole", ".a-price .a-offscreen"]
  const ImageSelector: string := "img.s-image"
  const LinkSelector: string := "a.a-link-normal.s-no-outline"
  const RatingSelector: string := "span.a-icon-alt"
  /** An anchor whose href contains this is a script trigger, not a product page. */
  const ScriptLink: string := "javascript:void(0)"

  /** The href is usable as a product link. */
  predicate LinkAllowed(href: string) {
    href != "" && !Contains(href, ScriptLink)
  }

  /** An image node is enough: its src is stored even when empty. */
  function ImageOf(el: Element): (image: Option<string>)
    ensures image.Some? <==> el.Query(ImageSelector).Some?
    ensures image.Some? ==> image.value == el.Query(ImageSelector).value.src
  {
    match el.Query(ImageSelector)
    case Some(n) => Some(n.src)
    case None => None
  }

  /** The rating is the trimmed text of the rating node when that text is
      non-empty; it is not parsed or normalised. */
  function RatingOf(el: Element): (rating: Option<string>)
    ensures rating.Some? <==> el.Query(RatingSelector).Some? && el.Query(RatingSelector).value.text != ""
    ensures rating.Some? ==> rating.value == Trim(el.Query(RatingSelector).value.text)
  {
    match el.Query(RatingSelector)
    case Some(n) => if n.text != "" then Some(Trim(n.text)) else None
    case None => None
  }

  /** One element's listing, or None when it is skipped.  The link comes only
      from the one anchor selector, an empty href or one that contains the
      script marker leaves the link unset, and a href the URL constructor
      rejects throws, which skips the element. */
  function AmazonItem(el: Element, pageUrl: string, resolve: (string, string) -> Option<string>): (r: Option<Listing>)
    ensures r.Some? <==>
      FirstMatch(el, TitleSelectors, HasTrimmedText).Some?
      && FirstMatch(el, PriceSelectors, HasTrimmedText).Some?
      && el.Query(LinkSelector).Some? && LinkAllowed(el.Query(LinkSelector).value.href)
      && Truthy(resolve(el.Query(LinkSelector).value.href, pageUrl))
    ensures r.Some? ==>
      && r.value.platform == Amazon
      && r.value.title == Trim(FirstMatch(el, TitleSelectors, HasTrimmedText).value.text)
      && r.value.price == Trim(FirstMatch(el, PriceSelectors, HasTrimmedText).value.text)
      && r.value.title != "" && r.value.price != "" && r.value.link != ""
      && !Contains(el.Query(LinkSelector).value.href, ScriptLink)
      && Some(r.value.link) == resolve(el.Query(LinkSelector).value.href, pageUrl)
      && r.value.quantity.None?
      && r.value.image == ImageOf(el) && r.value.rating == RatingOf(el)
  {
    var title := FirstMatch(el, TitleSelectors, HasTrimmedText);
    var price := FirstMatch(el, PriceSelectors, HasTrimmedText);
    var anchor := el.Query(LinkSelector);
    if title.Some? && price.Some? && anchor.Some? && LinkAllowed(anchor.value.href)
       && Truthy(resolve(anchor.value.href, pageUrl))
    then
      Some(Listing(
        title := Trim(title.value.text),
        price := Trim(price.value.text),
        image := ImageOf(el),
        link := resolve(anchor.value.href, pageUrl).value,
        quantity := None,
        rating := RatingOf(el),
        platform := Amazon))
    else
      None
  }

  function AmazonItemWith(pageUrl: string, resolve: (string, string) -> Option<string>): Element -> Option<Listing> {
    el => AmazonItem(el, pageUrl, resolve)
  }

  /** The body of the per-element callback, setting the listing's fields one
      step at a time; a throwing URL constructor abandons the element. */
  method ExtractAmazonItem(el: Element, pageUrl: string, resolve: (string, string) -> Option<string>)
    returns (item: Option<Listing>)
    ensures item == AmazonItem(el, pageUrl, resolve)
  {
    var title := MatchFirst(el, TitleSelectors, HasTrimmedText);
    var price := MatchFirst(el, PriceSelectors, HasTrimmedText);
    var image: Option<string> := None;
    var imageEl := el.Query(ImageSelector);
    if imageEl.Some? {
      image := Some(imageEl.value.src);
    }
    var link: Option<string> := None;
    var linkEl := el.Query(LinkSelector);
    if linkEl.Some? {
      var href := linkEl.value.href;
      if LinkAllowed(href) {
        var url := resolve(href, pageUrl);
        if url.None? {
          item := None;
          return;
        }
        link := url;
      }
    }
    var rating: Option<string> := None;
    var ratingEl := el.Query(RatingSelector);
    if ratingEl.Some? && ratingEl.value.text != "" {
      rating := Some(Trim(ratingEl.value.text));
    }
    if title.Some? && Truthy(link) && price.Some? {
      item := Some(Listing(Trim(title.value.text), Trim(price.value.text), image, link.value, None, rating, Amazon));
    } else {
      item := None;
    }
  }

  predicate Emittable(l: Listing) {
    l.platform == Amazon && l.title != "" && l.price != "" && l.link != "" && l.quantity.None?
  }

  /** What scrapeAmazon resolves with, before the finally block: the capped
      listings of the first adoptable container selector's elements, with
      links resolved against the URL of the page, or [] on any failure. */
  function AmazonResults(s: Session): (r: seq<Listing>)
    ensures |r| <= MaxResults
    ensures forall l :: l in r ==> Emittable(l)
    ensures r != [] ==>
              s.launched && s.loaded && s.page.Some? && FirstIndex(ContainerSelectors, Adoptable(s)).Some?
  {
    if !s.launched || !s.loaded then []
    else match FirstIndex(ContainerSelectors, Adoptable(s))
      case None => []
      case Some(k) =>
        match s.page
        case None => []
        case Some(doc) =>
          var els := doc.QueryAll(ContainerSelectors[k]);
          KeptAll(els, AmazonItemWith(doc.url, doc.resolve), Emittable);
          Capped(Kept(els, AmazonItemWith(doc.url, doc.resolve)))
  }

  /** scrapeAmazon: container loop, page loop, finally. */
  method ScrapeAmazon(s: Session) returns (outcome: Outcome, closeCalled: bool)
    ensures closeCalled == s.launched
    ensures outcome == Settle(s, AmazonResults(s))
  {
    var caught: seq<Listing> := [];
    if s.launched && s.loaded {
      var k, _ := FindFirst(ContainerSelectors, Adoptable(s));
      if k.Some? && s.page.Some? {
        var doc := s.page.value;
        caught := Collect(doc.QueryAll(ContainerSelectors[k.value]), AmazonItemWith(doc.url, doc.resolve));
      }
    }
    closeCalled := s.launched;
    outcome := Settle(s, caught);
  }

  /** The results are the listings of the first container selector, in the
      listed order, whose wait resolved with at least one element. */
  lemma AmazonUsesFirstAdoptable(s: Session, k: nat)
    requires s.launched && s.loaded && s.page.Some?
    requires k < |ContainerSelectors| && Adoptable(s)(ContainerSelectors[k])
    requires forall j :: 0 <= j < k ==> !Adoptable(s)(ContainerSelectors[j])
    ensures AmazonResults(s)
         == Capped(Kept(s.page.value.QueryAll(ContainerSelectors[k]), AmazonItemWith(s.page.value.url, s.page.value.resolve)))
  {
    FirstIndexIs(ContainerSelectors, Adoptable(s), k);
  }

  /** With no adoptable container selector the adapter resolves with []. */
  lemma AmazonNoContainer(s: Session)
    requires forall j :: 0 <= j < |ContainerSelectors| ==> !Adoptable(s)(ContainerSelectors[j])
    ensures AmazonResults(s) == []
  {
  }

  /** An anchor whose href has the script marker anywhere in it never yields
      a listing, whatever else the element holds. */
  lemma AmazonScriptLinkSkipped(el: Element, pageUrl: string, resolve: (string, string) -> Option<string>, i: nat)
    requires el.Query(LinkSelector).Some? && OccursAt(el.Query(LinkSelector).value.href, ScriptLink, i)
    ensures AmazonItem(el, pageUrl, resolve).None?
  {
    ContainsIffOccurs(el.Query(LinkSelector).value.href, ScriptLink);
  }
}
