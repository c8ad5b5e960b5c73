/** The Flipkart adapter (lib/scrapers/flipkart.ts): a container selector
    chain picks which elements are results, per-field selector chains fill
    each listing, links are resolved against the site's base URL, and every
    failure outside one element's parsing ends in an empty list. */
module Flipkart {
  import opened Types
  import opened Text
  import opened Browser
  import opened Chains

  const BaseUrl: string := "https://www.flipkart.com"

  const ContainerSelectors: seq<string> :=
    ["div[data-id]", "._1AtVbE", ".tUxRFH", "._2kHMtA", "._4ddWXP"]
  const TitleSelectors: seq<string> := [".KzDlHZ", ".s1Q9rs", "._4rR01T", ".IRpwTa"]
  const PriceSelectors: seq<string> := ["._4b5DiR", "._30jeq3._1_WHN1", "._30jeq3"]
  /** One selector list: querySelector returns the first node in document
      order that matches any of the three. */
  const ImageSelector: string := "img.DByuf4, img._396cs4, img._2r_T1I"
  const LinkSelectors: seq<string> := ["a.CGtC98", "a._1fQZEK", "a.s1Q9rs", "a._2UzuFa"]
  const RatingSelectors: seq<string> := [".XQDdHH", "._3LWZlK"]

  /** The image is kept only when the image node has a non-empty src. */
  function ImageOf(el: Element): (image: Option<string>)
    ensures image.Some? <==> el.Query(ImageSelector).Some? && el.Query(ImageSelector).value.src != ""
    ensures image.Some? ==> image.value == el.Query(ImageSelector).value.src
  {
    match el.Query(ImageSelector)
    case Some(n) => if n.src != "" then Some(n.src) else None
    case None => None
  }

  /** The rating chain tests the untrimmed text, so a blank rating node is
      accepted and stored as the empty string. */
  function RatingOf(el: Element): (rating: Option<string>)
    ensures rating.Some? <==> exists k :: 0 <= k < |RatingSelectors| && Accepted(el, RatingSelectors[k], HasText)
    ensures rating.Some? ==> exists k :: 0 <= k < |RatingSelectors| && Accepted(el, RatingSelectors[k], HasText)
                                   && rating.value == Trim(el.Query(RatingSelectors[k]).value.text)
                                   && (forall j :: 0 <= j < k ==> !Accepted(el, RatingSelectors[j], HasText))
  {
    match FirstMatch(el, RatingSelectors, HasText)
    case Some(n) => Some(Trim(n.text))
    case None => None
  }

  /** One element's listing, or None when the element is skipped: a listing is
      pushed only when title, price and a truthy link were all found, and a
      link the URL constructor rejects throws, which skips the element. */
  function FlipkartItem(el: Element, resolve: (string, string) -> Option<string>): (r: Option<Listing>)
    ensures r.Some? <==>
      FirstMatch(el, TitleSelectors, HasTrimmedText).Some?
      && FirstMatch(el, PriceSelectors, HasTrimmedText).Some?
      && FirstMatch(el, LinkSelectors, HasHref).Some?
      && Truthy(resolve(FirstMatch(el, LinkSelectors, HasHref).value.href, BaseUrl))
    ensures r.Some? ==>
      && r.value.platform == Flipkart
      && r.value.title != "" && r.value.price != "" && r.value.link != ""
      && r.value.quantity.None?
      && r.value.title == Trim(FirstMatch(el, TitleSelectors, HasTrimmedText).value.text)
      && r.value.price == Trim(FirstMatch(el, PriceSelectors, HasTrimmedText).value.text)
      && Some(r.value.link) == resolve(FirstMatch(el, LinkSelectors, HasHref).value.href, BaseUrl)
      && r.value.image == ImageOf(el) && r.value.rating == RatingOf(el)
  {
    var title := FirstMatch(el, TitleSelectors, HasTrimmedText);
    var price := FirstMatch(el, PriceSelectors, HasTrimmedText);
    var anchor := FirstMatch(el, LinkSelectors, HasHref);
    if title.Some? && price.Some? && anchor.Some? && Truthy(resolve(anchor.value.href, BaseUrl)) then
      Some(Listing(
        title := Trim(title.value.text),
        price := Trim(price.value.text),
        image := ImageOf(el),
        link := resolve(anchor.value.href, BaseUrl).value,
        quantity := None,
        rating := RatingOf(el),
        platform := Flipkart))
    else
      None
  }

  function FlipkartItemWith(resolve: (string, string) -> Option<string>): Element -> Option<Listing> {
    el => FlipkartItem(el, resolve)
  }

  /** The body of the per-element callback: the fields of the listing are set
      one chain at a time, and a throwing URL constructor abandons the element. */
  method ExtractFlipkartItem(el: Element, resolve: (string, string) -> Option<string>) returns (item: Option<Listing>)
    ensures item == FlipkartItem(el, resolve)
  {
    var title := MatchFirst(el, TitleSelectors, HasTrimmedText);
    var price := MatchFirst(el, PriceSelectors, HasTrimmedText);
    var image: Option<string> := None;
    var imageEl := el.Query(ImageSelector);
    if imageEl.Some? && imageEl.value.src != "" {
      image := Some(imageEl.value.src);
    }
    var link: Option<string> := None;
    var anchor := MatchFirst(el, LinkSelectors, HasHref);
    if anchor.Some? {
      var url := resolve(anchor.value.href, BaseUrl);
      if url.None? {
        item := None;
        return;
      }
      link := url;
    }
    var rating: Option<string> := None;
    var ratingEl := MatchFirst(el, RatingSelectors, HasText);
    if ratingEl.Some? {
      rating := Some(Trim(ratingEl.value.text));
    }
    if title.Some? && Truthy(link) && price.Some? {
      item := Some(Listing(Trim(title.value.text), Trim(price.value.text), image, link.value, None, rating, Flipkart));
    } else {
      item := None;
    }
  }

  /** What scrapeFlipkart resolves with, before the finally block: the capped
      listings of the elements of the first adoptable container selector,
      or [] when the session failed, no selector was adoptable, or the page
      evaluation threw. */
  function FlipkartResults(s: Session): (r: seq<Listing>)
    ensures |r| <= MaxResults
    ensures forall l :: l in r ==>
      l.platform == Flipkart && l.title != "" && l.price != "" && l.link != "" && l.quantity.None?
    ensures r != [] ==>
              s.launched && s.loaded && s.page.Some? && FirstIndex(ContainerSelectors, Adoptable(s)).Some?
  {
    if !s.launched || !s.loaded then []
    else match FirstIndex(ContainerSelectors, Adoptable(s))
      case None => []
      case Some(k) =>
        match s.page
        case None => []
        case Some(doc) =>
          var els := doc.QueryAll(ContainerSelectors[k]);
          KeptAll(els, FlipkartItemWith(doc.resolve), Emittable);
          Capped(Kept(els, FlipkartItemWith(doc.resolve)))
  }

  predicate Emittable(l: Listing) {
    l.platform == Flipkart && l.title != "" && l.price != "" && l.link != "" && l.quantity.None?
  }

  /** scrapeFlipkart: the container loop tries selectors in order and stops at
      the first adoptable one, the page loop collects at most ten listings,
      and the finally block closes a launched browser. */
  method ScrapeFlipkart(s: Session) returns (outcome: Outcome, closeCalled: bool)
    ensures closeCalled == s.launched
    ensures outcome == Settle(s, FlipkartResults(s))
  {
    var caught: seq<Listing> := [];
    if s.launched && s.loaded {
      var k, _ := FindFirst(ContainerSelectors, Adoptable(s));
      if k.Some? && s.page.Some? {
        var doc := s.page.value;
        caught := Collect(doc.QueryAll(ContainerSelectors[k.value]), FlipkartItemWith(doc.resolve));
      }
    }
    closeCalled := s.launched;
    outcome := Settle(s, caught);
  }

  /** The results are the listings of the first adoptable container selector:
      every earlier selector timed out or matched nothing, and the elements
      read are those that selector matches in the evaluated page. */
  lemma FlipkartUsesFirstAdoptable(s: Session, k: nat)
    requires s.launched && s.loaded && s.page.Some?
    requires k < |ContainerSelectors| && Adoptable(s)(ContainerSelectors[k])
    requires forall j :: 0 <= j < k ==> !Adoptable(s)(ContainerSelectors[j])
    ensures FlipkartResults(s)
         == Capped(Kept(s.page.value.QueryAll(ContainerSelectors[k]), FlipkartItemWith(s.page.value.resolve)))
  {
    FirstIndexIs(ContainerSelectors, Adoptable(s), k);
  }

  /** With no adoptable container selector the adapter resolves with [] (or
      rejects, when closing the browser throws). */
  lemma FlipkartNoContainer(s: Session)
    requires forall j :: 0 <= j < |ContainerSelectors| ==> !Adoptable(s)(ContainerSelectors[j])
    ensures FlipkartResults(s) == []
  {
  }

  /** A rating node whose text is only white space still yields a rating: the
      chain accepts it on its untrimmed text and stores the trimmed, empty,
      string. */
  lemma FlipkartBlankRating(el: Element, resolve: (string, string) -> Option<string>)
    requires FlipkartItem(el, resolve).Some?
    requires el.Query(RatingSelectors[0]).Some?
    requires var t := el.Query(RatingSelectors[0]).value.text;
             t != [] && forall i :: 0 <= i < |t| ==> IsSpace(t[i])
    ensures FlipkartItem(el, resolve).value.rating == Some("")
  {
    var t := el.Query(RatingSelectors[0]).value.text;
    assert Accepted(el, RatingSelectors[0], HasText);
    TrimEmptyIffBlank(t);
  }
}
