/** The headless-browser session each adapter drives, seen as an oracle: the
    adapters only observe which waits succeed, which elements the page holds
    and whether closing the browser throws.  Launch options, viewport, user
    agent, cookies, navigation and sleeps are folded into two flags. */
module Browser {
  import opened Types

  /** A DOM node as the adapters read it: its textContent (never null for an
      element), the href of an anchor, the src of an image, and its
      aria-label attribute when it has one. */
  datatype Node = Node(text: string, href: string, src: string, ariaLabel: Option<string>)

  /** A candidate result element: what element.querySelector(selector)
      returns for each selector that matches inside it, and
      element.closest('a'). */
  datatype Element = Element(query: map<string, Node>, closestAnchor: Option<Node>) {
    function Query(selector: string): Option<Node> {
      if selector in query then Some(query[selector]) else None
    }
  }

  /** An element that holds result cards: container.querySelectorAll(selector). */
  datatype Container = Container(all: map<string, seq<Element>>) {
    function QueryAll(selector: string): seq<Element> {
      if selector in all then all[selector] else []
    }
  }

  /** The page as seen from inside page.evaluate: window.location.href,
      document.querySelectorAll, document.querySelector, and the URL
      constructor, `new URL(href, base).href`, which yields None where it
      throws. */
  datatype Document = Document(
    url: string,
    all: map<string, seq<Element>>,
    first: map<string, Container>,
    resolve: (string, string) -> Option<string>)
  {
    function QueryAll(selector: string): seq<Element> {
      if selector in all then all[selector] else []
    }

    function QueryFirst(selector: string): Option<Container> {
      if selector in first then Some(first[selector]) else None
    }
  }

  /** What `page.waitForSelector(selector)` followed by `page.$$(selector)`
      gives: a timeout (or any other throw), or the number of handles found. */
  datatype Probe = TimedOut | Matched(handles: nat)

  /** One adapter invocation's browser session.
      launched:   puppeteer.launch resolved, so there is a browser to close;
      loaded:     every step from newPage to the fixed sleep resolved;
      probes:     the outcome of waiting for each selector (absent: timed out);
      page:       the document page.evaluate runs against (None: it threw);
      closeFails: browser.close() throws in the finally block. */
  datatype Session = Session(
    launched: bool,
    loaded: bool,
    probes: map<string, Probe>,
    page: Option<Document>,
    closeFails: bool)
  {
    function ProbeOf(selector: string): Probe {
      if selector in probes then probes[selector] else TimedOut
    }

    /** The wait for this selector resolved (its handle count is not looked at). */
    predicate Appeared(selector: string) {
      ProbeOf(selector).Matched?
    }
  }

  /** A container selector is adopted when its wait resolves and it matches
      at least one element. */
  function Adoptable(s: Session): string -> bool {
    sel => s.ProbeOf(sel).Matched? && s.ProbeOf(sel).handles > 0
  }

  /** The settled state of an adapter's promise. */
  datatype Outcome = Fulfilled(listings: seq<Listing>) | Rejected

  /** The `finally` block every adapter ends with: the browser is closed when
      it was launched, and a close that throws replaces whatever the `try`
      or `catch` returned, so the promise rejects. */
  function Settle(s: Session, caught: seq<Listing>): (o: Outcome)
    ensures o.Rejected? <==> s.launched && s.closeFails
    ensures o.Fulfilled? ==> o.listings == caught
  {
    if s.launched && s.closeFails then Rejected else Fulfilled(caught)
  }
}
