/** The search endpoint (app/api/search/route.ts): validate the body, look
    the category up in the scraper table, run the category's adapters and
    keep what each settled with, answer 404 when nothing was found, and
    otherwise answer with the ranked listings. */
module Route {
  import opened Types
  import opened Browser
  import opened Chains
  import opened Ranking
  import opened Numbers
  import AmazonAdapter = Amazon
  import FlipkartAdapter = Flipkart
  import SwiggyAdapter = Swiggy
  import BlinkitAdapter = Blinkit
  import ZeptoAdapter = Zepto

  /** A field of the parsed JSON body: missing, a string, or any other JSON
      value, seen through its truthiness and the string it converts to (None
      when that conversion throws, as for an object whose `toString` member
      is not a function). */
  datatype JsonField = Absent | Str(s: string) | Other(truthy: bool, text: Option<string>)

  predicate Present(f: JsonField): (b: bool)
    ensures f.Absent? ==> !b
    ensures f.Str? ==> (b <==> f.s != "")
  {
    match f
    case Absent => false
    case Str(s) => s != ""
    case Other(truthy, _) => truthy
  }

  /** The string a field converts to, both as the property key of
      `scrapers[category]` and inside the log line's template literal; None
      when the conversion throws a TypeError. */
  function AsString(f: JsonField): (r: Option<string>)
    ensures f.Str? ==> r == Some(f.s)
    ensures r.None? ==> f.Other?
  {
    match f
    case Absent => Some("undefined")
    case Str(s) => Some(s)
    case Other(_, text) => text
  }

  /** The request as `await request.json()` and the destructuring see it:
      Unparsable when either throws (a body that is not JSON, or null). */
  datatype Request = Unparsable | Body(searchTerm: JsonField, category: JsonField)

  /** What `scrapers[category]` yields on the plain-object table: an own
      entry, nothing, or a member inherited from Object.prototype (truthy,
      but with no `map`). */
  datatype Lookup = Table(scrapers: seq<Platform>) | Undefined | Inherited

  const InheritedKeys: set<string> := {
    "constructor", "__proto__", "hasOwnProperty", "isPrototypeOf",
    "propertyIsEnumerable", "toLocaleString", "toString", "valueOf",
    "__defineGetter__", "__defineSetter__", "__lookupGetter__", "__lookupSetter__"}

  /** The category table: products and grocery, each with its adapters in order. */
  function LookupCategory(key: string): (l: Lookup)
    ensures l.Table? <==> key == "products" || key == "grocery"
    ensures l.Inherited? <==> key in InheritedKeys
    ensures l.Table? ==> |l.scrapers| > 0
  {
    if key == "products" then Table([Amazon, Flipkart])
    else if key == "grocery" then Table([Swiggy, Blinkit, Zepto])
    else if key in InheritedKeys then Inherited
    else Undefined
  }

  const MissingFields: string := "Search term and category are required"
  const InvalidCategory: string := "Invalid category specified"
  const NothingFound: string := "Could not find the product on any platform."
  const InternalError: string := "An internal server error occurred."

  datatype Response =
    | BadRequest(error: string)
    | NotFound(error: string)
    | ServerError(error: string)
    | Ok(results: seq<RankedListing>)
  {
    function Status(): (code: nat)
      ensures code in {200, 400, 404, 500}
    {
      match this
      case BadRequest(_) => 400
      case NotFound(_) => 404
      case ServerError(_) => 500
      case Ok(_) => 200
    }
  }

  /** The browser session each adapter would meet in this invocation. */
  datatype Sessions = Sessions(amazon: Session, flipkart: Session, swiggy: Session, blinkit: Session, zepto: Session)
  {
    function Of(p: Platform): Session {
      match p
      case Amazon => amazon
      case Flipkart => flipkart
      case Swiggy => swiggy
      case Blinkit => blinkit
      case Zepto => zepto
    }
  }

  /** How the adapter of platform p settles in session s. */
  function ScrapeOutcome(p: Platform, s: Session): (o: Outcome)
    ensures o.Rejected? <==> s.launched && s.closeFails
    ensures o.Fulfilled? ==> |o.listings| <= MaxResults
    ensures o.Fulfilled? ==> forall l :: l in o.listings ==> l.platform == p
  {
    match p
    case Amazon => Settle(s, AmazonAdapter.AmazonResults(s))
    case Flipkart => Settle(s, FlipkartAdapter.FlipkartResults(s))
    case Swiggy => Settle(s, SwiggyAdapter.SwiggyResults(s))
    case Blinkit => Settle(s, BlinkitAdapter.BlinkitResults(s))
    case Zepto => Settle(s, ZeptoAdapter.ZeptoResults(s))
  }

  /** Calling the adapter that platform p names. */
  method RunScraper(p: Platform, s: Session) returns (o: Outcome, closeCalled: bool)
    ensures o == ScrapeOutcome(p, s)
    ensures closeCalled == s.launched
  {
    match p
    case Amazon => o, closeCalled := AmazonAdapter.ScrapeAmazon(s);
    case Flipkart => o, closeCalled := FlipkartAdapter.ScrapeFlipkart(s);
    case Swiggy => o, closeCalled := SwiggyAdapter.ScrapeSwiggy(s);
    case Blinkit => o, closeCalled := BlinkitAdapter.ScrapeBlinkit(s);
    case Zepto => o, closeCalled := ZeptoAdapter.ScrapeZepto(s);
  }

  /** The settled outcomes, in table order. */
  function Outcomes(ps: seq<Platform>, env: Sessions): (os: seq<Outcome>)
    ensures |os| == |ps|
    ensures forall i :: 0 <= i < |ps| ==> os[i] == ScrapeOutcome(ps[i], env.Of(ps[i]))
  {
    seq(|ps|, i requires 0 <= i < |ps| => ScrapeOutcome(ps[i], env.Of(ps[i])))
  }

  /** The listings a fulfilled outcome contributes; a rejected one contributes none. */
  function Contribution(o: Outcome): seq<Listing> {
    match o
    case Fulfilled(ls) => ls
    case Rejected => []
  }

  /** allProducts after the forEach: the concatenation, in order, of every
      fulfilled outcome's listings. */
  function Merge(os: seq<Outcome>): (r: seq<Listing>)
    ensures forall l :: l in r ==> exists i :: 0 <= i < |os| && l in Contribution(os[i])
    ensures forall i, l :: 0 <= i < |os| && l in Contribution(os[i]) ==> l in r
  {
    if os == [] then []
    else
      var init := os[..|os| - 1];
      assert forall i :: 0 <= i < |init| ==> init[i] == os[i];
      Merge(init) + Contribution(os[|os| - 1])
  }

  /** The forEach over the settled results, reassigning allProducts. */
  method MergeSettled(os: seq<Outcome>) returns (all: seq<Listing>)
    ensures all == Merge(os)
  {
    all := [];
    for i := 0 to |os|
      invariant all == Merge(os[..i])
    {
      assert os[..i + 1][..i] == os[..i];
      if os[i].Fulfilled? {
        all := all + os[i].listings;
      }
    }
    assert os[..|os|] == os;
  }

  /** Merging is concatenation over the outcome list. */
  lemma {:induction false} MergeAppend(a: seq<Outcome>, b: seq<Outcome>)
    ensures Merge(a + b) == Merge(a) + Merge(b)
    decreases |b|
  {
    if b == [] {
      assert a + b == a;
    } else {
      var b' := b[..|b| - 1];
      assert (a + b)[..|a + b| - 1] == a + b';
      MergeAppend(a, b');
    }
  }

  /** A rejected adapter contributes nothing and disturbs nothing around it. */
  lemma MergeSkipsRejected(a: seq<Outcome>, b: seq<Outcome>)
    ensures Merge(a + [Rejected] + b) == Merge(a + b)
  {
    assert a + [Rejected] + b == (a + [Rejected]) + b;
    MergeAppend(a + [Rejected], b);
    MergeAppend(a, [Rejected]);
    MergeAppend(a, b);
    assert [Rejected][..0] == [];
    assert Merge(a + [Rejected]) == Merge(a);
  }

  /** The merge is empty exactly when no outcome brought a listing. */
  lemma {:induction false} MergeEmptyIff(os: seq<Outcome>)
    ensures Merge(os) == [] <==> forall i :: 0 <= i < |os| ==> Contribution(os[i]) == []
  {
    if os != [] {
      var init := os[..|os| - 1];
      MergeEmptyIff(init);
      assert forall i :: 0 <= i < |init| ==> init[i] == os[i];
    }
  }

  /** Every merged listing carries the tag of an adapter that ran. */
  lemma {:induction false} MergedFromInvoked(ps: seq<Platform>, env: Sessions, l: Listing)
    requires l in Merge(Outcomes(ps, env))
    ensures l.platform in ps
  {
    var os := Outcomes(ps, env);
    var i :| 0 <= i < |os| && l in Contribution(os[i]);
    assert os[i] == ScrapeOutcome(ps[i], env.Of(ps[i]));
  }

  /** The adapters a request causes to run, in order. */
  function Invoked(req: Request): seq<Platform> {
    match req
    case Unparsable => []
    case Body(term, category) =>
      if !Present(term) || !Present(category) then []
      else match AsString(category)
        case None => []
        case Some(key) =>
          match LookupCategory(key)
          case Table(ps) => if AsString(term).None? then [] else ps
          case _ => []
  }

  /** The response POST sends for a request, given the sessions its adapters meet. */
  function Respond(req: Request, env: Sessions): (resp: Response)
    ensures resp.ServerError? ==> resp.error == InternalError && Invoked(req) == []
    ensures resp.BadRequest? ==> Invoked(req) == []
    ensures resp.Ok? ==> 0 < |Merge(Outcomes(Invoked(req), env))| && |resp.results| <= TopK
    ensures resp.Ok? ==> resp.results == Rank(Merge(Outcomes(Invoked(req), env)))
    ensures resp.NotFound? ==> Invoked(req) != [] && Merge(Outcomes(Invoked(req), env)) == []
  {
    match req
    case Unparsable => ServerError(InternalError)
    case Body(term, category) =>
      if !Present(term) || !Present(category) then BadRequest(MissingFields)
      else match AsString(category)
        case None => ServerError(InternalError)
        case Some(key) =>
          match LookupCategory(key)
          case Undefined => BadRequest(InvalidCategory)
          case Inherited => ServerError(InternalError)
          case Table(ps) =>
            if AsString(term).None? then ServerError(InternalError)
            else
              var all := Merge(Outcomes(ps, env));
              if all == [] then NotFound(NothingFound) else Ok(Rank(all))
  }

  /** POST: the early returns, the property-key and log-line conversions, the
      adapter calls in table order, the merge, the 404 test and the ranking. */
  method Post(req: Request, env: Sessions) returns (resp: Response, invoked: seq<Platform>)
    ensures resp == Respond(req, env)
    ensures invoked == Invoked(req)
  {
    invoked := [];
    if req.Unparsable? {
      return ServerError(InternalError), invoked;
    }
    if !Present(req.searchTerm) || !Present(req.category) {
      return BadRequest(MissingFields), invoked;
    }
    var key := AsString(req.category);
    if key.None? {
      return ServerError(InternalError), invoked;
    }
    var lookup := LookupCategory(key.value);
    if lookup.Undefined? {
      return BadRequest(InvalidCategory), invoked;
    }
    if lookup.Inherited? || AsString(req.searchTerm).None? {
      return ServerError(InternalError), invoked;
    }
    var ps := lookup.scrapers;
    var os: seq<Outcome> := [];
    for i := 0 to |ps|
      invariant os == Outcomes(ps[..i], env)
      invariant invoked == ps[..i]
    {
      var o, _ := RunScraper(ps[i], env.Of(ps[i]));
      os := os + [o];
      invoked := invoked + [ps[i]];
    }
    assert ps[..|ps|] == ps;
    var all := MergeSettled(os);
    if |all| == 0 {
      return NotFound(NothingFound), invoked;
    }
    resp := Ok(Rank(all));
  }

  /** A missing or falsy search term or category is a 400 before any adapter runs. */
  lemma MissingFieldIsBadRequest(term: JsonField, category: JsonField, env: Sessions)
    requires !Present(term) || !Present(category)
    ensures Respond(Body(term, category), env) == BadRequest(MissingFields)
    ensures Invoked(Body(term, category)) == []
  {
  }

  /** A category that is neither a table entry nor an inherited member is a
      400 before any adapter runs. */
  lemma UnknownCategoryIsBadRequest(term: JsonField, category: JsonField, env: Sessions)
    requires Present(term) && Present(category)
    requires AsString(category).Some?
    requires AsString(category).value !in {"products", "grocery"} && AsString(category).value !in InheritedKeys
    ensures Respond(Body(term, category), env) == BadRequest(InvalidCategory)
    ensures Invoked(Body(term, category)) == []
  {
  }

  /** A category naming a member of Object.prototype passes the lookup test
      and then fails on `map`: a 500. */
  lemma InheritedCategoryIsServerError(term: JsonField, env: Sessions)
    requires Present(term)
    ensures Respond(Body(term, Str("constructor")), env) == ServerError(InternalError)
  {
  }

  /** A category that cannot be converted to a property key throws at the
      lookup: a 500 before any adapter runs. */
  lemma UnconvertibleCategoryIsServerError(term: JsonField, category: JsonField, env: Sessions)
    requires Present(term) && Present(category) && AsString(category).None?
    ensures Respond(Body(term, category), env) == ServerError(InternalError)
    ensures Invoked(Body(term, category)) == []
  {
  }

  /** A search term that cannot be converted to a string throws in the log
      line once the category is found: a 500 before any adapter runs, even
      for a valid category. */
  lemma UnconvertibleTermIsServerError(truthy: bool, category: JsonField, env: Sessions)
    requires truthy && Present(category) && AsString(category).Some?
    requires LookupCategory(AsString(category).value).Table?
    ensures Respond(Body(Other(truthy, None), category), env) == ServerError(InternalError)
    ensures Invoked(Body(Other(truthy, None), category)) == []
  {
  }

  /** The table dispatches products to Amazon then Flipkart, and grocery to
      Swiggy, Blinkit, then Zepto. */
  lemma CategoryDispatch(term: JsonField)
    requires Present(term) && AsString(term).Some?
    ensures Invoked(Body(term, Str("products"))) == [Amazon, Flipkart]
    ensures Invoked(Body(term, Str("grocery"))) == [Swiggy, Blinkit, Zepto]
  {
  }

  /** Once the lookup succeeds the answer is 404 or 200, whatever the adapters
      did: a rejected adapter never turns into an error, and 404 is chosen
      exactly when no adapter brought a listing. */
  lemma ValidRequestSettles(req: Request, env: Sessions)
    requires Invoked(req) != []
    ensures Respond(req, env).NotFound? || Respond(req, env).Ok?
    ensures Respond(req, env).NotFound? <==>
              forall i :: 0 <= i < |Invoked(req)| ==> Contribution(ScrapeOutcome(Invoked(req)[i], env.Of(Invoked(req)[i]))) == []
  {
    var os := Outcomes(Invoked(req), env);
    MergeEmptyIff(os);
  }

  /** Listings were found but none has a finite price: 200 with an empty list,
      not 404, because the 404 test looks at the merge before the ranking. */
  lemma UnpricedListingsAreEmptyOk(req: Request, env: Sessions)
    requires Invoked(req) != []
    requires Merge(Outcomes(Invoked(req), env)) != []
    requires forall l :: l in Merge(Outcomes(Invoked(req), env)) ==> !NormalizePrice(l.price).Finite?
    ensures Respond(req, env) == Ok([])
  {
    RankEmptyWithoutFinitePrice(Merge(Outcomes(Invoked(req), env)));
  }

  /** Every ranked listing in a 200 came, unchanged, from an adapter of the
      requested category, and its price text normalizes to the number it is
      ranked by. */
  lemma OkListingsFromCategory(req: Request, env: Sessions, x: RankedListing)
    requires Respond(req, env).Ok? && x in Respond(req, env).results
    ensures x.listing.platform in Invoked(req)
    ensures NormalizePrice(x.listing.price) == Finite(x.normalizedPrice)
  {
    var all := Merge(Outcomes(Invoked(req), env));
    RankOnlyFinite(all, x);
    MergedFromInvoked(Invoked(req), env, x.listing);
  }
}
