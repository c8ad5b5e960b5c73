/** The listing record every adapter emits and the route ranks (lib/types.ts). */
module Types {

  datatype Option<+T> = None | Some(value: T)

  /** The provenance tag: exactly one of the five retailers. */
  datatype Platform = Amazon | Flipkart | Swiggy | Zepto | Blinkit

  /** One extracted offer.  `price` stays the raw text shown on the page; the
      numeric value used for ranking lives beside it in a RankedListing and is
      never written back here.  `image` is optional because two adapters emit
      listings without one, whatever the declared type says. */
  datatype Listing = Listing(
    title: string,
    price: string,
    image: Option<string>,
    link: string,
    quantity: Option<string>,
    rating: Option<string>,
    platform: Platform)

  /** JavaScript truthiness of an optional string field. */
  predicate Truthy(f: Option<string>) {
    f.Some? && f.value != ""
  }

  /** The platform tag as the string the wire format carries. */
  function PlatformName(p: Platform): (name: string)
    ensures name in {"Amazon", "Flipkart", "Swiggy", "Zepto", "Blinkit"}
  {
    match p
    case Amazon => "Amazon"
    case Flipkart => "Flipkart"
    case Swiggy => "Swiggy"
    case Zepto => "Zepto"
    case Blinkit => "Blinkit"
  }

  /** Reading a tag back from its wire string: only the five names are tags. */
  function ParsePlatform(name: string): (p: Option<Platform>)
    ensures p.Some? <==> name in {"Amazon", "Flipkart", "Swiggy", "Zepto", "Blinkit"}
    ensures p.Some? ==> PlatformName(p.value) == name
  {
    if name == "Amazon" then Some(Amazon)
    else if name == "Flipkart" then Some(Flipkart)
    else if name == "Swiggy" then Some(Swiggy)
    else if name == "Zepto" then Some(Zepto)
    else if name == "Blinkit" then Some(Blinkit)
    else None
  }

  /** The tag survives a round trip through its wire string, so the five tags are distinct. */
  lemma PlatformRoundTrip(p: Platform)
    ensures ParsePlatform(PlatformName(p)) == Some(p)
  {
  }
}
