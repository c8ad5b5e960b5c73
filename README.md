# pricepal search pipeline in Dafny

This project models the price-comparison search of pricepal. A POST to
`/api/search` carries a search term and a category ("products" or "grocery").
The route looks the category up in a fixed table of retailer adapters (Amazon,
Flipkart, Swiggy Instamart, Blinkit, Zepto) and runs the category's adapters. It keeps the
listings of every adapter that fulfilled and answers 404 when there are none.
Otherwise it turns each price text into a number, drops listings whose number
is not finite, sorts the rest cheapest first with a stable sort, and returns
the first five.

Each adapter drives a headless browser. Here the browser is an oracle (module
`Browser`): it says whether launching and loading succeeded, which selector
waits resolved, what the evaluated page holds, and whether closing the browser
throws. Inside the page, each adapter walks candidate elements and stops once
it holds ten listings. Flipkart and Amazon fill fields through ordered
selector chains (the first node that passes wins); Zepto, Blinkit and Swiggy
read each field with a single selector. Every adapter requires some fields
before pushing a listing and stamps a fixed platform tag. A launched browser
is always closed. Every failure ends in `[]` except one: when closing the
browser throws, that error replaces the result and the adapter rejects.

Modules, one per file:
- `Types`: the listing record and the platform tag.
- `Text`: String.prototype trim, startsWith and includes.
- `Numbers`: parseFloat on exact rationals.
- `Browser`: the session oracle and the `finally` semantics.
- `Chains`: the selector fallback chain, the ten-listing loop.
- `Flipkart`, `Amazon`, `Zepto`, `Blinkit`, `Swiggy`: one adapter each.
- `Ranking`: normalizePrice and the filter/sort/slice chain.
- `Route`: validation, lookup, merge, 404 rule and the POST handler.

Where the code and its declared types disagree, or where the code does
something its authors evidently did not mean, the model follows the code:
- `image` is optional in `Types.Listing`. lib/types.ts declares it required,
  but Flipkart omits it when the image's src is empty, and Amazon omits it
  when there is no image node.
- The price pattern in normalizePrice removes U+00E2, U+201A, U+00B9 and the
  comma. That is the rupee sign's UTF-8 bytes misread as Windows-1252, not
  the rupee sign U+20B9 itself. So "₹1,299" becomes "₹1299" and parses to
  NaN, and the listing is dropped. A merged list priced only with the
  rupee sign ranks to `[]` (`Ranking.RupeePricesRankNothing`), and the 200
  still goes out with an empty list (`Route.UnpricedListingsAreEmptyOk`).
- `scrapers[category]` reads a plain object. A category such as
  "constructor" or "toString" finds a member inherited from
  Object.prototype, passes the falsiness test, and fails on `.map`, which
  gives a 500 and not a 400.
- A JSON object whose `toString` member is not a function cannot be
  converted to a string. As the category it throws at the lookup; as the
  search term it throws in the log line once the category is found. Both
  give a 500 before any adapter runs.

## Model

| member | source | states |
|---|---|---|
| Types.PlatformName | lib/types.ts:8 | the tag's wire string is one of the five platform names |
| Types.ParsePlatform | lib/types.ts:8 | a string is a tag exactly when it is one of the five names, and it reads back to that name |
| Types.PlatformRoundTrip | lib/types.ts:8 | every tag survives printing and reading back, so the five tags are distinct |
| Text.TrimStart | lib/scrapers/flipkart.ts:75-76 | the result is the suffix after the leading white space, and it does not start with white space |
| Text.TrimEnd | lib/scrapers/flipkart.ts:75-76 | the result is the prefix before the trailing white space, and it does not end with white space |
| Text.StartsWith | lib/scrapers/blinkit.ts:64 | a text starts with a prefix exactly when it is that prefix followed by the rest of the text; every text starts with the empty prefix |
| Text.Trim | lib/scrapers/flipkart.ts:75-76 | trim never lengthens its input and leaves no white space at either end |
| Text.TrimIsInnerSlice | lib/scrapers/flipkart.ts:75-76 | trim returns a contiguous slice with only white space cut at either end and none left at its ends |
| Text.TrimEmptyIffBlank | lib/scrapers/flipkart.ts:75 | the trimmed text is empty exactly when the text is all white space (the truthiness test of the chains) |
| Text.TrimIdempotent | lib/scrapers/flipkart.ts:76 | trimming twice equals trimming once |
| Text.Contains | lib/scrapers/amazon.ts:115 | the empty pattern is always included, and an included pattern is no longer than the text |
| Text.ContainsIffOccurs | lib/scrapers/amazon.ts:115 | includes holds exactly when the pattern occurs at some offset |
| Numbers.DigitRun | app/api/search/route.ts:24 | the leading digit run is all digits and is followed by a non-digit or the end |
| Numbers.ParseFloat | app/api/search/route.ts:24 | a finite result always comes from some digit of the text |
| Numbers.ParseFloatWithoutNumberIsNaN | app/api/search/route.ts:24 | when what follows the white space and the optional sign starts with neither `Infinity`, a digit, nor '.' and a digit ("-", "+.", "-x", ".e5"), parseFloat is NaN |
| Numbers.ParseFloatOfNonNumeric | app/api/search/route.ts:24 | when the first non-space character cannot start a number, parseFloat is NaN |
| Numbers.DigitsOfNat | app/api/search/route.ts:24 | the decimal digits of a natural number evaluate back to it |
| Numbers.DigitsValueAppend | app/api/search/route.ts:24 | the value of concatenated digit strings is place-value composition |
| Numbers.ParseFloatOfDigits | app/api/search/route.ts:24 | digits followed by a non-numeric tail parse to the digits' value (the longest numeric prefix) |
| Numbers.ParseFloatOfNat | app/api/search/route.ts:24 | parseFloat inverts the decimal printing of a natural number |
| Numbers.ParseFloatOfFixedPoint | app/api/search/route.ts:24 | `whole.fraction` parses to whole + fraction / 10^digits exactly |
| Numbers.ParseFloatSkipsSpace | app/api/search/route.ts:24 | leading white space does not change the value |
| Numbers.ParseFloatOfDecimalPrefix | app/api/search/route.ts:24 | `whole.fraction` followed by text that cannot extend the literal (a second '.', a letter other than e, the end) parses to the exact fixed-point value |
| Numbers.ParseFloatOfBareFraction | app/api/search/route.ts:24 | `.fraction` with no whole digits, followed by text that cannot extend it, parses to fraction / 10^digits |
| Numbers.ParseFloatPositive | app/api/search/route.ts:24 | a leading plus does not change the value |
| Numbers.ExponentOfDigits | app/api/search/route.ts:24 | an exponent part `e` and digits, followed by a non-digit, is worth the value of its digits |
| Numbers.ExponentOfSignedDigits | app/api/search/route.ts:24 | an exponent part `e`, a sign and digits, followed by a non-digit, is worth the value of its digits, negated for '-' |
| Numbers.ParseFloatOfScientific | app/api/search/route.ts:24 | digits, `e` and exponent digits, followed by a tail that cannot extend the literal, parse to digits * 10^exponent exactly |
| Numbers.ParseFloatOfNegativeExponent | app/api/search/route.ts:24 | digits, `e-` and exponent digits, followed by a tail that cannot extend the literal, parse to digits / 10^exponent exactly |
| Numbers.ParseFloatNegative | app/api/search/route.ts:24 | a leading minus negates the unsigned value |
| Browser.Settle | lib/scrapers/flipkart.ts:126-133 | the adapter rejects exactly when the browser was launched and closing it throws; otherwise it fulfills with what try/catch returned |
| Chains.FirstIndex | lib/scrapers/flipkart.ts:42-55 | the index found passes the test and no earlier entry does; None means no entry passes |
| Chains.FirstIndexIs | lib/scrapers/flipkart.ts:42-55 | an entry that passes, with none before it passing, is the one found |
| Chains.FindFirst | lib/scrapers/flipkart.ts:42-55 | the for/break loop finds the first passing entry and tries no entry after it |
| Chains.FirstMatch | lib/scrapers/flipkart.ts:72-79 | a field chain yields the node of the first selector, in order, that is present and passes the test; none when no selector does |
| Chains.MatchFirst | lib/scrapers/flipkart.ts:73-79 | the chain's loop computes that node |
| Chains.Kept | lib/scrapers/flipkart.ts:66-119 | the per-element listings are no more than the elements, and each comes from one of them |
| Chains.Capped | lib/scrapers/flipkart.ts:67 | at most ten listings, always a prefix, and all of them when fewer than ten |
| Chains.CappedStep | lib/scrapers/flipkart.ts:66-67 | an element's listing is appended only while fewer than ten are held |
| Chains.Collect | lib/scrapers/zepto.ts:59-88 | the forEach loop returns the first ten listings the elements yield, in document order |
| Chains.KeptAll | lib/scrapers/flipkart.ts:113-115 | whatever every pushed listing satisfies, every returned listing satisfies |
| Flipkart.ImageOf | lib/scrapers/flipkart.ts:90-93 | the image is kept exactly when the image node exists with a non-empty src |
| Flipkart.RatingOf | lib/scrapers/flipkart.ts:104-111 | the rating is the trimmed text of the first rating selector whose untrimmed text is non-empty |
| Flipkart.FlipkartItem | lib/scrapers/flipkart.ts:69-118 | a listing is pushed exactly when title, price and a truthy resolved link are found; it is tagged Flipkart, with the trimmed first-match title and price, and a link resolved against https://www.flipkart.com |
| Flipkart.ExtractFlipkartItem | lib/scrapers/flipkart.ts:71-118 | the per-element body, setting fields chain by chain and abandoning the element when the URL constructor throws, computes that listing |
| Flipkart.FlipkartResults | lib/scrapers/flipkart.ts:31-124 | at most ten listings, each tagged Flipkart with non-empty title, price and link; non-empty only when the session loaded and a container selector was adoptable |
| Flipkart.ScrapeFlipkart | lib/scrapers/flipkart.ts:4-134 | the browser is closed exactly when launched, and the outcome is the settled results |
| Flipkart.FlipkartUsesFirstAdoptable | lib/scrapers/flipkart.ts:42-64 | the elements read are those of the first selector whose wait resolved with at least one element |
| Flipkart.FlipkartNoContainer | lib/scrapers/flipkart.ts:57-60 | with no adoptable container selector the result is [] |
| Flipkart.FlipkartBlankRating | lib/scrapers/flipkart.ts:104-111 | a rating node with only white space yields the empty rating |
| Amazon.ImageOf | lib/scrapers/amazon.ts:107-110 | an image node is enough; its src is kept even when empty |
| Amazon.RatingOf | lib/scrapers/amazon.ts:120-123 | the rating is the trimmed, unparsed text of the rating node when that text is non-empty |
| Amazon.AmazonItem | lib/scrapers/amazon.ts:81-130 | a listing is pushed exactly when title and price are found and the one link anchor has a non-empty href without the script marker that resolves against the page URL; it is tagged Amazon |
| Amazon.ExtractAmazonItem | lib/scrapers/amazon.ts:83-130 | the per-element body computes that listing |
| Amazon.AmazonResults | lib/scrapers/amazon.ts:44-134 | at most ten listings, each tagged Amazon with non-empty title, price and link; non-empty only when a container selector was adoptable |
| Amazon.ScrapeAmazon | lib/scrapers/amazon.ts:4-147 | the browser is closed exactly when launched, and the outcome is the settled results |
| Amazon.AmazonUsesFirstAdoptable | lib/scrapers/amazon.ts:54-76 | the elements read are those of the first of the four selectors that resolved with at least one element |
| Amazon.AmazonNoContainer | lib/scrapers/amazon.ts:69-72 | with no adoptable container selector the result is [] |
| Amazon.AmazonScriptLinkSkipped | lib/scrapers/amazon.ts:112-118 | an anchor whose href contains the script marker anywhere never yields a listing |
| Zepto.ZeptoItem | lib/scrapers/zepto.ts:62-84 | a listing is pushed exactly when the title, price and image nodes exist; link is the page URL, quantity is present exactly when its node is |
| Zepto.ZeptoResults | lib/scrapers/zepto.ts:37-90 | at most ten listings; non-empty only when the container wait resolved and the container exists at evaluation, and then every listing is tagged Zepto and linked to the page URL |
| Zepto.ScrapeZepto | lib/scrapers/zepto.ts:4-103 | the browser is closed exactly when launched, and the outcome is the settled results |
| Zepto.ZeptoLinksAgree | lib/scrapers/zepto.ts:68 | all listings of one run have the same link, the page URL |
| Zepto.ZeptoBlankTitleEmitted | lib/scrapers/zepto.ts:70-71 | a blank title node still yields a listing, with the empty title |
| Blinkit.BlinkitLink | lib/scrapers/blinkit.ts:62-66 | an href starting with "http" is kept as is; any other is resolved against https://blinkit.com |
| Blinkit.ResolveBlinkitLink | lib/scrapers/blinkit.ts:62-66 | the reassignment of `link` computes that link |
| Blinkit.BlinkitItem | lib/scrapers/blinkit.ts:50-79 | a listing is pushed exactly when the title, price, quantity and image nodes and an enclosing anchor exist and the link resolves; it is tagged Blinkit with the trimmed title, price and quantity, the image's src and the kept or resolved link |
| Blinkit.BlinkitResults | lib/scrapers/blinkit.ts:26-82 | at most ten listings, each tagged Blinkit with a quantity; non-empty only when the container wait resolved and the container exists |
| Blinkit.ScrapeBlinkit | lib/scrapers/blinkit.ts:4-95 | the browser is closed exactly when launched, and the outcome is the settled results |
| Blinkit.BlinkitAbsoluteLinkKept | lib/scrapers/blinkit.ts:64-66 | an absolute href is emitted unchanged |
| Blinkit.BlinkitNeedsAnchor | lib/scrapers/blinkit.ts:55-57 | an element without an enclosing anchor is never emitted |
| Swiggy.SwiggyLink | lib/scrapers/swiggy.ts:48-49 | the link is the anchor's href resolved against https://www.swiggy.com, or the page URL when there is no anchor |
| Swiggy.QuantityOf | lib/scrapers/swiggy.ts:54 | the quantity is the aria-label of the quantity node, or absent |
| Swiggy.SwiggyItem | lib/scrapers/swiggy.ts:42-68 | a listing is pushed exactly when the link did not throw and the title, price and image nodes exist; it is tagged Swiggy |
| Swiggy.SwiggyResults | lib/scrapers/swiggy.ts:26-71 | at most ten listings, each tagged Swiggy; non-empty only when the container wait resolved |
| Swiggy.ScrapeSwiggy | lib/scrapers/swiggy.ts:4-84 | the browser is closed exactly when launched, and the outcome is the settled results |
| Swiggy.SwiggyLinkFailureSkips | lib/scrapers/swiggy.ts:48-51 | a link that throws skips the element even when every node is present |
| Ranking.StripPriceMarks | app/api/search/route.ts:24 | the global replace never lengthens the price |
| Ranking.StripRemovesAll | app/api/search/route.ts:24 | no â, ‚, ¹ or comma is left after the global replace |
| Ranking.StripKeeps | app/api/search/route.ts:24 | the stripped price keeps exactly the characters that are not â, ‚, ¹ or comma |
| Ranking.StripAppend | app/api/search/route.ts:24 | the global replace distributes over concatenation |
| Ranking.NormalizePrice | app/api/search/route.ts:22-25 | the empty price is +Infinity, and a finite price always has a digit in its text |
| Ranking.StripOnlyMarks | app/api/search/route.ts:24 | text made only of stripped characters vanishes |
| Ranking.RupeePriceIsNaN | app/api/search/route.ts:22-25 | a price that starts with the rupee sign normalizes to NaN |
| Ranking.MisreadRupeeStripped | app/api/search/route.ts:24 | the misread three-character rupee prefix is removed before parsing |
| Ranking.GroupedDigitsPrice | app/api/search/route.ts:22-25 | digits with grouping commas normalize to the value of the digits |
| Ranking.GroupedPriceExample | app/api/search/route.ts:22-25 | "1,299" normalizes to 1299 and "₹1,299" to NaN |
| Ranking.DecimalPrice | app/api/search/route.ts:22-25 | a price whose stripped text is `whole.fraction` normalizes to that decimal exactly |
| Ranking.Priced | app/api/search/route.ts:60-65 | the kept entries are unchanged merged listings with finite normalized price, and every such listing is kept |
| Ranking.PricedAppend | app/api/search/route.ts:60-65 | the map and filter distribute over concatenation, so the merged order is kept |
| Ranking.PricedSingle | app/api/search/route.ts:60-65 | one listing is kept, with its normalized price, exactly when that price is finite |
| Ranking.PricedGroups | app/api/search/route.ts:60-65 | at every price, the kept entries are the merged listings of that price, in merged order and with every repetition |
| Ranking.InsertByPrice | app/api/search/route.ts:66 | insertion adds exactly the one entry |
| Ranking.InsertSorted | app/api/search/route.ts:66 | insertion into a price-sorted sequence keeps it sorted |
| Ranking.SortByPrice | app/api/search/route.ts:66 | the sort is a permutation and is sorted by price |
| Ranking.WithPriceInsert | app/api/search/route.ts:66 | inserting an entry places it first among the entries of its price |
| Ranking.SortStable | app/api/search/route.ts:66 | entries of equal price keep the order the filter passes them in |
| Ranking.SortedUnique | app/api/search/route.ts:66 | two sorted sequences with the same order inside every price group are equal |
| Ranking.StableSortUnique | app/api/search/route.ts:66 | the sort is the only sorted arrangement that keeps every equal-price group in merged order |
| Ranking.Rank | app/api/search/route.ts:60-68 | at most five, a prefix of the sorted filtered list, all of it when shorter than five, and sorted |
| Ranking.RankOnlyFinite | app/api/search/route.ts:60-68 | every ranked entry is a merged listing whose price normalizes to the finite number it carries |
| Ranking.RankIsCheapest | app/api/search/route.ts:66-68 | every priced listing left out costs at least as much as every one returned |
| Ranking.RankKeepsMergedOrder | app/api/search/route.ts:60-68 | the ranked listings of each price are the first ones of that price in the merged list, in merged order |
| Ranking.EmptyPriceNeverRanked | app/api/search/route.ts:22-25 | a listing with an empty price is never ranked |
| Ranking.RankEmptyWithoutFinitePrice | app/api/search/route.ts:65 | with no finite price nothing is ranked |
| Ranking.RupeePricesRankNothing | app/api/search/route.ts:22-25 | listings priced with the rupee sign all rank to nothing |
| Route.AsString | app/api/search/route.ts:35-40 | a string converts to itself; only a non-string JSON value can make the conversion throw |
| Route.Present | app/api/search/route.ts:31 | a missing field and the empty string are falsy; every other string is truthy |
| Route.LookupCategory | app/api/search/route.ts:15-18 | only products and grocery have adapters; the Object.prototype member names are inherited; every table entry is non-empty |
| Route.Response.Status | app/api/search/route.ts:32 | every response has status 200, 400, 404 or 500 |
| Route.ScrapeOutcome | app/api/search/route.ts:42-44 | an adapter rejects exactly when closing a launched browser throws; a fulfilled one carries at most ten listings, all with its own tag |
| Route.RunScraper | app/api/search/route.ts:43 | calling a table entry runs that platform's adapter |
| Route.Outcomes | app/api/search/route.ts:42-44 | one settled outcome per adapter, in table order |
| Route.MergeSettled | app/api/search/route.ts:46-53 | the forEach over settled results computes the merge |
| Route.Merge | app/api/search/route.ts:46-53 | every merged listing comes from a fulfilled outcome, and every listing of a fulfilled outcome is merged |
| Route.MergeAppend | app/api/search/route.ts:46-53 | the merge is concatenation in table order |
| Route.MergeSkipsRejected | app/api/search/route.ts:47-52 | a rejected outcome contributes nothing and changes nothing around it |
| Route.MergeEmptyIff | app/api/search/route.ts:46-55 | the merge is empty exactly when no fulfilled outcome brought a listing |
| Route.MergedFromInvoked | app/api/search/route.ts:42-53 | every merged listing is tagged with a platform whose adapter ran |
| Route.Respond | app/api/search/route.ts:27-77 | a 500 carries the generic error and a 400 comes before any adapter runs; a 404 comes after the adapters ran and merged nothing; a 200 comes from a non-empty merge and carries exactly the ranking of that merge, at most five listings |
| Route.Post | app/api/search/route.ts:27-77 | the handler's early returns, adapter loop, merge, 404 test and ranking compute that response, and the adapters run are exactly the category's |
| Route.MissingFieldIsBadRequest | app/api/search/route.ts:31-33 | a falsy search term or category is a 400 before any adapter runs |
| Route.UnknownCategoryIsBadRequest | app/api/search/route.ts:35-38 | an unknown category is a 400 before any adapter runs |
| Route.InheritedCategoryIsServerError | app/api/search/route.ts:35-44 | the category "constructor" passes the lookup and ends in a 500 |
| Route.UnconvertibleCategoryIsServerError | app/api/search/route.ts:35 | a category whose conversion to a property key throws gives a 500 before any adapter runs |
| Route.UnconvertibleTermIsServerError | app/api/search/route.ts:40 | a search term whose conversion to a string throws gives a 500 before any adapter runs, even for a valid category |
| Route.CategoryDispatch | app/api/search/route.ts:15-18 | products runs Amazon then Flipkart; grocery runs Swiggy, Blinkit, then Zepto |
| Route.ValidRequestSettles | app/api/search/route.ts:42-58 | once the lookup succeeds the answer is 404 or 200, and 404 exactly when no adapter brought a listing |
| Route.UnpricedListingsAreEmptyOk | app/api/search/route.ts:55-71 | listings found but none finitely priced give 200 with an empty list |
| Route.OkListingsFromCategory | app/api/search/route.ts:60-71 | every listing in a 200 is tagged with a platform of the requested category and carries the normalized value of its own price |

## Left out

- Browser work: puppeteer launch options, viewport, user agent, webdriver masking, cookies, navigation, page.title(), fixed sleeps and wait timeouts. They are folded into the session's `launched`, `loaded` and per-selector wait outcomes.
- The search term: the adapters use it only to build the search URL, which the model does not see.
- Logging (console.log and console.error), including the page HTML that Zepto and Blinkit log when the container wait fails.
- Concurrency of Promise.allSettled: the adapters run one after another in table order. Only settled outcomes matter to the merge.
- URL resolution: `new URL(href, base).href` is an uninterpreted function of the session that may throw. Only the string tests around it are modelled.
- JSON body parsing and HTTP transport: `Route.Request` is the body after parsing and destructuring. Any other JSON value is seen only through its truthiness and the string it converts to, or the fact that the conversion throws.
- A null textContent: element nodes always have text, so the `?? 'No title'` and `?? 'No price'` fallbacks cannot be reached and are not modelled.
- The `GroceryProduct` type that lib/scrapers/swiggy.ts imports does not exist in lib/types.ts. The Swiggy adapter produces the one `Types.Listing` record.
- Numbers.ParseFloat: values are exact rationals, not IEEE-754 doubles. Rounding of long digit strings is not modelled. Overflow is not modelled either: "1e400" is finite here but Infinity in JavaScript, so that listing would be filtered out there and kept here.
- Ranking.SortByPrice: the comparator subtracts doubles. With exact prices, two prices that round to the same double are ordered by value here, not kept in merged order.
- UI files (pages, components and the client-side price formatting) are not part of this model.
