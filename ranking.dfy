/** The ranking half of the search route (app/api/search/route.ts): each
    merged listing's price text becomes a number, listings whose number is
    not finite are dropped, the rest are sorted cheapest first by a stable
    sort, and the first five are kept. */
module Ranking {
  import opened Types
  import opened Text
  import opened Numbers

  /** The characters the route's price pattern removes: U+00E2, U+201A and
      U+00B9 (the three characters the UTF-8 bytes of the rupee sign show
      as when read as Windows-1252) and the comma.  The rupee sign U+20B9
      itself is not among them. */
  predicate IsStrippedChar(c: char) {
    c == '\U{00E2}' || c == '\U{201A}' || c == '\U{00B9}' || c == ','
  }

  /** The price with every stripped character removed (a global replace). */
  function StripPriceMarks(s: string): (r: string)
    ensures |r| <= |s|
  {
    if s == [] then []
    else if IsStrippedChar(s[0]) then StripPriceMarks(s[1..])
    else [s[0]] + StripPriceMarks(s[1..])
  }

  /** No stripped character is left: the replace is global. */
  lemma {:induction false} StripRemovesAll(s: string)
    ensures forall i :: 0 <= i < |StripPriceMarks(s)| ==> !IsStrippedChar(StripPriceMarks(s)[i])
  {
    if s != [] {
      StripRemovesAll(s[1..]);
    }
  }

  /** The stripped text keeps exactly the characters of the price that are
      not stripped. */
  lemma {:induction false} StripKeeps(s: string, c: char)
    ensures c in StripPriceMarks(s) <==> c in s && !IsStrippedChar(c)
  {
    if s != [] {
      StripKeeps(s[1..], c);
      assert c in s <==> c == s[0] || c in s[1..] by {
        assert s == [s[0]] + s[1..];
      }
    }
  }

  /** Removal works character by character, so it distributes over concatenation. */
  lemma {:induction false} StripAppend(a: string, b: string)
    ensures StripPriceMarks(a + b) == StripPriceMarks(a) + StripPriceMarks(b)
  {
    if a == [] {
      assert a + b == b;
    } else {
      assert (a + b)[1..] == a[1..] + b;
      StripAppend(a[1..], b);
    }
  }

  /** normalizePrice: the empty price is +Infinity; any other price is
      parseFloat of the text with the stripped characters removed. */
  function NormalizePrice(price: string): (r: Num)
    ensures price == "" ==> r == Infinite(false)
    ensures r.Finite? ==> exists i :: 0 <= i < |price| && IsDigit(price[i])
  {
    if price == "" then Infinite(false)
    else
      StripKeepsDigits(price);
      ParseFloat(StripPriceMarks(price))
  }

  /** A digit of the stripped text is a digit of the price. */
  lemma StripKeepsDigits(s: string)
    ensures (exists i :: 0 <= i < |StripPriceMarks(s)| && IsDigit(StripPriceMarks(s)[i]))
            ==> exists i :: 0 <= i < |s| && IsDigit(s[i])
  {
    var r := StripPriceMarks(s);
    if i :| 0 <= i < |r| && IsDigit(r[i]) {
      StripKeeps(s, r[i]);
      var j :| 0 <= j < |s| && s[j] == r[i];
    }
  }

  /** The three-character form the rupee sign takes in the route's pattern. */
  const MisreadRupee: string := "\U{00E2}\U{201A}\U{00B9}"

  /** A price written with the rupee sign itself parses to NaN: the sign
      survives the replace and no number can start with it, so the listing
      is later dropped from the ranking. */
  lemma RupeePriceIsNaN(t: string)
    ensures NormalizePrice("\U{20B9}" + t) == NaN
  {
    StripAppend("\U{20B9}", t);
    var u := StripPriceMarks("\U{20B9}" + t);
    assert u == "\U{20B9}" + StripPriceMarks(t);
    assert TrimStart(u) == u;
    ParseFloatOfNonNumeric(u);
  }

  /** The misread rupee prefix and grouping commas are removed, so
      "â‚¹1,299" is priced like "1299". */
  lemma MisreadRupeeStripped(t: string)
    requires t != ""
    ensures NormalizePrice(MisreadRupee + t) == NormalizePrice(t)
  {
    assert MisreadRupee == ['\U{00E2}', '\U{201A}', '\U{00B9}'];
    StripOnlyMarks(MisreadRupee);
    StripAppend(MisreadRupee, t);
    assert StripPriceMarks(MisreadRupee + t) == StripPriceMarks(t);
  }

  /** Text made only of stripped characters vanishes. */
  lemma {:induction false} StripOnlyMarks(s: string)
    requires forall i :: 0 <= i < |s| ==> IsStrippedChar(s[i])
    ensures StripPriceMarks(s) == []
  {
    if s != [] {
      StripOnlyMarks(s[1..]);
    }
  }

  /** Removing the commas from digits and commas leaves only digits. */
  lemma {:induction false} StripGroupedDigits(s: string)
    requires forall i :: 0 <= i < |s| ==> IsDigit(s[i]) || s[i] == ','
    ensures AllDigits(StripPriceMarks(s))
  {
    if s != [] {
      StripGroupedDigits(s[1..]);
    }
  }

  /** Digits with grouping commas parse to the value of the digits alone. */
  lemma GroupedDigitsPrice(s: string)
    requires forall i :: 0 <= i < |s| ==> IsDigit(s[i]) || s[i] == ','
    requires exists i :: 0 <= i < |s| && IsDigit(s[i])
    ensures AllDigits(StripPriceMarks(s))
    ensures NormalizePrice(s) == Finite(DigitsValue(StripPriceMarks(s)) as real)
  {
    var ds := StripPriceMarks(s);
    var i :| 0 <= i < |s| && IsDigit(s[i]);
    StripKeeps(s, s[i]);
    StripGroupedDigits(s);
    DigitsPrice(s, ds);
  }

  /** A non-empty price whose stripped text is all digits is priced at their value. */
  lemma DigitsPrice(s: string, ds: string)
    requires s != "" && ds == StripPriceMarks(s) && ds != [] && AllDigits(ds)
    ensures NormalizePrice(s) == Finite(DigitsValue(ds) as real)
  {
    ParseFloatOfDigits(ds, []);
    assert ds + [] == ds;
  }

  /** "1,299" is priced at 1299, while "\U{20B9}1,299" is dropped. */
  lemma GroupedPriceExample()
    ensures NormalizePrice("1,299") == Finite(1299.0)
    ensures NormalizePrice("\U{20B9}1,299") == NaN
  {
    assert IsDigit("1,299"[0]);
    GroupedDigitsPrice("1,299");
    StripExample();
    DigitsExample();
    RupeePriceIsNaN("1,299");
  }

  lemma StripExample()
    ensures StripPriceMarks("1,299") == "1299"
  {
    assert "1,299"[1..] == ",299" && ",299"[1..] == "299" && "299"[1..] == "99" && "99"[1..] == "9" && "9"[1..] == "";
    assert StripPriceMarks("9") == "9";
    assert StripPriceMarks("99") == "99";
    assert StripPriceMarks("299") == "299";
  }

  lemma DigitsExample()
    ensures AllDigits("1299") && DigitsValue("1299") == 1299
  {
    assert "1299"[..3] == "129" && "129"[..2] == "12" && "12"[..1] == "1" && "1"[..0] == "";
  }

  /** A price whose stripped text is `whole.fraction` is that decimal, exactly. */
  lemma DecimalPrice(s: string, whole: string, fraction: string)
    requires whole != [] && AllDigits(whole) && AllDigits(fraction)
    requires StripPriceMarks(s) == whole + "." + fraction
    ensures NormalizePrice(s) == Finite(FixedPoint(DigitsValue(whole), DigitsValue(fraction), |fraction|))
  {
    ParseFloatOfFixedPoint(whole, fraction);
  }

  /** A listing together with its normalized price: every field of the
      listing as merged, plus the number used for ordering. */
  datatype RankedListing = RankedListing(listing: Listing, normalizedPrice: real)

  /** The map to normalized prices followed by the isFinite filter. */
  function Priced(all: seq<Listing>): (r: seq<RankedListing>)
    ensures |r| <= |all|
    ensures forall x :: x in r ==> x.listing in all && NormalizePrice(x.listing.price) == Finite(x.normalizedPrice)
    ensures forall l :: l in all && NormalizePrice(l.price).Finite? ==>
                          RankedListing(l, NormalizePrice(l.price).value) in r
  {
    if all == [] then []
    else
      var rest := Priced(all[1..]);
      assert forall l :: l in all <==> l == all[0] || l in all[1..];
      match NormalizePrice(all[0].price)
      case Finite(v) => [RankedListing(all[0], v)] + rest
      case _ => rest
  }

  predicate SortedByPrice(rs: seq<RankedListing>) {
    forall i, j :: 0 <= i < j < |rs| ==> rs[i].normalizedPrice <= rs[j].normalizedPrice
  }

  /** Inserts x before the first entry that is not cheaper than it. */
  function InsertByPrice(x: RankedListing, t: seq<RankedListing>): (r: seq<RankedListing>)
    ensures multiset(r) == multiset(t) + multiset{x}
  {
    if t == [] || x.normalizedPrice <= t[0].normalizedPrice then [x] + t
    else
      assert t == [t[0]] + t[1..];
      [t[0]] + InsertByPrice(x, t[1..])
  }

  lemma {:induction false} InsertSorted(x: RankedListing, t: seq<RankedListing>)
    requires SortedByPrice(t)
    ensures SortedByPrice(InsertByPrice(x, t))
  {
    if t != [] && x.normalizedPrice > t[0].normalizedPrice {
      var rest := InsertByPrice(x, t[1..]);
      InsertSorted(x, t[1..]);
      forall k | 0 <= k < |rest| ensures t[0].normalizedPrice <= rest[k].normalizedPrice {
        assert rest[k] in multiset(rest);
        if rest[k] != x {
          assert rest[k] in multiset(t[1..]);
          var j :| 0 <= j < |t[1..]| && t[1..][j] == rest[k];
          assert t[j + 1] == rest[k];
        }
      }
    }
  }

  /** The comparator (a, b) => a.normalizedPrice - b.normalizedPrice under a
      stable sort: cheapest first, equal prices in their incoming order. */
  function SortByPrice(s: seq<RankedListing>): (r: seq<RankedListing>)
    ensures multiset(r) == multiset(s)
    ensures SortedByPrice(r)
  {
    if s == [] then []
    else
      assert s == [s[0]] + s[1..];
      InsertSorted(s[0], SortByPrice(s[1..]));
      InsertByPrice(s[0], SortByPrice(s[1..]))
  }

  /** The entries that have price p, in order. */
  function WithPrice(rs: seq<RankedListing>, p: real): (r: seq<RankedListing>)
    ensures |r| <= |rs|
  {
    if rs == [] then []
    else (if rs[0].normalizedPrice == p then [rs[0]] else []) + WithPrice(rs[1..], p)
  }

  /** The first entry opens the group of its own price. */
  lemma HeadWithPrice(rs: seq<RankedListing>)
    ensures rs != [] ==> WithPrice(rs, rs[0].normalizedPrice) == [rs[0]] + WithPrice(rs[1..], rs[0].normalizedPrice)
  {
  }

  /** Every entry of the group of price p has price p and comes from the sequence. */
  lemma {:induction false} WithPriceFrom(rs: seq<RankedListing>, p: real, x: RankedListing)
    requires x in WithPrice(rs, p)
    ensures x in rs && x.normalizedPrice == p
  {
    if rs[0] != x || rs[0].normalizedPrice != p {
      WithPriceFrom(rs[1..], p, x);
    }
  }

  /** The group of price p in a sequence with a given first entry. */
  lemma WithPriceCons(y: RankedListing, t: seq<RankedListing>, p: real)
    ensures WithPrice([y] + t, p) == (if y.normalizedPrice == p then [y] else []) + WithPrice(t, p)
  {
    assert ([y] + t)[0] == y;
    assert ([y] + t)[1..] == t;
  }

  /** One step of insertion past a cheaper entry y leaves y's group where it was. */
  lemma WithPricePast(x: RankedListing, y: RankedListing, rest: seq<RankedListing>, tail: seq<RankedListing>, p: real)
    requires x.normalizedPrice > y.normalizedPrice
    requires WithPrice(rest, p) == (if x.normalizedPrice == p then [x] else []) + WithPrice(tail, p)
    ensures WithPrice([y] + rest, p) == (if x.normalizedPrice == p then [x] else []) + WithPrice([y] + tail, p)
  {
    WithPriceCons(y, rest, p);
    WithPriceCons(y, tail, p);
  }

  lemma {:induction false} WithPriceInsert(x: RankedListing, t: seq<RankedListing>, p: real)
    ensures WithPrice(InsertByPrice(x, t), p) == (if x.normalizedPrice == p then [x] else []) + WithPrice(t, p)
  {
    if t == [] || x.normalizedPrice <= t[0].normalizedPrice {
      WithPriceCons(x, t, p);
    } else {
      WithPriceInsert(x, t[1..], p);
      WithPricePast(x, t[0], InsertByPrice(x, t[1..]), t[1..], p);
      assert t == [t[0]] + t[1..];
    }
  }

  /** Stability: among listings of equal price the sorted order is the
      incoming order. */
  lemma {:induction false} SortStable(s: seq<RankedListing>, p: real)
    ensures WithPrice(SortByPrice(s), p) == WithPrice(s, p)
  {
    if s != [] {
      WithPriceInsert(s[0], SortByPrice(s[1..]), p);
      SortStable(s[1..], p);
    }
  }

  /** Two price-sorted sequences that agree on the order of every group of
      equal price are the same sequence. */
  lemma {:induction false} SortedUnique(a: seq<RankedListing>, b: seq<RankedListing>)
    requires SortedByPrice(a) && SortedByPrice(b)
    requires forall p :: WithPrice(a, p) == WithPrice(b, p)
    ensures a == b
    decreases |a|
  {
    HeadWithPrice(a);
    HeadWithPrice(b);
    if a != [] && b != [] {
      var m := a[0].normalizedPrice;
      var n := b[0].normalizedPrice;
      assert a[0] in WithPrice(b, m);
      WithPriceFrom(b, m, a[0]);
      assert b[0] in WithPrice(a, n);
      WithPriceFrom(a, n, b[0]);
      assert m == n;
      assert WithPrice(a, m) == [a[0]] + WithPrice(a[1..], m);
      assert WithPrice(b, m) == [b[0]] + WithPrice(b[1..], m);
      forall p ensures WithPrice(a[1..], p) == WithPrice(b[1..], p) {
        if p == m {
          assert WithPrice(a, m)[1..] == WithPrice(a[1..], m);
          assert WithPrice(b, m)[1..] == WithPrice(b[1..], m);
        } else {
          assert WithPrice(a, p) == WithPrice(a[1..], p);
          assert WithPrice(b, p) == WithPrice(b[1..], p);
        }
      }
      SortedUnique(a[1..], b[1..]);
      assert a == [a[0]] + a[1..];
      assert b == [b[0]] + b[1..];
    }
  }

  /** The sort is the stable sort: the only price-sorted arrangement that
      keeps every group of equal price in its incoming order. */
  lemma StableSortUnique(s: seq<RankedListing>, t: seq<RankedListing>)
    requires SortedByPrice(t)
    requires forall p :: WithPrice(t, p) == WithPrice(s, p)
    ensures t == SortByPrice(s)
  {
    forall p ensures WithPrice(SortByPrice(s), p) == WithPrice(t, p) {
      SortStable(s, p);
    }
    SortedUnique(SortByPrice(s), t);
  }

  /** How many ranked listings the route returns. */
  const TopK: nat := 5

  /** The ranked result: the first five of the sorted, filtered listings. */
  function Rank(all: seq<Listing>): (r: seq<RankedListing>)
    ensures |r| <= TopK && |r| <= |Priced(all)|
    ensures |r| == TopK || |r| == |Priced(all)|
    ensures r == SortByPrice(Priced(all))[..|r|]
    ensures SortedByPrice(r)
  {
    var sorted := SortByPrice(Priced(all));
    assert |sorted| == |Priced(all)| by {
      assert |multiset(sorted)| == |multiset(Priced(all))|;
    }
    if |sorted| <= TopK then sorted else sorted[..TopK]
  }

  /** Every ranked entry is a merged listing, unchanged, whose price text
      normalizes to the finite number it carries. */
  lemma RankOnlyFinite(all: seq<Listing>, x: RankedListing)
    requires x in Rank(all)
    ensures x.listing in all
    ensures NormalizePrice(x.listing.price) == Finite(x.normalizedPrice)
  {
    var sorted := SortByPrice(Priced(all));
    assert x in sorted;
    assert x in multiset(sorted);
  }

  /** Nothing cheaper is left out: every priced listing not returned costs at
      least as much as every listing returned. */
  lemma RankIsCheapest(all: seq<Listing>, x: RankedListing, y: RankedListing)
    requires x in Rank(all) && y in Priced(all) && y !in Rank(all)
    ensures x.normalizedPrice <= y.normalizedPrice
  {
    var sorted := SortByPrice(Priced(all));
    var r := Rank(all);
    var j := SortKeeps(Priced(all), y);
    var i :| 0 <= i < |r| && r[i] == x;
    PrefixCheapest(sorted, |r|, i, j);
  }

  /** Sorting loses no entry. */
  lemma SortKeeps(s: seq<RankedListing>, y: RankedListing) returns (j: nat)
    requires y in s
    ensures j < |SortByPrice(s)| && SortByPrice(s)[j] == y
  {
    assert y in multiset(s);
    assert y in SortByPrice(s);
    j :| j < |SortByPrice(s)| && SortByPrice(s)[j] == y;
  }

  /** In a price-sorted sequence, an entry of a prefix costs no more than
      any entry past it. */
  lemma PrefixCheapest(sorted: seq<RankedListing>, n: nat, i: nat, j: nat)
    requires SortedByPrice(sorted) && n <= |sorted|
    requires i < n && j < |sorted| && sorted[j] !in sorted[..n]
    ensures sorted[i].normalizedPrice <= sorted[j].normalizedPrice
  {
  }

  /** When no price is finite, nothing is ranked. */
  lemma RankEmptyWithoutFinitePrice(all: seq<Listing>)
    requires forall l :: l in all ==> !NormalizePrice(l.price).Finite?
    ensures Rank(all) == []
  {
  }

  /** Listings whose prices all start with the rupee sign rank to nothing:
      every one of them normalizes to NaN. */
  lemma RupeePricesRankNothing(all: seq<Listing>)
    requires forall l :: l in all ==> l.price != "" && l.price[0] == '\U{20B9}'
    ensures Rank(all) == []
  {
    forall l | l in all ensures !NormalizePrice(l.price).Finite? {
      assert l.price == "\U{20B9}" + l.price[1..];
      RupeePriceIsNaN(l.price[1..]);
    }
    RankEmptyWithoutFinitePrice(all);
  }

  /** The merged listings whose price normalizes to p, in merged order and
      with every repetition: what the map and filter keep at price p. */
  function PricedAt(all: seq<Listing>, p: real): seq<RankedListing> {
    if all == [] then []
    else
      (if NormalizePrice(all[0].price) == Finite(p) then [RankedListing(all[0], p)] else [])
      + PricedAt(all[1..], p)
  }

  /** The map and filter keep every price group in merged order and with
      every repetition. */
  lemma {:induction false} PricedGroups(all: seq<Listing>, p: real)
    ensures WithPrice(Priced(all), p) == PricedAt(all, p)
  {
    if all != [] {
      PricedGroups(all[1..], p);
      var rest := Priced(all[1..]);
      match NormalizePrice(all[0].price)
      case Finite(v) =>
        assert Priced(all) == [RankedListing(all[0], v)] + rest;
        WithPriceCons(RankedListing(all[0], v), rest, p);
      case _ =>
        assert Priced(all) == rest;
    }
  }

  /** The map and filter work listing by listing: they distribute over
      concatenation of the merged list. */
  lemma {:induction false} PricedAppend(a: seq<Listing>, b: seq<Listing>)
    ensures Priced(a + b) == Priced(a) + Priced(b)
  {
    if a == [] {
      assert a + b == b;
    } else {
      assert (a + b)[0] == a[0];
      assert (a + b)[1..] == a[1..] + b;
      PricedAppend(a[1..], b);
    }
  }

  /** A single listing is kept, with its normalized price, exactly when that
      price is finite. */
  lemma PricedSingle(l: Listing)
    ensures NormalizePrice(l.price).Finite? ==> Priced([l]) == [RankedListing(l, NormalizePrice(l.price).value)]
    ensures !NormalizePrice(l.price).Finite? ==> Priced([l]) == []
  {
    assert [l][1..] == [];
  }

  /** Grouping by price distributes over concatenation. */
  lemma {:induction false} WithPriceAppend(a: seq<RankedListing>, b: seq<RankedListing>, p: real)
    ensures WithPrice(a + b, p) == WithPrice(a, p) + WithPrice(b, p)
  {
    if a == [] {
      assert a + b == b;
    } else {
      assert a + b == [a[0]] + (a[1..] + b);
      assert a == [a[0]] + a[1..];
      WithPriceCons(a[0], a[1..] + b, p);
      WithPriceCons(a[0], a[1..], p);
      WithPriceAppend(a[1..], b, p);
    }
  }

  /** Ties in the answer keep the merged order: the ranked listings of price
      p are the first ones of price p in the merged list. */
  lemma RankKeepsMergedOrder(all: seq<Listing>, p: real)
    ensures |WithPrice(Rank(all), p)| <= |PricedAt(all, p)|
    ensures WithPrice(Rank(all), p) == PricedAt(all, p)[..|WithPrice(Rank(all), p)|]
  {
    var sorted := SortByPrice(Priced(all));
    var r := Rank(all);
    assert sorted == r + sorted[|r|..];
    WithPriceAppend(r, sorted[|r|..], p);
    SortStable(Priced(all), p);
    PricedGroups(all, p);
  }

  /** A listing without a price is never ranked: its price normalizes to
      Infinity. */
  lemma EmptyPriceNeverRanked(all: seq<Listing>, x: RankedListing)
    requires x in Rank(all)
    ensures x.listing.price != ""
  {
    RankOnlyFinite(all, x);
  }
}
