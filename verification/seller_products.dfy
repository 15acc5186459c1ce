/**
 `OzonProductParser` (parser/seller_products_parser.py): collecting a
 seller's products by extracting the product cards on the page and scrolling
 until 150 products are held or three attempts in a row bring nothing new.
 Each scroll's outcome and the cards then on the page are passed in.
 */
module SellerProducts {
  import opened Text
  import opened ProductExtractor

  const TargetCount: nat := 150
  const MaxRetryAttempts: nat := 3

  /** The product URLs of `products`, in order. */
  function Urls(products: seq<Product>): (r: seq<string>)
    ensures |r| == |products| && forall i | 0 <= i < |products| :: r[i] == products[i].url
  {
    if products == [] then [] else Urls(products[..|products| - 1]) + [products[|products| - 1].url]
  }

  /** The parser's state: `products` and `unique_product_urls`. */
  datatype Collected = Collected(products: seq<Product>, seen: set<string>)

  /** The two fields agree: the URLs are distinct and `seen` holds exactly them. */
  ghost predicate Consistent(c: Collected) {
    Distinct(Urls(c.products)) && forall u :: u in c.seen <==> u in Urls(c.products)
  }

  /** One card: appended when extraction yields a product whose URL is new. */
  function AddCard(c: Collected, card: Option<Product>): (r: Collected) {
    if card.Some? && card.value.url !in c.seen then Collected(c.products + [card.value], c.seen + {card.value.url})
    else c
  }

  lemma AddCardConsistent(c: Collected, card: Option<Product>)
    requires Consistent(c)
    ensures Consistent(AddCard(c, card))
    ensures AddCard(c, card).products == c.products || AddCard(c, card).products == c.products + [card.value]
  {
    if card.Some? && card.value.url !in c.seen {
      var ps := c.products + [card.value];
      assert ps[..|ps| - 1] == c.products;
      assert Urls(ps) == Urls(c.products) + [card.value.url];
    }
  }

  /** `d` is `c` with products appended whose URLs `c` had not seen. */
  predicate Extends(c: Collected, d: Collected) {
    && |c.products| <= |d.products| && d.products[..|c.products|] == c.products
    && (forall i | |c.products| <= i < |d.products| :: d.products[i].url !in c.seen)
    && c.seen <= d.seen
  }

  lemma ExtendsTrans(a: Collected, b: Collected, c: Collected)
    requires Extends(a, b) && Extends(b, c)
    ensures Extends(a, c)
  {
    assert c.products[..|a.products|] == c.products[..|b.products|][..|a.products|];
    forall i | |a.products| <= i < |c.products|
      ensures c.products[i].url !in a.seen
    {
      if i < |b.products| {
        assert c.products[i] == b.products[i];
      }
    }
  }

  lemma AddCardExtends(c: Collected, card: Option<Product>)
    ensures Extends(c, AddCard(c, card))
    ensures card.Some? ==> card.value.url in AddCard(c, card).seen
  {
  }

  /** `xs` can be read off the cards in page order: each element is the product of a card,
      no card gives two elements, and the elements keep the order of their cards. */
  predicate InPageOrder(xs: seq<Product>, cards: seq<Option<Product>>)
    decreases |cards|
  {
    || xs == []
    || (&& cards != []
        && (|| (cards[0] == Some(xs[0]) && InPageOrder(xs[1..], cards[1..]))
            || InPageOrder(xs, cards[1..])))
  }

  /** Every product read off the cards in page order is the product of one of them. */
  lemma {:induction false} InPageOrderMembers(xs: seq<Product>, cards: seq<Option<Product>>)
    requires InPageOrder(xs, cards)
    ensures forall i | 0 <= i < |xs| :: Some(xs[i]) in cards
    decreases |cards|
  {
    if xs != [] {
      if cards[0] == Some(xs[0]) && InPageOrder(xs[1..], cards[1..]) {
        InPageOrderMembers(xs[1..], cards[1..]);
        forall i | 0 < i < |xs|
          ensures Some(xs[i]) in cards
        {
          assert xs[i] == xs[1..][i - 1];
          assert Some(xs[i]) in cards[1..];
        }
      } else {
        InPageOrderMembers(xs, cards[1..]);
      }
    }
  }

  /** `extract_products_from_page`: the cards in page order (`None` for a card whose
      extraction failed). Returns the new state and the number of products appended. */
  function ExtractProductsFromPage(c: Collected, cards: seq<Option<Product>>): (r: (Collected, nat))
    requires Consistent(c)
    ensures Consistent(r.0)
    ensures |r.0.products| == |c.products| + r.1
    ensures Extends(c, r.0)
    ensures InPageOrder(r.0.products[|c.products|..], cards)
    ensures forall i | |c.products| <= i < |r.0.products| :: Some(r.0.products[i]) in cards
    ensures forall i | 0 <= i < |cards| :: cards[i].Some? ==> cards[i].value.url in r.0.seen
    decreases |cards|
  {
    if cards == [] then (c, 0)
    else
      var c1 := AddCard(c, cards[0]);
      AddCardConsistent(c, cards[0]);
      AddCardExtends(c, cards[0]);
      var (c2, n) := ExtractProductsFromPage(c1, cards[1..]);
      ExtendsTrans(c, c1, c2);
      SeenAfter(c1, c2, cards);
      AppendedInPageOrder(c, c1, c2, cards);
      InPageOrderMembers(c2.products[|c.products|..], cards);
      (c2, n + (|c1.products| - |c.products|))
  }

  /** The products appended for the first card and for the rest, together, are read off
      the cards in page order. */
  lemma {:induction false} AppendedInPageOrder(c: Collected, c1: Collected, c2: Collected, cards: seq<Option<Product>>)
    requires cards != [] && c1 == AddCard(c, cards[0]) && Extends(c1, c2)
    requires InPageOrder(c2.products[|c1.products|..], cards[1..])
    ensures |c.products| <= |c2.products| && InPageOrder(c2.products[|c.products|..], cards)
  {
    var rest := c2.products[|c1.products|..];
    var xs := c2.products[|c.products|..];
    if c1 == c {
      assert xs == rest;
    } else {
      assert c1.products == c.products + [cards[0].value];
      assert xs[0] == c1.products[|c.products|];
      assert xs[1..] == rest;
    }
  }

  /** The cards' URLs seen by `c1` (the first) and `c2` (the rest) are all seen by `c2`. */
  lemma SeenAfter(c1: Collected, c2: Collected, cards: seq<Option<Product>>)
    requires cards != [] && Extends(c1, c2)
    requires cards[0].Some? ==> cards[0].value.url in c1.seen
    requires forall i | 0 <= i < |cards| - 1 :: cards[1..][i].Some? ==> cards[1..][i].value.url in c2.seen
    ensures forall i | 0 <= i < |cards| :: cards[i].Some? ==> cards[i].value.url in c2.seen
  {
    forall i | 0 < i < |cards|
      ensures cards[i].Some? ==> cards[i].value.url in c2.seen
    {
      assert cards[i] == cards[1..][i - 1];
    }
  }

  /** A page's product count is the number of cards with a new URL: none when every card's
      URL was already held. */
  lemma {:induction false} NothingNewCountsZero(c: Collected, cards: seq<Option<Product>>)
    requires Consistent(c)
    requires forall i | 0 <= i < |cards| :: cards[i].Some? ==> cards[i].value.url in c.seen
    ensures ExtractProductsFromPage(c, cards) == (c, 0)
    decreases |cards|
  {
    if cards != [] {
      assert AddCard(c, cards[0]) == c;
      assert forall i | 0 <= i < |cards| - 1 :: cards[1..][i] == cards[i + 1];
      NothingNewCountsZero(c, cards[1..]);
    }
  }

  /** What one round shows: whether the page grew after the scroll, and the cards. Round 0 is
      the first extraction, before any scroll. */
  datatype Round = Round(grew: bool, cards: seq<Option<Product>>)

  /** How many rounds at the end of `gains` brought nothing. */
  function TrailingZeros(gains: seq<nat>): (r: nat)
    ensures r <= |gains|
    ensures forall i | |gains| - r <= i < |gains| :: gains[i] == 0
    ensures r < |gains| ==> gains[|gains| - r - 1] > 0
  {
    if gains == [] || gains[|gains| - 1] > 0 then 0 else TrailingZeros(gains[..|gains| - 1]) + 1
  }

  /** A round that gains something resets the count; one that gains nothing adds one. */
  lemma TrailingZerosSnoc(gains: seq<nat>, gain: nat)
    ensures TrailingZeros(gains + [gain]) == if gain > 0 then 0 else TrailingZeros(gains) + 1
  {
    assert (gains + [gain])[..|gains|] == gains;
  }

  lemma NoGrowthNoGain(page: nat -> Round, gains: seq<nat>, gain: nat)
    requires forall i | 0 <= i < |gains| :: !page(i + 1).grew ==> gains[i] == 0
    requires !page(|gains| + 1).grew ==> gain == 0
    ensures forall i | 0 <= i < |gains| + 1 :: !page(i + 1).grew ==> (gains + [gain])[i] == 0
  {
  }

  /** The products gained over the scrolls. */
  function Sum(gains: seq<nat>): nat {
    if gains == [] then 0 else Sum(gains[..|gains| - 1]) + gains[|gains| - 1]
  }

  /** The batches one after the other. */
  function Joined(batches: seq<seq<Product>>): seq<Product> {
    if batches == [] then [] else Joined(batches[..|batches| - 1]) + batches[|batches| - 1]
  }

  /** The products split by the round that appended them: batch 0 by the first extraction,
      batch `j + 1` by the `j`-th scroll, which gained as many. Each batch is read off its
      round's cards in page order. */
  ghost predicate Batched(products: seq<Product>, gains: seq<nat>, batches: seq<seq<Product>>, page: nat -> Round) {
    && |batches| == |gains| + 1 && products == Joined(batches)
    && (forall j | 0 <= j < |gains| :: gains[j] == |batches[j + 1]|)
    && (forall j | 0 <= j < |batches| :: InPageOrder(batches[j], page(j).cards))
  }

  /** One more batch read off the next round's cards keeps the split. */
  lemma {:induction false} BatchedStep(products: seq<Product>, gains: seq<nat>, batches: seq<seq<Product>>,
                                       page: nat -> Round, batch: seq<Product>)
    requires Batched(products, gains, batches, page)
    requires InPageOrder(batch, page(|gains| + 1).cards)
    ensures Batched(products + batch, gains + [|batch|], batches + [batch], page)
  {
    assert (batches + [batch])[..|batches|] == batches;
  }

  /** Every product is the product of a card of the first page or of a page that a scroll
      grew. */
  ghost predicate FromCards(products: seq<Product>, gains: seq<nat>, page: nat -> Round) {
    forall i | 0 <= i < |products| ::
      || Some(products[i]) in page(0).cards
      || exists j | 1 <= j <= |gains| :: page(j).grew && Some(products[i]) in page(j).cards
  }

  /** Every product is a card of the first page or of a page that a scroll grew, and there
      are as many as the first extraction and the scrolls gained together. */
  lemma {:induction false} BatchedCards(products: seq<Product>, gains: seq<nat>, batches: seq<seq<Product>>, page: nat -> Round)
    requires Batched(products, gains, batches, page)
    requires forall j | 0 <= j < |gains| :: !page(j + 1).grew ==> gains[j] == 0
    ensures |products| == |batches[0]| + Sum(gains)
    ensures FromCards(products, gains, page)
    decreases |gains|
  {
    if gains == [] {
      assert batches[..0] == [];
      assert products == Joined(batches[..0]) + batches[0];
      InPageOrderMembers(batches[0], page(0).cards);
    } else {
      var n := |gains| - 1;
      var bs, last := batches[..n + 1], batches[n + 1];
      assert batches == bs + [last];
      var ps := Joined(bs);
      assert Batched(ps, gains[..n], bs, page);
      BatchedCards(ps, gains[..n], bs, page);
      assert gains == gains[..n] + [gains[n]];
      InPageOrderMembers(last, page(n + 1).cards);
      forall i | 0 <= i < |products|
        ensures || Some(products[i]) in page(0).cards
                || exists j | 1 <= j <= |gains| :: page(j).grew && Some(products[i]) in page(j).cards
      {
        if i >= |ps| {
          assert products[i] == last[i - |ps|];
          assert page(n + 1).grew;
        } else {
          assert products[i] == ps[i];
        }
      }
    }
  }

  /** What the loop of `parse_products` carries: the parser's state, the products each scroll
      added, the retry counter and the batches of products by round. */
  datatype Scan = Scan(c: Collected, gains: seq<nat>, retry: nat, batches: seq<seq<Product>>)

  /** The loop's invariant: the two fields agree, a scroll that did not grow the page gained
      nothing, the counter counts the trailing rounds that gained nothing, and the products
      split into the rounds' batches. */
  ghost predicate ScanInv(s: Scan, page: nat -> Round) {
    && Consistent(s.c)
    && (forall i | 0 <= i < |s.gains| :: !page(i + 1).grew ==> s.gains[i] == 0)
    && s.retry == TrailingZeros(s.gains) && s.retry <= MaxRetryAttempts
    && Batched(s.c.products, s.gains, s.batches, page)
  }

  /** The state after one more round that left the parser in state `c1` having appended
      `batch`: the counter is reset on a gain and raised otherwise. */
  function NextScan(s: Scan, c1: Collected, batch: seq<Product>): Scan {
    Scan(c1, s.gains + [|batch|], if |batch| > 0 then 0 else s.retry + 1, s.batches + [batch])
  }

  /** A round that appends cards of its page in page order, and only when the scroll grew
      it, keeps the loop's invariant. */
  lemma {:induction false} ScanStep(s: Scan, page: nat -> Round, c1: Collected, batch: seq<Product>)
    requires ScanInv(s, page) && s.retry < MaxRetryAttempts
    requires Consistent(c1) && c1.products == s.c.products + batch
    requires !page(|s.gains| + 1).grew ==> batch == []
    requires InPageOrder(batch, page(|s.gains| + 1).cards)
    ensures ScanInv(NextScan(s, c1, batch), page)
  {
    var s' := NextScan(s, c1, batch);
    assert s'.gains == s.gains + [|batch|] && s'.batches == s.batches + [batch];
    assert s'.retry == TrailingZeros(s'.gains) && s'.retry <= MaxRetryAttempts by {
      TrailingZerosSnoc(s.gains, |batch|);
    }
    assert forall i | 0 <= i < |s'.gains| :: !page(i + 1).grew ==> s'.gains[i] == 0 by {
      NoGrowthNoGain(page, s.gains, |batch|);
    }
    BatchedStep(s.c.products, s.gains, s.batches, page, batch);
  }

  /** One pass of the loop of `parse_products`: scroll number `|s.gains| + 1`, extracting the
      page only when the scroll grew it, then the retry counter reset on a gain and raised
      otherwise. */
  method ScanRound(s: Scan, page: nat -> Round) returns (s': Scan)
    requires ScanInv(s, page) && s.retry < MaxRetryAttempts
    ensures ScanInv(s', page)
    ensures |s'.gains| == |s.gains| + 1 && s'.gains[..|s.gains|] == s.gains
    ensures Extends(s.c, s'.c)
    ensures s'.retry == 0 <==> |s'.c.products| > |s.c.products|
    ensures s'.retry > 0 ==> s'.retry == s.retry + 1 && s'.c.products == s.c.products
    ensures !page(|s'.gains|).grew ==> s'.c == s.c
  {
    var round := page(|s.gains| + 1);
    var c1, batch := s.c, [];
    if round.grew {
      var (c2, _) := ExtractProductsFromPage(s.c, round.cards);
      c1, batch := c2, c2.products[|s.c.products|..];
      assert c1.products == s.c.products + batch;
    }
    ScanStep(s, page, c1, batch);
    s' := NextScan(s, c1, batch);
    assert s'.gains[..|s.gains|] == s.gains;
  }

  /** The loop of `parse_products`: rounds until 150 products are held or three rounds in a
      row gained nothing. */
  method Scroll(s0: Scan, page: nat -> Round) returns (s: Scan)
    requires ScanInv(s0, page)
    ensures ScanInv(s, page)
    ensures Extends(s0.c, s.c)
    ensures |s.c.products| >= TargetCount || s.retry >= MaxRetryAttempts
  {
    s := s0;
    while |s.c.products| < TargetCount && s.retry < MaxRetryAttempts
      invariant ScanInv(s, page)
      invariant Extends(s0.c, s.c)
      decreases TargetCount - |s.c.products|, MaxRetryAttempts - s.retry
    {
      var s1 := ScanRound(s, page);
      ExtendsTrans(s0.c, s.c, s1.c);
      s := s1;
    }
  }

  /** `parse_products`. `loaded` is whether the seller page loaded and `saved` whether writing
      the spreadsheet succeeded. Returns the verdict, the products, the products each scroll
      added, the final retry counter, and the products split by the round that appended them
      (the first extraction's batch holding `initial_count` products). */
  method ParseProducts(loaded: bool, page: nat -> Round, saved: bool)
    returns (ok: bool, products: seq<Product>, gains: seq<nat>, retry: nat, batches: seq<seq<Product>>)
    ensures !loaded ==> !ok && products == [] && gains == []
    ensures ok <==> loaded && products != [] && saved
    ensures Distinct(Urls(products))
    ensures forall i | 0 <= i < |gains| :: !page(i + 1).grew ==> gains[i] == 0
    ensures retry == TrailingZeros(gains) && retry <= MaxRetryAttempts
    ensures loaded ==> |products| >= TargetCount || retry >= MaxRetryAttempts
    ensures loaded ==> Batched(products, gains, batches, page)
    ensures loaded ==> |products| == |batches[0]| + Sum(gains)
    ensures FromCards(products, gains, page)
  {
    if !loaded {
      return false, [], [], 0, [];
    }
    var (c0, _) := ExtractProductsFromPage(Collected([], {}), page(0).cards);
    assert Joined([c0.products]) == c0.products by {
      assert [c0.products][..0] == [];
    }
    var s := Scroll(Scan(c0, [], 0, [c0.products]), page);
    products, gains, retry, batches := s.c.products, s.gains, s.retry, s.batches;
    BatchedCards(products, gains, batches, page);
    ok := products != [] && saved;
  }
}
