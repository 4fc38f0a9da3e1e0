/** The crawl stage (extract/spiders/mercadolivre.py): the per-product record
    of the two page layouts, and the spider's bounded pagination.

    A fetched page is abstract: its product containers in document order, each
    answering CSS queries with the text of the first match, and the href of its
    next-page link. The site is the sequence of pages the successive requests
    receive: the k-th request (counting the start request as the first) gets
    `site[k - 1]`, and a request past the end of `site` gets no page. */
module Spider {
  import opened Wrappers
  import opened Text

  const START_URL := "https://lista.mercadolivre.com.br/geladeira-frost-free"

  /** The spider's page budget (class attribute `max_pages`). */
  const MAX_PAGES: nat := 20

  /** The two markup generations: the landing page is read by `parse`, every
      followed page by `parse_next_pages`. */
  datatype Layout = Landing | Paginated

  /** The six per-product queries of a callback. */
  datatype Field = Brand | Name | OldPrice | NewPrice | Rating | Reviews

  /** A query of one layout: the CSS selector the callback of that layout uses
      for that field. */
  datatype Selector = Selector(layout: Layout, field: Field)

  /** A product container: for each selector, the text of its first match. */
  datatype Element = Element(firstText: map<Selector, string>)

  /** `element.css(selector).get()`: the first match's text, or None. */
  function Get(e: Element, sel: Selector): Option<string>
  {
    if sel in e.firstText then Some(e.firstText[sel]) else None
  }

  /** A fetched result page: its product containers (`div.ui-search-result__wrapper`)
      in document order, and the href of its next-page link
      (`li.andes-pagination__button--next a::attr(href)`), if any. */
  datatype Page = Page(products: seq<Element>, nextHref: Option<string>)

  /** The record yielded for one product: the six fields of the feed, the
      first five absent when their element is, `review_amount` always present. */
  datatype Item = Item(
    brand: Option<string>,
    name: Option<string>,
    oldPrice: Option<string>,
    newPrice: Option<string>,
    reviewRatingNumber: Option<string>,
    reviewAmount: string)

  const PARENS: set<char> := {'(', ')'}

  /** `(text-or-default "0" or "0").strip("()")`. */
  function ReviewAmount(text: Option<string>): string
  {
    var raw := if text.Some? then text.value else "0";
    Strip(if raw == "" then "0" else raw, PARENS)
  }

  /** A missing or empty review element reads "0"; otherwise the text loses
      every '(' and ')' at its ends and nothing else. */
  lemma ReviewAmountSpec(text: Option<string>)
    ensures text.None? || text == Some("") ==> ReviewAmount(text) == "0"
    ensures text.Some? && text.value != "" ==> Trimmed(text.value, ReviewAmount(text), PARENS)
  {
    if text.Some? && text.value != "" {
      StripSpec(text.value, PARENS);
    } else {
      assert "0"[0] !in PARENS;
    }
  }

  /** The record one product container yields under `layout`'s selectors: each
      field is the first match of its own selector, None exactly when nothing
      matches, and the review count follows `ReviewAmount`. */
  function Extract(layout: Layout, product: Element): (item: Item)
    ensures item.brand.None? <==> Selector(layout, Brand) !in product.firstText
    ensures item.name.None? <==> Selector(layout, Name) !in product.firstText
    ensures item.oldPrice.None? <==> Selector(layout, OldPrice) !in product.firstText
    ensures item.newPrice.None? <==> Selector(layout, NewPrice) !in product.firstText
    ensures item.reviewRatingNumber.None? <==> Selector(layout, Rating) !in product.firstText
    ensures Selector(layout, Reviews) !in product.firstText ==> item.reviewAmount == "0"
  {
    Item(
      Get(product, Selector(layout, Brand)),
      Get(product, Selector(layout, Name)),
      Get(product, Selector(layout, OldPrice)),
      Get(product, Selector(layout, NewPrice)),
      Get(product, Selector(layout, Rating)),
      ReviewAmount(Get(product, Selector(layout, Reviews))))
  }

  /** The record with the field a query answers emptied: None for the five
      optional fields, the default "0" for the review count. */
  function Blank(item: Item, f: Field): Item
  {
    match f
    case Brand => item.(brand := None)
    case Name => item.(name := None)
    case OldPrice => item.(oldPrice := None)
    case NewPrice => item.(newPrice := None)
    case Rating => item.(reviewRatingNumber := None)
    case Reviews => item.(reviewAmount := "0")
  }

  /** A product missing the element of one field still yields its record, with
      only that field emptied and every other field as before. */
  lemma MissingElement(layout: Layout, product: Element, f: Field)
    ensures Extract(layout, product.(firstText := product.firstText - {Selector(layout, f)}))
      == Blank(Extract(layout, product), f)
  {
    ReviewAmountSpec(None);
  }

  /** One record per product container, in document order. */
  function ExtractAll(layout: Layout, products: seq<Element>): (items: seq<Item>)
    ensures |items| == |products|
  {
    if products == [] then []
    else [Extract(layout, products[0])] + ExtractAll(layout, products[1..])
  }

  /** The `i`-th record is the `i`-th product container's. */
  lemma {:induction false} ExtractAllPointwise(layout: Layout, products: seq<Element>)
    ensures forall i :: 0 <= i < |products| ==> ExtractAll(layout, products)[i] == Extract(layout, products[i])
  {
    if products != [] {
      ExtractAllPointwise(layout, products[1..]);
    }
  }

  const FIELD_NAMES: set<string> :=
    {"brand", "name", "old_price", "new_price", "review_rating_number", "review_amount"}

  /** The JSON object the feed export writes for a record. */
  function FeedObject(item: Item): (obj: map<string, Option<string>>)
    ensures obj.Keys == FIELD_NAMES
    ensures obj["brand"] == item.brand && obj["name"] == item.name
    ensures obj["old_price"] == item.oldPrice && obj["new_price"] == item.newPrice
    ensures obj["review_rating_number"] == item.reviewRatingNumber
    ensures obj["review_amount"] == Some(item.reviewAmount)
  {
    map["brand" := item.brand, "name" := item.name, "old_price" := item.oldPrice,
        "new_price" := item.newPrice, "review_rating_number" := item.reviewRatingNumber,
        "review_amount" := Some(item.reviewAmount)]
  }

  /** The Scrapy spider: its mutable page counter and its two callbacks. */
  class MercadolivreSpider {
    /** Number of page requests issued so far, the start request included. */
    var pageCount: nat
    const maxPages: nat

    /** The page counter starts at 1 and never passes the page budget. */
    ghost predicate Valid()
      reads this
    {
      1 <= pageCount && (pageCount <= maxPages || pageCount == 1)
    }

    constructor (maxPages: nat)
      ensures Valid() && pageCount == 1 && this.maxPages == maxPages
    {
      pageCount := 1;
      this.maxPages := maxPages;
    }

    /** The pagination rule closing both callbacks: while under budget, follow
        the next-page link if there is one, counting the new request. */
    method FollowNext(page: Page) returns (request: Option<string>)
      requires Valid()
      modifies this
      ensures Valid()
      ensures request == if old(pageCount) < maxPages then page.nextHref else None
      ensures pageCount == if request.Some? then old(pageCount) + 1 else old(pageCount)
    {
      request := None;
      if pageCount < maxPages {
        var next := page.nextHref;
        if next.Some? {
          pageCount := pageCount + 1;
          request := next;
        }
      }
    }

    /** One callback: a record per product container in document order, and
        the follow request, if the pagination rule issues one. */
    method ParseWith(layout: Layout, page: Page) returns (records: seq<Item>, request: Option<string>)
      requires Valid()
      modifies this
      ensures Valid()
      ensures records == ExtractAll(layout, page.products)
      ensures request == if old(pageCount) < maxPages then page.nextHref else None
      ensures pageCount == if request.Some? then old(pageCount) + 1 else old(pageCount)
    {
      records := [];
      for i := 0 to |page.products|
        invariant |records| == i
        invariant forall j :: 0 <= j < i ==> records[j] == Extract(layout, page.products[j])
      {
        records := records + [Extract(layout, page.products[i])];
      }
      ExtractAllPointwise(layout, page.products);
      request := FollowNext(page);
    }

    /** `parse`: the landing page, read with the first layout. */
    method Parse(page: Page) returns (records: seq<Item>, request: Option<string>)
      requires Valid()
      modifies this
      ensures Valid()
      ensures records == ExtractAll(Landing, page.products)
      ensures request == if old(pageCount) < maxPages then page.nextHref else None
      ensures pageCount == if request.Some? then old(pageCount) + 1 else old(pageCount)
    {
      records, request := ParseWith(Landing, page);
    }

    /** `parse_next_pages`: every followed page, read with the second layout. */
    method ParseNextPages(page: Page) returns (records: seq<Item>, request: Option<string>)
      requires Valid()
      modifies this
      ensures Valid()
      ensures records == ExtractAll(Paginated, page.products)
      ensures request == if old(pageCount) < maxPages then page.nextHref else None
      ensures pageCount == if request.Some? then old(pageCount) + 1 else old(pageCount)
    {
      records, request := ParseWith(Paginated, page);
    }
  }

  /** The layout the `k`-th request's callback reads its page with. */
  function LayoutOf(k: nat): Layout
  {
    if k <= 1 then Landing else Paginated
  }

  /** The pagination rule at the `k`-th request: its page was fetched, the
      budget is not used up and the page links onward. */
  predicate Follows(site: seq<Page>, maxPages: nat, k: nat)
  {
    1 <= k <= |site| && k < maxPages && site[k - 1].nextHref.Some?
  }

  /** The final page counter (the number of requests issued) of a crawl whose
      `k`-th request has just been issued. */
  function Requests(site: seq<Page>, maxPages: nat, k: nat): nat
    requires k >= 1
    decreases |site| + 1 - k
  {
    if Follows(site, maxPages, k) then Requests(site, maxPages, k + 1) else k
  }

  /** The records of the first `n` pages of the site, each page read with the
      layout of its request, in page order and document order within a page. */
  function PagesItems(site: seq<Page>, n: nat): seq<Item>
    requires n <= |site|
  {
    if n == 0 then [] else PagesItems(site, n - 1) + ExtractAll(LayoutOf(n), site[n - 1].products)
  }

  /** The number of pages a crawl reads: one per request that got a page. */
  function PagesRead(site: seq<Page>, maxPages: nat): nat
  {
    Min(Requests(site, maxPages, 1), |site|)
  }

  function Max(a: int, b: int): int { if a < b then b else a }
  function Min(a: int, b: int): int { if a < b then a else b }

  /** The request count is at least the starting counter and at most the
      larger of the budget and the starting counter (a budget of 0 still
      allows the first request). */
  lemma {:induction false} CrawlBudget(site: seq<Page>, maxPages: nat, k: nat)
    requires k >= 1
    ensures k <= Requests(site, maxPages, k) <= Max(k, maxPages)
    decreases |site| + 1 - k
  {
    if Follows(site, maxPages, k) {
      CrawlBudget(site, maxPages, k + 1);
    }
  }

  /** The crawl stops at the first request whose page the pagination rule does
      not follow: every earlier one is followed, that one is not. */
  lemma {:induction false} CrawlStopRule(site: seq<Page>, maxPages: nat, k: nat)
    requires k >= 1
    ensures var n := Requests(site, maxPages, k);
      && k <= n
      && !Follows(site, maxPages, n)
      && forall j :: k <= j < n ==> Follows(site, maxPages, j)
    decreases |site| + 1 - k
  {
    if Follows(site, maxPages, k) {
      CrawlStopRule(site, maxPages, k + 1);
    }
  }

  /** When every page has a next-page link and the site is at least as long as
      the budget, the crawl issues exactly `maxPages` requests. */
  lemma {:induction false} CrawlCapped(site: seq<Page>, maxPages: nat, k: nat)
    requires 1 <= k <= maxPages <= |site|
    requires forall j :: 0 <= j < |site| ==> site[j].nextHref.Some?
    ensures Requests(site, maxPages, k) == maxPages
    decreases maxPages - k
  {
    if k < maxPages {
      CrawlCapped(site, maxPages, k + 1);
    }
  }

  /** The spider as shipped: at most `MAX_PAGES` requests in all, and exactly
      that many when the site keeps offering a next page long enough. */
  lemma ShippedBudget(site: seq<Page>)
    ensures 1 <= Requests(site, MAX_PAGES, 1) <= 20
    ensures MAX_PAGES <= |site| && (forall j :: 0 <= j < |site| ==> site[j].nextHref.Some?)
      ==> Requests(site, MAX_PAGES, 1) == 20
  {
    CrawlBudget(site, MAX_PAGES, 1);
    if MAX_PAGES <= |site| && (forall j :: 0 <= j < |site| ==> site[j].nextHref.Some?) {
      CrawlCapped(site, MAX_PAGES, 1);
    }
  }

  /** Pages past the budget are never read: cutting the site at `maxPages`
      pages changes neither the request count nor the records. */
  lemma CrawlIgnoresPagesPastBudget(site: seq<Page>, maxPages: nat)
    requires 1 <= maxPages < |site|
    ensures Requests(site, maxPages, 1) == Requests(site[..maxPages], maxPages, 1)
    ensures PagesRead(site, maxPages) == PagesRead(site[..maxPages], maxPages)
    ensures PagesItems(site, PagesRead(site, maxPages)) == PagesItems(site[..maxPages], PagesRead(site, maxPages))
  {
    RequestsIgnorePagesPastBudget(site, maxPages, 1);
    CrawlBudget(site, maxPages, 1);
    PagesItemsPrefix(site, maxPages, PagesRead(site, maxPages));
  }

  lemma {:induction false} RequestsIgnorePagesPastBudget(site: seq<Page>, maxPages: nat, k: nat)
    requires 1 <= k <= maxPages < |site|
    ensures Requests(site, maxPages, k) == Requests(site[..maxPages], maxPages, k)
    decreases maxPages - k
  {
    assert site[..maxPages][k - 1] == site[k - 1];
    if k < maxPages && site[k - 1].nextHref.Some? {
      RequestsIgnorePagesPastBudget(site, maxPages, k + 1);
    }
  }

  /** The records of the first `n` pages depend on those pages alone. */
  lemma {:induction false} PagesItemsPrefix(site: seq<Page>, m: nat, n: nat)
    requires n <= m <= |site|
    ensures PagesItems(site, n) == PagesItems(site[..m], n)
  {
    if n > 0 {
      assert site[..m][n - 1] == site[n - 1];
      PagesItemsPrefix(site, m, n - 1);
    }
  }

  /** A three-page site whose pages all link onward, crawled with a budget of
      two: the landing page and the second page are read, the third never is. */
  lemma ThreePagesBudgetTwo(p1: Page, p2: Page, p3: Page)
    requires p1.nextHref.Some? && p2.nextHref.Some? && p3.nextHref.Some?
    ensures Requests([p1, p2, p3], 2, 1) == 2
    ensures PagesRead([p1, p2, p3], 2) == 2
    ensures PagesItems([p1, p2, p3], 2) == ExtractAll(Landing, p1.products) + ExtractAll(Paginated, p2.products)
  {
    var site := [p1, p2, p3];
    assert PagesItems(site, 1) == [] + ExtractAll(Landing, p1.products);
  }

  /** The Scrapy engine driving the spider: schedule the start request, run the
      callback for each response, keep the records and follow the request a
      callback yields, until no request is pending or a request gets no page.
      Returns the records and the final page counter; the landing page is read
      by `parse`, every later page by `parse_next_pages`. */
  method Crawl(site: seq<Page>, maxPages: nat) returns (feed: seq<Item>, requests: nat)
    ensures requests == Requests(site, maxPages, 1)
    ensures 1 <= requests <= Max(1, maxPages)
    ensures feed == PagesItems(site, PagesRead(site, maxPages))
  {
    var spider := new MercadolivreSpider(maxPages);
    var pending: Option<string> := Some(START_URL);
    var read := 0;
    ghost var total := Requests(site, maxPages, 1);
    feed := [];
    while pending.Some? && spider.pageCount <= |site|
      invariant spider.Valid() && spider.maxPages == maxPages
      invariant read == (if pending.Some? then spider.pageCount - 1 else spider.pageCount) <= |site|
      invariant feed == PagesItems(site, read)
      invariant pending.Some? ==> Requests(site, maxPages, spider.pageCount) == total
      invariant pending.None? ==> spider.pageCount == total
      decreases |site| - read
    {
      var k := spider.pageCount;
      var page := site[k - 1];
      var records, request;
      if k == 1 {
        records, request := spider.Parse(page);
      } else {
        records, request := spider.ParseNextPages(page);
      }
      feed := feed + records;
      read := read + 1;
      pending := request;
      RequestsStep(site, maxPages, k);
    }
    requests := spider.pageCount;
    CrawlBudget(site, maxPages, 1);
  }

  /** One step of the request count spelled out. */
  lemma RequestsStep(site: seq<Page>, maxPages: nat, k: nat)
    requires 1 <= k <= |site|
    ensures Requests(site, maxPages, k)
      == if k < maxPages && site[k - 1].nextHref.Some? then Requests(site, maxPages, k + 1) else k
  {
  }
}
