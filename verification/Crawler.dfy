/** The crawl loop: breadth-first over same-host links, deduplicated when an item leaves the queue,
    with a depth limit and a page cap. Fetching, robots rules and URL parsing are functions of the URL. */
module Crawler {
  import opened Optional

  datatype FetchResult = FetchFailed | Fetched(links: seq<string>)

  /** `host` is `None` for a text that is not a URL; `blocked` says what robots.txt disallows. */
  datatype Web = Web(normalize: string -> string, host: string -> Option<string>, blocked: string -> bool,
                     fetch: string -> FetchResult, followLinks: bool, depth: int)

  datatype Item = Item(url: string, depth: nat)

  datatype Kind = Succeeded | Failed | RobotsBlocked

  datatype Page = Page(url: string, kind: Kind)

  datatype Stats = Stats(succeeded: nat, failed: nat, robotsBlocked: nat)

  ghost predicate IdempotentNormalize(web: Web) {
    forall u :: web.normalize(web.normalize(u)) == web.normalize(u)
  }

  predicate SameHost(web: Web, a: string, b: string) {
    web.host(a).Some? && web.host(b).Some? && web.host(a) == web.host(b)
  }

  function KindOf(web: Web, url: string): Kind {
    if web.blocked(url) then RobotsBlocked
    else if web.fetch(url).FetchFailed? then Failed
    else Succeeded
  }

  /** The normalized same-host links in `links`. */
  function Followed(web: Web, links: seq<string>, url: string): seq<string> {
    if links == [] then []
    else
      var n := |links| - 1;
      Followed(web, links[..n], url) + if SameHost(web, links[n], url) then [web.normalize(links[n])] else []
  }

  /** The pages a page leads to; pages that are blocked or cannot be fetched lead nowhere. */
  function Links(web: Web, url: string): seq<string> {
    if KindOf(web, url) == Succeeded then Followed(web, web.fetch(url).links, url) else []
  }

  /** How deep links are followed. */
  function Limit(web: Web): nat {
    if web.followLinks && web.depth > 0 then web.depth else 0
  }

  function Unvisited(urls: seq<string>, visited: set<string>, depth: nat): seq<Item> {
    if urls == [] then []
    else
      var n := |urls| - 1;
      Unvisited(urls[..n], visited, depth) + if urls[n] in visited then [] else [Item(urls[n], depth)]
  }

  /** What is queued after a visit to `url` at `depth`. */
  function Enqueued(web: Web, url: string, depth: nat, visited: set<string>): seq<Item> {
    if depth < Limit(web) then Unvisited(Links(web, url), visited, depth + 1) else []
  }

  /** The visits of the loop from a queue on, with room for `room` pages. */
  function Visits(web: Web, queue: seq<Item>, visited: set<string>, room: nat): seq<Item>
    decreases room, |queue|
  {
    if queue == [] || room == 0 then []
    else
      var url := web.normalize(queue[0].url);
      if url in visited then Visits(web, queue[1..], visited, room)
      else
        var seen := visited + {url};
        [Item(url, queue[0].depth)] + Visits(web, queue[1..] + Enqueued(web, url, queue[0].depth, seen), seen, room - 1)
  }

  function SeedItems(web: Web, seeds: seq<string>): seq<Item> {
    if seeds == [] then []
    else SeedItems(web, seeds[..|seeds| - 1]) + [Item(web.normalize(seeds[|seeds| - 1]), 0)]
  }

  function PagesOf(web: Web, visits: seq<Item>): seq<Page> {
    seq(|visits|, i requires 0 <= i < |visits| => Page(visits[i].url, KindOf(web, visits[i].url)))
  }

  function Room(maxPages: int): nat {
    if maxPages > 0 then maxPages else 0
  }

  lemma QueueNext(web: Web, url: string, links: seq<string>, visited: set<string>, depth: nat, i: nat)
    requires i < |links|
    ensures var l := web.normalize(links[i]);
            Unvisited(Followed(web, links[..i + 1], url), visited, depth) ==
            Unvisited(Followed(web, links[..i], url), visited, depth) +
            if SameHost(web, links[i], url) && l !in visited then [Item(l, depth)] else []
  {
    assert links[..i + 1][..i] == links[..i];
    var before := Followed(web, links[..i], url);
    var l := web.normalize(links[i]);
    if SameHost(web, links[i], url) {
      assert Followed(web, links[..i + 1], url) == before + [l] && (before + [l])[..|before|] == before;
    } else {
      assert Followed(web, links[..i + 1], url) == before;
    }
  }

  method QueueLinks(web: Web, url: string, links: seq<string>, visited: set<string>, depth: nat, queue0: seq<Item>)
      returns (queue: seq<Item>)
    ensures queue == queue0 + Unvisited(Followed(web, links, url), visited, depth)
  {
    queue := queue0;
    var i := 0;
    while i < |links|
      invariant 0 <= i <= |links|
      invariant queue == queue0 + Unvisited(Followed(web, links[..i], url), visited, depth)
    {
      QueueNext(web, url, links, visited, depth, i);
      if SameHost(web, links[i], url) {
        var l := web.normalize(links[i]);
        if l !in visited {
          queue := queue + [Item(l, depth)];
        }
      }
      i := i + 1;
    }
    assert links[..i] == links;
  }

  /** One round for a URL not visited before: its page, and the queue with its links. */
  method Visit(web: Web, url: string, depth: nat, visited: set<string>, queue0: seq<Item>, stats0: Stats)
      returns (page: Page, queue: seq<Item>, stats: Stats)
    ensures page == Page(url, KindOf(web, url))
    ensures queue == queue0 + Enqueued(web, url, depth, visited)
    ensures stats == Counted(stats0, page.kind)
  {
    queue := queue0;
    if web.blocked(url) {
      return Page(url, RobotsBlocked), queue, stats0.(robotsBlocked := stats0.robotsBlocked + 1);
    }
    var response := web.fetch(url);
    if response.FetchFailed? {
      return Page(url, Failed), queue, stats0.(failed := stats0.failed + 1);
    }
    page, stats := Page(url, Succeeded), stats0.(succeeded := stats0.succeeded + 1);
    if web.followLinks && depth < web.depth {
      queue := QueueLinks(web, url, response.links, visited, depth + 1, queue);
    }
  }

  function CountKind(pages: seq<Page>, kind: Kind): nat {
    if pages == [] then 0
    else CountKind(pages[..|pages| - 1], kind) + if pages[|pages| - 1].kind == kind then 1 else 0
  }

  ghost predicate Counts(pages: seq<Page>, stats: Stats) {
    && stats == Stats(CountKind(pages, Succeeded), CountKind(pages, Failed), CountKind(pages, RobotsBlocked))
    && stats.succeeded + stats.failed + stats.robotsBlocked == |pages|
  }

  function Counted(stats: Stats, kind: Kind): Stats {
    match kind
    case Succeeded => stats.(succeeded := stats.succeeded + 1)
    case Failed => stats.(failed := stats.failed + 1)
    case RobotsBlocked => stats.(robotsBlocked := stats.robotsBlocked + 1)
  }

  function Tally(pages: seq<Page>): Stats {
    if pages == [] then Stats(0, 0, 0) else Counted(Tally(pages[..|pages| - 1]), pages[|pages| - 1].kind)
  }

  lemma TallyNext(pages: seq<Page>, page: Page)
    ensures Tally(pages + [page]) == Counted(Tally(pages), page.kind)
  {
    assert (pages + [page])[..|pages|] == pages;
  }

  lemma {:induction false} TallyCounts(pages: seq<Page>)
    ensures Counts(pages, Tally(pages))
  {
    if pages != [] {
      TallyCounts(pages[..|pages| - 1]);
    }
  }

  /** `visits` are the visits so far of a crawl that makes `all` of them. */
  ghost predicate Crawling(web: Web, all: seq<Item>, visits: seq<Item>, queue: seq<Item>, visited: set<string>,
                           pages: seq<Page>, room: int) {
    && pages == PagesOf(web, visits) && room >= 0
    && all == visits + Visits(web, queue, visited, room)
  }

  lemma CrawlingOn(web: Web, all: seq<Item>, visits: seq<Item>, queue: seq<Item>, visited: set<string>, pages: seq<Page>, room: int)
    requires Crawling(web, all, visits, queue, visited, pages, room) && queue != [] && room > 0
    ensures var url := web.normalize(queue[0].url);
            var seen := visited + {url};
            if url in visited then Crawling(web, all, visits, queue[1..], visited, pages, room)
            else Crawling(web, all, visits + [Item(url, queue[0].depth)],
                          queue[1..] + Enqueued(web, url, queue[0].depth, seen), seen,
                          pages + [Page(url, KindOf(web, url))], room - 1)
  {
    var url := web.normalize(queue[0].url);
    if url !in visited {
      assert PagesOf(web, visits + [Item(url, queue[0].depth)]) == PagesOf(web, visits) + [Page(url, KindOf(web, url))];
    }
  }

  /** Every way on from a crawl that is under way makes the visits `all`. */
  ghost predicate Underway(web: Web, all: seq<Item>, queue: seq<Item>, visited: set<string>, pages: seq<Page>, room: int) {
    exists visits :: Crawling(web, all, visits, queue, visited, pages, room)
  }

  lemma UnderwayOn(web: Web, all: seq<Item>, queue: seq<Item>, visited: set<string>, pages: seq<Page>, room: int)
    requires Underway(web, all, queue, visited, pages, room) && queue != [] && room > 0
    ensures var url := web.normalize(queue[0].url);
            var seen := visited + {url};
            if url in visited then Underway(web, all, queue[1..], visited, pages, room)
            else Underway(web, all, queue[1..] + Enqueued(web, url, queue[0].depth, seen), seen,
                          pages + [Page(url, KindOf(web, url))], room - 1)
  {
    var visits :| Crawling(web, all, visits, queue, visited, pages, room);
    CrawlingOn(web, all, visits, queue, visited, pages, room);
  }

  lemma UnderwayEnds(web: Web, all: seq<Item>, queue: seq<Item>, visited: set<string>, pages: seq<Page>, room: int)
    requires Underway(web, all, queue, visited, pages, room) && (queue == [] || room == 0)
    ensures pages == PagesOf(web, all)
  {
    var visits :| Crawling(web, all, visits, queue, visited, pages, room);
    assert visits + [] == visits;
  }

  lemma UnderwayStarts(web: Web, queue: seq<Item>, room: nat)
    ensures Underway(web, Visits(web, queue, {}, room), queue, {}, [], room)
  {
    var all := Visits(web, queue, {}, room);
    assert [] + all == all;
    assert Crawling(web, all, [], queue, {}, [], room);
  }

  lemma KindsMean(web: Web, visits: seq<Item>)
    ensures forall page :: page in PagesOf(web, visits) ==> (page.kind == RobotsBlocked <==> web.blocked(page.url))
    ensures forall page :: page in PagesOf(web, visits) ==>
              (page.kind == Failed <==> !web.blocked(page.url) && web.fetch(page.url).FetchFailed?)
  {
  }

  /** The loop: it ends because the room for pages, and for equal room the queue, shrinks. */
  method RunCrawl(web: Web, seeds: seq<string>, maxPages: int) returns (pages: seq<Page>, stats: Stats)
    ensures pages == PagesOf(web, Visits(web, SeedItems(web, seeds), {}, Room(maxPages)))
    ensures Counts(pages, stats) && |pages| <= Room(maxPages)
    ensures forall page :: page in pages ==> (page.kind == RobotsBlocked <==> web.blocked(page.url))
    ensures forall page :: page in pages ==> (page.kind == Failed <==> !web.blocked(page.url) && web.fetch(page.url).FetchFailed?)
  {
    var queue := SeedItems(web, seeds);
    var visited: set<string> := {};
    pages, stats := [], Stats(0, 0, 0);
    ghost var all := Visits(web, queue, {}, Room(maxPages));
    UnderwayStarts(web, queue, Room(maxPages));
    while |queue| > 0 && |pages| < maxPages
      invariant Underway(web, all, queue, visited, pages, Room(maxPages) - |pages|)
      invariant stats == Tally(pages) && |pages| <= Room(maxPages)
      decreases maxPages - |pages|, |queue|
    {
      UnderwayOn(web, all, queue, visited, pages, Room(maxPages) - |pages|);
      var item := queue[0];
      queue := queue[1..];
      var url := web.normalize(item.url);
      if url !in visited {
        visited := visited + {url};
        var page;
        page, queue, stats := Visit(web, url, item.depth, visited, queue, stats);
        TallyNext(pages, page);
        pages := pages + [page];
      }
    }
    UnderwayEnds(web, all, queue, visited, pages, Room(maxPages) - |pages|);
    KindsMean(web, all);
    TallyCounts(pages);
  }
}
