/** Breadth-first order: which URLs a crawl visits, in which order, and what the page cap changes. */
module CrawlOrder {
  import opened Crawler

  /** The page at `from` may be fetched, can be, and holds a link to the host it is on that normalizes to `to`. */
  ghost predicate HasLink(web: Web, from: string, to: string) {
    && !web.blocked(from) && web.fetch(from).Fetched?
    && exists k :: 0 <= k < |web.fetch(from).links| && IsLink(web, web.fetch(from).links[k], from, to)
  }

  predicate IsLink(web: Web, link: string, from: string, to: string) {
    web.host(link).Some? && web.host(link) == web.host(from) && web.normalize(link) == to
  }

  lemma {:induction false} FollowedIff(web: Web, links: seq<string>, from: string, to: string)
    ensures to in Followed(web, links, from) <==> exists k :: 0 <= k < |links| && IsLink(web, links[k], from, to)
  {
    if links != [] {
      var n := |links| - 1;
      FollowedIff(web, links[..n], from, to);
      if to in Followed(web, links[..n], from) {
        var k :| 0 <= k < n && IsLink(web, links[..n][k], from, to);
        assert IsLink(web, links[k], from, to);
      }
      if k :| 0 <= k < |links| && IsLink(web, links[k], from, to) {
        assert k < n ==> IsLink(web, links[..n][k], from, to);
        assert k == n ==> Followed(web, links, from)[|Followed(web, links[..n], from)|] == to;
      }
    }
  }

  lemma LinksIff(web: Web, from: string, to: string)
    ensures to in Links(web, from) <==> HasLink(web, from, to)
  {
    if web.fetch(from).Fetched? {
      FollowedIff(web, web.fetch(from).links, from, to);
    }
  }

  /** A chain of links from a seed. */
  ghost predicate IsRoute(web: Web, seeds: seq<string>, p: seq<string>) {
    && p != [] && IsSeed(web, seeds, p[0])
    && forall i, j :: 0 <= i < j < |p| && j == i + 1 ==> HasLink(web, p[i], p[j])
  }

  predicate IsSeed(web: Web, seeds: seq<string>, url: string) {
    exists i :: 0 <= i < |seeds| && web.normalize(seeds[i]) == url
  }

  ghost predicate RouteTo(web: Web, seeds: seq<string>, p: seq<string>, url: string) {
    IsRoute(web, seeds, p) && p[|p| - 1] == url
  }

  /** `url` is exactly `depth` links away from the nearest seed. */
  ghost predicate AtDistance(web: Web, seeds: seq<string>, url: string, depth: nat) {
    && (exists p :: RouteTo(web, seeds, p, url) && |p| == depth + 1)
    && forall p :: RouteTo(web, seeds, p, url) ==> |p| >= depth + 1
  }

  predicate Queued(q: seq<Item>, url: string, depth: int) {
    exists i :: 0 <= i < |q| && q[i].url == url && q[i].depth <= depth
  }

  /** A queue holds normalized URLs with routes of the recorded length, in nondecreasing depth and
      spanning at most two depths. */
  ghost predicate QueueKept(web: Web, seeds: seq<string>, q: seq<Item>) {
    && (forall i, j :: 0 <= i <= j < |q| ==> q[i].depth <= q[j].depth <= q[0].depth + 1)
    && forall i :: 0 <= i < |q| ==> ItemKept(web, seeds, q[i])
  }

  ghost predicate ItemKept(web: Web, seeds: seq<string>, item: Item) {
    && web.normalize(item.url) == item.url && item.depth <= Limit(web)
    && exists p :: RouteTo(web, seeds, p, item.url) && |p| == item.depth + 1
  }

  /** Every seed is visited or queued, and so is every link of a page visited above the limit. */
  ghost predicate FrontierKept(web: Web, seeds: seq<string>, q: seq<Item>, at: map<string, nat>) {
    && (forall s :: IsSeed(web, seeds, s) ==> s in at || Queued(q, s, 0))
    && forall u, v :: u in at && at[u] < Limit(web) && v in Links(web, u) ==> v in at || Queued(q, v, at[u] + 1)
  }

  /** Visited pages lie at their recorded distance, none beyond the front of the queue. */
  ghost predicate VisitedKept(web: Web, seeds: seq<string>, q: seq<Item>, at: map<string, nat>) {
    forall u :: u in at ==>
      AtDistance(web, seeds, u, at[u]) && at[u] <= Limit(web) && (q != [] ==> at[u] <= q[0].depth)
  }

  ghost predicate Kept(web: Web, seeds: seq<string>, q: seq<Item>, at: map<string, nat>) {
    QueueKept(web, seeds, q) && FrontierKept(web, seeds, q, at) && VisitedKept(web, seeds, q, at)
  }

  lemma RoutePrefix(web: Web, seeds: seq<string>, p: seq<string>, n: nat)
    requires IsRoute(web, seeds, p) && 0 < n <= |p|
    ensures IsRoute(web, seeds, p[..n])
  {
    forall i | 0 <= i < n - 1
      ensures HasLink(web, p[..n][i], p[..n][i + 1])
    {
      assert HasLink(web, p[i], p[i + 1]);
    }
  }

  lemma RouteExtends(web: Web, seeds: seq<string>, p: seq<string>, url: string)
    requires IsRoute(web, seeds, p) && url in Links(web, p[|p| - 1])
    ensures RouteTo(web, seeds, p + [url], url)
  {
    var q := p + [url];
    LinksIff(web, p[|p| - 1], url);
    forall i | 0 <= i < |q| - 1
      ensures HasLink(web, q[i], q[i + 1])
    {
      if i < |p| - 1 {
        assert HasLink(web, p[i], p[i + 1]);
      }
    }
  }

  /** A short enough route is visited throughout, or meets the queue at its first unvisited page. */
  lemma {:induction false} RouteMeetsQueue(web: Web, seeds: seq<string>, q: seq<Item>, at: map<string, nat>, p: seq<string>)
    requires FrontierKept(web, seeds, q, at) && VisitedKept(web, seeds, q, at)
    requires IsRoute(web, seeds, p) && |p| <= Limit(web) + 1
    ensures p[|p| - 1] in at || exists i :: 0 <= i < |p| && p[i] !in at && Queued(q, p[i], i)
    decreases |p|
  {
    var n := |p| - 1;
    if n > 0 {
      RoutePrefix(web, seeds, p, n);
      RouteMeetsQueue(web, seeds, q, at, p[..n]);
      if p[n - 1] in at {
        assert HasLink(web, p[n - 1], p[n - 1 + 1]);
        LinksIff(web, p[n - 1], p[n]);
        assert AtDistance(web, seeds, p[n - 1], at[p[n - 1]]);
        assert RouteTo(web, seeds, p[..n], p[n - 1]);
        assert p[n] in at || Queued(q, p[n], at[p[n - 1]] + 1);
        if p[n] !in at {
          assert Queued(q, p[n], n);
        }
      } else {
        var i :| 0 <= i < n && p[..n][i] !in at && Queued(q, p[..n][i], i);
        assert p[i] !in at && Queued(q, p[i], i);
      }
    }
  }

  /** The first unvisited item to leave the queue is at its recorded distance. */
  lemma FrontIsAtDistance(web: Web, seeds: seq<string>, q: seq<Item>, at: map<string, nat>)
    requires Kept(web, seeds, q, at) && q != [] && q[0].url !in at
    ensures AtDistance(web, seeds, q[0].url, q[0].depth)
  {
    assert ItemKept(web, seeds, q[0]);
    forall p | RouteTo(web, seeds, p, q[0].url)
      ensures |p| >= q[0].depth + 1
    {
      if |p| <= Limit(web) + 1 {
        RouteMeetsQueue(web, seeds, q, at, p);
        var i :| 0 <= i < |p| && p[i] !in at && Queued(q, p[i], i);
        QueuedBehindFront(web, seeds, q, p[i], i);
      }
    }
  }

  lemma QueuedBehindFront(web: Web, seeds: seq<string>, q: seq<Item>, url: string, depth: nat)
    requires QueueKept(web, seeds, q) && Queued(q, url, depth)
    ensures q != [] && q[0].depth <= depth
  {
    var k :| 0 <= k < |q| && q[k].url == url && q[k].depth <= depth;
    assert q[0].depth <= q[k].depth;
  }

  lemma QueueTail(web: Web, seeds: seq<string>, q: seq<Item>)
    requires QueueKept(web, seeds, q) && q != []
    ensures QueueKept(web, seeds, q[1..])
    ensures forall i :: 0 <= i < |q[1..]| ==> q[0].depth <= q[1..][i].depth <= q[0].depth + 1
  {
    var t := q[1..];
    forall i, j | 0 <= i <= j < |t|
      ensures t[i].depth <= t[j].depth <= t[0].depth + 1
    {
      assert q[i + 1].depth <= q[j + 1].depth <= q[0].depth + 1 && q[0].depth <= q[1].depth;
    }
  }

  lemma QueuedElsewhere(q: seq<Item>, url: string, depth: int)
    requires q != [] && q[0].url != url && Queued(q, url, depth)
    ensures Queued(q[1..], url, depth)
  {
    var i :| 0 <= i < |q| && q[i].url == url && q[i].depth <= depth;
    assert q[1..][i - 1] == q[i];
  }

  lemma FrontierTail(web: Web, seeds: seq<string>, q: seq<Item>, at: map<string, nat>)
    requires FrontierKept(web, seeds, q, at) && q != [] && q[0].url in at
    ensures FrontierKept(web, seeds, q[1..], at)
  {
    forall s | IsSeed(web, seeds, s)
      ensures s in at || Queued(q[1..], s, 0)
    {
      if s !in at {
        QueuedElsewhere(q, s, 0);
      }
    }
    forall u, v | u in at && at[u] < Limit(web) && v in Links(web, u)
      ensures v in at || Queued(q[1..], v, at[u] + 1)
    {
      if v !in at {
        QueuedElsewhere(q, v, at[u] + 1);
      }
    }
  }

  lemma DropVisited(web: Web, seeds: seq<string>, q: seq<Item>, at: map<string, nat>)
    requires Kept(web, seeds, q, at) && q != [] && q[0].url in at
    ensures Kept(web, seeds, q[1..], at)
  {
    QueueTail(web, seeds, q);
    FrontierTail(web, seeds, q, at);
    assert VisitedKept(web, seeds, q[1..], at);
  }

  // ---------------------------------------------------------------- one visit

  lemma {:induction false} UnvisitedAre(urls: seq<string>, visited: set<string>, depth: nat)
    ensures forall i :: 0 <= i < |Unvisited(urls, visited, depth)| ==>
              Unvisited(urls, visited, depth)[i].depth == depth && Unvisited(urls, visited, depth)[i].url in urls
    ensures forall u :: u in urls && u !in visited ==> Queued(Unvisited(urls, visited, depth), u, depth)
  {
    if urls != [] {
      var n := |urls| - 1;
      UnvisitedAre(urls[..n], visited, depth);
      assert urls == urls[..n] + [urls[n]];
      var before, all := Unvisited(urls[..n], visited, depth), Unvisited(urls, visited, depth);
      forall u | u in urls && u !in visited
        ensures Queued(all, u, depth)
      {
        if u in urls[..n] {
          var i :| 0 <= i < |before| && before[i].url == u && before[i].depth <= depth;
          assert all[i] == before[i];
        } else {
          assert all[|before|] == Item(u, depth);
        }
      }
    }
  }

  lemma {:induction false} FollowedNormalized(web: Web, links: seq<string>, url: string)
    requires IdempotentNormalize(web)
    ensures forall v :: v in Followed(web, links, url) ==> web.normalize(v) == v
  {
    if links != [] {
      FollowedNormalized(web, links[..|links| - 1], url);
    }
  }

  lemma NewItemKept(web: Web, seeds: seq<string>, url: string, depth: nat, v: string)
    requires IdempotentNormalize(web) && AtDistance(web, seeds, url, depth) && depth < Limit(web) && v in Links(web, url)
    ensures ItemKept(web, seeds, Item(v, depth + 1))
  {
    FollowedNormalized(web, web.fetch(url).links, url);
    var p :| RouteTo(web, seeds, p, url) && |p| == depth + 1;
    RouteExtends(web, seeds, p, v);
    assert RouteTo(web, seeds, p + [v], v);
  }

  lemma QueueAfterVisit(web: Web, seeds: seq<string>, q: seq<Item>, url: string, depth: nat, visited: set<string>)
    requires IdempotentNormalize(web) && QueueKept(web, seeds, q) && q != [] && q[0] == Item(url, depth)
    requires AtDistance(web, seeds, url, depth)
    ensures QueueKept(web, seeds, q[1..] + Enqueued(web, url, depth, visited))
  {
    QueueTail(web, seeds, q);
    var more := Enqueued(web, url, depth, visited);
    UnvisitedAre(Links(web, url), visited, depth + 1);
    forall i | 0 <= i < |more|
      ensures ItemKept(web, seeds, more[i])
    {
      NewItemKept(web, seeds, url, depth, more[i].url);
    }
    QueueAppend(web, seeds, q[1..], more, depth);
  }

  lemma QueueAppend(web: Web, seeds: seq<string>, a: seq<Item>, b: seq<Item>, depth: nat)
    requires QueueKept(web, seeds, a) && forall i :: 0 <= i < |a| ==> depth <= a[i].depth <= depth + 1
    requires forall i :: 0 <= i < |b| ==> b[i].depth == depth + 1 && ItemKept(web, seeds, b[i])
    ensures QueueKept(web, seeds, a + b)
  {
    var t := a + b;
    forall i, j | 0 <= i <= j < |t|
      ensures t[i].depth <= t[j].depth <= t[0].depth + 1
    {
      if j < |a| {
        assert a[i].depth <= a[j].depth <= a[0].depth + 1;
      }
    }
  }

  lemma QueuedInBoth(a: seq<Item>, b: seq<Item>, url: string, depth: int)
    requires Queued(a, url, depth) || Queued(b, url, depth)
    ensures Queued(a + b, url, depth)
  {
    var all := a + b;
    if Queued(a, url, depth) {
      var i :| 0 <= i < |a| && a[i].url == url && a[i].depth <= depth;
      assert all[i] == a[i];
    } else {
      var i :| 0 <= i < |b| && b[i].url == url && b[i].depth <= depth;
      assert all[|a| + i] == b[i];
    }
  }

  lemma FrontierAfterVisit(web: Web, seeds: seq<string>, q: seq<Item>, at: map<string, nat>, url: string, depth: nat)
    requires FrontierKept(web, seeds, q, at) && q != [] && q[0] == Item(url, depth) && url !in at
    ensures FrontierKept(web, seeds, q[1..] + Enqueued(web, url, depth, at.Keys + {url}), at[url := depth])
  {
    var more := Enqueued(web, url, depth, at.Keys + {url});
    var t, after := q[1..] + more, at[url := depth];
    UnvisitedAre(Links(web, url), at.Keys + {url}, depth + 1);
    forall s | IsSeed(web, seeds, s)
      ensures s in after || Queued(t, s, 0)
    {
      if s !in after {
        QueuedElsewhere(q, s, 0);
        QueuedInBoth(q[1..], more, s, 0);
      }
    }
    forall u, v | u in after && after[u] < Limit(web) && v in Links(web, u)
      ensures v in after || Queued(t, v, after[u] + 1)
    {
      if v !in after {
        if u == url {
          QueuedInBoth(q[1..], more, v, depth + 1);
        } else {
          QueuedElsewhere(q, v, at[u] + 1);
          QueuedInBoth(q[1..], more, v, at[u] + 1);
        }
      }
    }
  }

  /** The queue after a visit to its unvisited front. */
  function NextItems(web: Web, q: seq<Item>, visited: set<string>): seq<Item>
    requires q != []
  {
    q[1..] + Enqueued(web, q[0].url, q[0].depth, visited + {q[0].url})
  }

  lemma VisitKept(web: Web, seeds: seq<string>, q: seq<Item>, at: map<string, nat>)
    requires IdempotentNormalize(web) && Kept(web, seeds, q, at) && q != [] && q[0].url !in at
    ensures Kept(web, seeds, NextItems(web, q, at.Keys), at[q[0].url := q[0].depth])
  {
    var url, depth := q[0].url, q[0].depth;
    VisitedFront(web, seeds, q, at);
    QueueAfterVisit(web, seeds, q, url, depth, at.Keys + {url});
    FrontierAfterVisit(web, seeds, q, at, url, depth);
    VisitedAfterVisit(web, seeds, q, at, url, depth);
  }

  lemma VisitedFront(web: Web, seeds: seq<string>, q: seq<Item>, at: map<string, nat>)
    requires Kept(web, seeds, q, at) && q != [] && q[0].url !in at
    ensures AtDistance(web, seeds, q[0].url, q[0].depth) && q[0].depth <= Limit(web)
  {
    FrontIsAtDistance(web, seeds, q, at);
    assert ItemKept(web, seeds, q[0]);
  }

  /** The front of the queue never falls below the depth of a visit. */
  lemma NextIsNoNearer(web: Web, seeds: seq<string>, q: seq<Item>, visited: set<string>)
    requires QueueKept(web, seeds, q) && q != []
    ensures NextItems(web, q, visited) != [] ==> q[0].depth <= NextItems(web, q, visited)[0].depth
  {
    QueueTail(web, seeds, q);
    UnvisitedAre(Links(web, q[0].url), visited + {q[0].url}, q[0].depth + 1);
  }

  lemma VisitedAfterVisit(web: Web, seeds: seq<string>, q: seq<Item>, at: map<string, nat>, url: string, depth: nat)
    requires QueueKept(web, seeds, q) && VisitedKept(web, seeds, q, at) && q != [] && q[0] == Item(url, depth)
    requires AtDistance(web, seeds, url, depth) && depth <= Limit(web)
    ensures VisitedKept(web, seeds, q[1..] + Enqueued(web, url, depth, at.Keys + {url}), at[url := depth])
  {
    QueueTail(web, seeds, q);
    UnvisitedAre(Links(web, url), at.Keys + {url}, depth + 1);
  }

  // ---------------------------------------------------------------- whole crawls

  /** Queue and visited set of the loop after `n` rounds. */
  function LoopAt(web: Web, seeds: seq<string>, n: nat): (seq<Item>, set<string>) {
    if n == 0 then (SeedItems(web, seeds), {})
    else
      var (q, visited) := LoopAt(web, seeds, n - 1);
      if q == [] then (q, visited)
      else if q[0].url in visited then (q[1..], visited)
      else (NextItems(web, q, visited), visited + {q[0].url})
  }

  lemma {:induction false} LoopKept(web: Web, seeds: seq<string>, n: nat) returns (at: map<string, nat>)
    requires IdempotentNormalize(web)
    ensures at.Keys == LoopAt(web, seeds, n).1 && Kept(web, seeds, LoopAt(web, seeds, n).0, at)
  {
    if n == 0 {
      at := map[];
      StartIsKept(web, seeds);
    } else {
      var before := LoopKept(web, seeds, n - 1);
      at := RoundKept(web, seeds, LoopAt(web, seeds, n - 1).0, before);
    }
  }

  lemma RoundKept(web: Web, seeds: seq<string>, q: seq<Item>, at: map<string, nat>) returns (after: map<string, nat>)
    requires IdempotentNormalize(web) && Kept(web, seeds, q, at)
    ensures if q == [] then after == at
            else if q[0].url in at then after == at && Kept(web, seeds, q[1..], after)
            else after.Keys == at.Keys + {q[0].url} && Kept(web, seeds, NextItems(web, q, at.Keys), after)
  {
    after := at;
    if q != [] && q[0].url in at {
      DropVisited(web, seeds, q, at);
    } else if q != [] {
      VisitKept(web, seeds, q, at);
      after := at[q[0].url := q[0].depth];
    }
  }

  /** A queue and a visited set that the loop passes through. */
  ghost predicate Consistent(web: Web, seeds: seq<string>, q: seq<Item>, visited: set<string>) {
    exists n: nat :: LoopAt(web, seeds, n) == (q, visited) && IdempotentNormalize(web)
  }

  lemma ConsistentKept(web: Web, seeds: seq<string>, q: seq<Item>, visited: set<string>) returns (at: map<string, nat>)
    requires Consistent(web, seeds, q, visited)
    ensures at.Keys == visited && Kept(web, seeds, q, at) && IdempotentNormalize(web)
  {
    var n: nat :| LoopAt(web, seeds, n) == (q, visited) && IdempotentNormalize(web);
    at := LoopKept(web, seeds, n);
  }

  lemma ConsistentSkip(web: Web, seeds: seq<string>, q: seq<Item>, visited: set<string>)
    requires Consistent(web, seeds, q, visited) && q != [] && q[0].url in visited
    ensures Consistent(web, seeds, q[1..], visited)
  {
    var n: nat :| LoopAt(web, seeds, n) == (q, visited) && IdempotentNormalize(web);
    assert LoopAt(web, seeds, n + 1) == (q[1..], visited);
  }

  lemma ConsistentTake(web: Web, seeds: seq<string>, q: seq<Item>, visited: set<string>)
    requires Consistent(web, seeds, q, visited) && q != [] && q[0].url !in visited
    ensures Consistent(web, seeds, NextItems(web, q, visited), visited + {q[0].url})
  {
    var n: nat :| LoopAt(web, seeds, n) == (q, visited) && IdempotentNormalize(web);
    assert LoopAt(web, seeds, n + 1) == (NextItems(web, q, visited), visited + {q[0].url});
  }

  lemma FrontIsNormal(web: Web, seeds: seq<string>, q: seq<Item>, visited: set<string>)
    requires Consistent(web, seeds, q, visited) && q != []
    ensures web.normalize(q[0].url) == q[0].url
    ensures |q| > 1 ==> q[0].depth <= q[1].depth
  {
    var at := ConsistentKept(web, seeds, q, visited);
    assert ItemKept(web, seeds, q[0]);
  }

  lemma FrontIsNext(web: Web, seeds: seq<string>, q: seq<Item>, visited: set<string>)
    requires Consistent(web, seeds, q, visited) && q != [] && q[0].url !in visited
    ensures AtDistance(web, seeds, q[0].url, q[0].depth) && q[0].depth <= Limit(web)
    ensures NextItems(web, q, visited) != [] ==> q[0].depth <= NextItems(web, q, visited)[0].depth
  {
    var at := ConsistentKept(web, seeds, q, visited);
    VisitedFront(web, seeds, q, at);
    NextIsNoNearer(web, seeds, q, visited);
  }

  /** `vs` lists pages not in `visited`, each once, each at its distance, in nondecreasing distance. */
  ghost predicate InBreadthFirstOrder(web: Web, seeds: seq<string>, visited: set<string>, from: nat, vs: seq<Item>) {
    && (forall i :: 0 <= i < |vs| ==>
          vs[i].url !in visited && AtDistance(web, seeds, vs[i].url, vs[i].depth) && from <= vs[i].depth <= Limit(web))
    && forall i, j :: 0 <= i < j < |vs| ==> vs[i].url != vs[j].url && vs[i].depth <= vs[j].depth
  }

  predicate Lists(vs: seq<Item>, url: string) {
    exists i :: 0 <= i < |vs| && vs[i].url == url
  }

  ghost predicate WithinReach(web: Web, seeds: seq<string>, url: string) {
    exists p :: RouteTo(web, seeds, p, url) && (|p| == 1 || (web.followLinks && |p| <= web.depth + 1))
  }

  lemma OrderPrepend(web: Web, seeds: seq<string>, visited: set<string>, seen: set<string>, from: nat, first: Item, vs: seq<Item>)
    requires seen == visited + {first.url}
    requires AtDistance(web, seeds, first.url, first.depth) && from <= first.depth <= Limit(web) && first.url !in visited
    requires InBreadthFirstOrder(web, seeds, seen, first.depth, vs)
    ensures InBreadthFirstOrder(web, seeds, visited, from, [first] + vs)
  {
    var all := [first] + vs;
    forall i | 0 <= i < |all|
      ensures all[i].url !in visited && AtDistance(web, seeds, all[i].url, all[i].depth) && from <= all[i].depth <= Limit(web)
    {
      assert i > 0 ==> all[i] == vs[i - 1];
    }
    forall i, j | 0 <= i < j < |all|
      ensures all[i].url != all[j].url && all[i].depth <= all[j].depth
    {
      assert all[j] == vs[j - 1] && (i > 0 ==> all[i] == vs[i - 1]);
    }
  }

  lemma VisitsSkip(web: Web, q: seq<Item>, visited: set<string>, room: nat)
    requires q != [] && q[0].url in visited && web.normalize(q[0].url) == q[0].url
    ensures Visits(web, q, visited, room) == Visits(web, q[1..], visited, room)
  {
  }

  lemma VisitsTake(web: Web, q: seq<Item>, visited: set<string>, room: nat, rest: seq<Item>)
    requires q != [] && room > 0 && q[0].url !in visited && web.normalize(q[0].url) == q[0].url
    requires rest == Visits(web, NextItems(web, q, visited), visited + {q[0].url}, room - 1)
    ensures Visits(web, q, visited, room) == [q[0]] + rest
  {
  }

  /** The same order, told from the front. */
  ghost predicate GoesOutward(web: Web, seeds: seq<string>, visited: set<string>, from: nat, vs: seq<Item>)
    decreases |vs|
  {
    vs == [] ||
    (&& vs[0].url !in visited && AtDistance(web, seeds, vs[0].url, vs[0].depth) && from <= vs[0].depth <= Limit(web)
     && GoesOutward(web, seeds, visited + {vs[0].url}, vs[0].depth, vs[1..]))
  }

  lemma SkipFront(web: Web, seeds: seq<string>, q: seq<Item>, visited: set<string>, room: nat) returns (next: seq<Item>)
    requires Consistent(web, seeds, q, visited) && q != [] && q[0].url in visited
    ensures Consistent(web, seeds, next, visited) && |next| < |q| && (next != [] ==> q[0].depth <= next[0].depth)
    ensures Visits(web, q, visited, room) == Visits(web, next, visited, room)
  {
    FrontIsNormal(web, seeds, q, visited);
    ConsistentSkip(web, seeds, q, visited);
    VisitsSkip(web, q, visited, room);
    next := q[1..];
  }

  lemma TakeFront(web: Web, seeds: seq<string>, q: seq<Item>, visited: set<string>, room: nat)
      returns (next: seq<Item>, seen: set<string>, left: nat)
    requires Consistent(web, seeds, q, visited) && q != [] && q[0].url !in visited && room > 0
    ensures Consistent(web, seeds, next, seen) && (next != [] ==> q[0].depth <= next[0].depth)
    ensures seen == visited + {q[0].url} && left < room
    ensures Visits(web, q, visited, room) == [q[0]] + Visits(web, next, seen, left)
  {
    next, seen, left := NextItems(web, q, visited), visited + {q[0].url}, room - 1;
    FrontIsNormal(web, seeds, q, visited);
    FrontIsNext(web, seeds, q, visited);
    ConsistentTake(web, seeds, q, visited);
    VisitsTake(web, q, visited, room, Visits(web, next, seen, left));
  }

  lemma {:induction false} OutwardIsInOrder(web: Web, seeds: seq<string>, visited: set<string>, from: nat, vs: seq<Item>)
    requires GoesOutward(web, seeds, visited, from, vs)
    ensures InBreadthFirstOrder(web, seeds, visited, from, vs)
    decreases |vs|
  {
    if vs != [] {
      OutwardIsInOrder(web, seeds, visited + {vs[0].url}, vs[0].depth, vs[1..]);
      OrderPrepend(web, seeds, visited, visited + {vs[0].url}, from, vs[0], vs[1..]);
      assert vs == [vs[0]] + vs[1..];
    }
  }

  lemma OutwardPrepend(web: Web, seeds: seq<string>, visited: set<string>, seen: set<string>, from: nat, first: Item, rest: seq<Item>)
    requires GoesOutward(web, seeds, visited, from, [first])
    requires seen == visited + {first.url} && GoesOutward(web, seeds, seen, first.depth, rest)
    ensures GoesOutward(web, seeds, visited, from, [first] + rest)
  {
    assert ([first] + rest)[1..] == rest;
  }

  lemma FrontGoesOutward(web: Web, seeds: seq<string>, q: seq<Item>, visited: set<string>, from: nat)
    requires Consistent(web, seeds, q, visited) && q != [] && q[0].url !in visited && from <= q[0].depth
    ensures GoesOutward(web, seeds, visited, from, [q[0]])
  {
    FrontIsNext(web, seeds, q, visited);
  }

  lemma {:induction false} VisitsGoOutward(web: Web, seeds: seq<string>, q: seq<Item>, visited: set<string>, room: nat, from: nat)
    requires Consistent(web, seeds, q, visited) && (q != [] ==> from <= q[0].depth)
    ensures GoesOutward(web, seeds, visited, from, Visits(web, q, visited, room))
    decreases room, |q|
  {
    if q != [] && room > 0 {
      if q[0].url in visited {
        var next := SkipFront(web, seeds, q, visited, room);
        VisitsGoOutward(web, seeds, next, visited, room, from);
      } else {
        FrontGoesOutward(web, seeds, q, visited, from);
        var next, seen, left := TakeFront(web, seeds, q, visited, room);
        VisitsGoOutward(web, seeds, next, seen, left, q[0].depth);
        OutwardPrepend(web, seeds, visited, seen, from, q[0], Visits(web, next, seen, left));
      }
    }
  }

  lemma VisitsInOrder(web: Web, seeds: seq<string>, q: seq<Item>, visited: set<string>, room: nat, from: nat)
    requires Consistent(web, seeds, q, visited) && (q != [] ==> from <= q[0].depth)
    ensures InBreadthFirstOrder(web, seeds, visited, from, Visits(web, q, visited, room))
  {
    VisitsGoOutward(web, seeds, q, visited, room, from);
    OutwardIsInOrder(web, seeds, visited, from, Visits(web, q, visited, room));
  }

  lemma NothingLeft(web: Web, seeds: seq<string>, visited: set<string>, url: string)
    requires Consistent(web, seeds, [], visited) && WithinReach(web, seeds, url)
    ensures url in visited
  {
    var p :| RouteTo(web, seeds, p, url) && (|p| == 1 || (web.followLinks && |p| <= web.depth + 1));
    var at := ConsistentKept(web, seeds, [], visited);
    RouteMeetsQueue(web, seeds, [], at, p);
  }

  function Urls(vs: seq<Item>): set<string> {
    if vs == [] then {} else {vs[0].url} + Urls(vs[1..])
  }

  lemma {:induction false} UrlsAreListed(vs: seq<Item>, url: string)
    ensures url in Urls(vs) <==> Lists(vs, url)
  {
    if vs != [] {
      var rest := vs[1..];
      UrlsAreListed(rest, url);
      assert vs[0] in vs && forall i :: 0 <= i < |rest| ==> rest[i] == vs[i + 1];
    }
  }

  /** The visited set when the loop ends. */
  function LastSeen(web: Web, q: seq<Item>, visited: set<string>, room: nat): set<string>
    decreases room, |q|
  {
    if q == [] || room == 0 then visited
    else
      var url := web.normalize(q[0].url);
      if url in visited then LastSeen(web, q[1..], visited, room)
      else
        var seen := visited + {url};
        LastSeen(web, q[1..] + Enqueued(web, url, q[0].depth, seen), seen, room - 1)
  }

  lemma {:induction false} LastSeenIs(web: Web, q: seq<Item>, visited: set<string>, room: nat)
    ensures LastSeen(web, q, visited, room) == visited + Urls(Visits(web, q, visited, room))
    decreases room, |q|
  {
    if q != [] && room > 0 {
      var url := web.normalize(q[0].url);
      if url in visited {
        LastSeenIs(web, q[1..], visited, room);
      } else {
        var seen := visited + {url};
        var next := q[1..] + Enqueued(web, url, q[0].depth, seen);
        LastSeenIs(web, next, seen, room - 1);
        UrlsAfter(visited, Item(url, q[0].depth), Visits(web, next, seen, room - 1));
      }
    }
  }

  lemma UrlsAfter(visited: set<string>, first: Item, rest: seq<Item>)
    ensures visited + {first.url} + Urls(rest) == visited + Urls([first] + rest)
  {
    assert ([first] + rest)[1..] == rest;
  }

  lemma Turn(web: Web, q: seq<Item>, visited: set<string>, room: nat)
      returns (q2: seq<Item>, visited2: set<string>, room2: nat)
    requires q != [] && web.normalize(q[0].url) == q[0].url && |Visits(web, q, visited, room)| < room
    ensures if q[0].url in visited then q2 == q[1..] && visited2 == visited && room2 == room
            else q2 == NextItems(web, q, visited) && visited2 == visited + {q[0].url} && room2 == room - 1
    ensures LastSeen(web, q, visited, room) == LastSeen(web, q2, visited2, room2)
    ensures |Visits(web, q2, visited2, room2)| < room2
  {
    if q[0].url in visited {
      q2, visited2, room2 := q[1..], visited, room;
    } else {
      q2, visited2, room2 := NextItems(web, q, visited), visited + {q[0].url}, room - 1;
    }
  }

  lemma ConsistentTurn(web: Web, seeds: seq<string>, q: seq<Item>, visited: set<string>, room: nat)
      returns (q2: seq<Item>, visited2: set<string>, room2: nat)
    requires Consistent(web, seeds, q, visited) && q != [] && |Visits(web, q, visited, room)| < room
    ensures Consistent(web, seeds, q2, visited2) && (room2 < room || (room2 == room && |q2| < |q|))
    ensures LastSeen(web, q, visited, room) == LastSeen(web, q2, visited2, room2)
    ensures |Visits(web, q2, visited2, room2)| < room2
  {
    FrontIsNormal(web, seeds, q, visited);
    if q[0].url in visited {
      ConsistentSkip(web, seeds, q, visited);
    } else {
      ConsistentTake(web, seeds, q, visited);
    }
    q2, visited2, room2 := Turn(web, q, visited, room);
  }

  /** A crawl that is not cut short ends with an empty queue. */
  lemma {:induction false} QueueRunsDry(web: Web, seeds: seq<string>, q: seq<Item>, visited: set<string>, room: nat)
    requires Consistent(web, seeds, q, visited) && |Visits(web, q, visited, room)| < room
    ensures Consistent(web, seeds, [], LastSeen(web, q, visited, room))
    decreases room, |q|
  {
    if q != [] {
      var q2, visited2, room2 := ConsistentTurn(web, seeds, q, visited, room);
      QueueRunsDry(web, seeds, q2, visited2, room2);
    }
  }

  /** A crawl that is not cut short visits everything within reach. */
  lemma NothingIsMissed(web: Web, seeds: seq<string>, q: seq<Item>, visited: set<string>, room: nat, url: string)
    requires Consistent(web, seeds, q, visited) && WithinReach(web, seeds, url)
    requires |Visits(web, q, visited, room)| < room
    ensures url in visited || Lists(Visits(web, q, visited, room), url)
  {
    QueueRunsDry(web, seeds, q, visited, room);
    NothingLeft(web, seeds, LastSeen(web, q, visited, room), url);
    LastSeenIs(web, q, visited, room);
    UrlsAreListed(Visits(web, q, visited, room), url);
  }

  /** More room continues the same sequence of visits. */
  lemma {:induction false} CapCutsTail(web: Web, q: seq<Item>, visited: set<string>, m: nat, n: nat)
    requires m <= n
    ensures Visits(web, q, visited, m) <= Visits(web, q, visited, n)
    ensures |Visits(web, q, visited, m)| == if |Visits(web, q, visited, n)| < m then |Visits(web, q, visited, n)| else m
    decreases n, |q|
  {
    if q != [] && m > 0 {
      var url := web.normalize(q[0].url);
      if url in visited {
        CapCutsTail(web, q[1..], visited, m, n);
      } else {
        CapCutsTail(web, q[1..] + Enqueued(web, url, q[0].depth, visited + {url}), visited + {url}, m - 1, n - 1);
      }
    }
  }

  lemma {:induction false} SeedItemsAre(web: Web, seeds: seq<string>)
    ensures |SeedItems(web, seeds)| == |seeds|
    ensures forall i :: 0 <= i < |seeds| ==> SeedItems(web, seeds)[i] == Item(web.normalize(seeds[i]), 0)
  {
    if seeds != [] {
      SeedItemsAre(web, seeds[..|seeds| - 1]);
    }
  }

  lemma StartIsKept(web: Web, seeds: seq<string>)
    requires IdempotentNormalize(web)
    ensures Kept(web, seeds, SeedItems(web, seeds), map[])
  {
    var q := SeedItems(web, seeds);
    SeedItemsAre(web, seeds);
    forall i | 0 <= i < |q|
      ensures ItemKept(web, seeds, q[i])
    {
      assert IsSeed(web, seeds, q[i].url);
      assert RouteTo(web, seeds, [q[i].url], q[i].url);
    }
    forall s | IsSeed(web, seeds, s)
      ensures Queued(q, s, 0)
    {
      var i :| 0 <= i < |seeds| && web.normalize(seeds[i]) == s;
      assert q[i].url == s;
    }
  }

  /** What a crawl returns: pages within reach, each once, at nondecreasing distance from the seeds; all
      of them unless the cap cuts it short; and with a smaller cap a prefix of the same sequence. */
  lemma CrawlIsBreadthFirst(web: Web, seeds: seq<string>, maxPages: int)
    requires IdempotentNormalize(web)
    ensures var vs := Visits(web, SeedItems(web, seeds), {}, Room(maxPages));
            && InBreadthFirstOrder(web, seeds, {}, 0, vs)
            && (|vs| < Room(maxPages) ==> forall url :: Lists(vs, url) <==> WithinReach(web, seeds, url))
            && (forall m: nat :: m <= Room(maxPages) ==> IsPrefixOf(Visits(web, SeedItems(web, seeds), {}, m), vs, m))
  {
    var q := SeedItems(web, seeds);
    var vs := Visits(web, q, {}, Room(maxPages));
    assert LoopAt(web, seeds, 0) == (q, {});
    VisitsInOrder(web, seeds, q, {}, Room(maxPages), 0);
    if |vs| < Room(maxPages) {
      forall url
        ensures Lists(vs, url) <==> WithinReach(web, seeds, url)
      {
        if WithinReach(web, seeds, url) {
          NothingIsMissed(web, seeds, q, {}, Room(maxPages), url);
        }
        if Lists(vs, url) {
          var i :| 0 <= i < |vs| && vs[i].url == url;
          assert AtDistance(web, seeds, url, vs[i].depth);
        }
      }
    }
    forall m: nat | m <= Room(maxPages)
      ensures IsPrefixOf(Visits(web, q, {}, m), vs, m)
    {
      CapCutsTail(web, q, {}, m, Room(maxPages));
    }
  }

  lemma LinkWithinReach(web: Web, seeds: seq<string>, from: string, depth: nat, to: string)
    requires AtDistance(web, seeds, from, depth) && web.followLinks && depth < web.depth && HasLink(web, from, to)
    ensures WithinReach(web, seeds, to)
  {
    var p :| RouteTo(web, seeds, p, from) && |p| == depth + 1;
    LinksIff(web, from, to);
    RouteExtends(web, seeds, p, to);
    assert RouteTo(web, seeds, p + [to], to);
  }

  /** A crawl that the cap does not cut short leaves no link above the depth limit unfollowed: wherever a page
      was fetched, its links to the same host are pages too. */
  lemma LinksAreFollowed(web: Web, seeds: seq<string>, maxPages: int, i: nat, link: string)
    requires IdempotentNormalize(web)
    requires var vs := Visits(web, SeedItems(web, seeds), {}, Room(maxPages));
             && i < |vs| < maxPages && web.followLinks && vs[i].depth < web.depth
             && !web.blocked(vs[i].url) && web.fetch(vs[i].url).Fetched? && link in web.fetch(vs[i].url).links
             && web.host(link).Some? && web.host(link) == web.host(vs[i].url)
    ensures var pages := PagesOf(web, Visits(web, SeedItems(web, seeds), {}, Room(maxPages)));
            exists j :: 0 <= j < |pages| && pages[j].url == web.normalize(link)
  {
    var vs := Visits(web, SeedItems(web, seeds), {}, Room(maxPages));
    CrawlIsBreadthFirst(web, seeds, maxPages);
    var k :| 0 <= k < |web.fetch(vs[i].url).links| && web.fetch(vs[i].url).links[k] == link;
    assert IsLink(web, web.fetch(vs[i].url).links[k], vs[i].url, web.normalize(link));
    LinkWithinReach(web, seeds, vs[i].url, vs[i].depth, web.normalize(link));
    var j :| 0 <= j < |vs| && vs[j].url == web.normalize(link);
    assert PagesOf(web, vs)[j].url == web.normalize(link);
  }

  ghost predicate KeepsHosts(web: Web) {
    forall u :: web.host(web.normalize(u)) == web.host(u)
  }

  predicate OnSeedHost(web: Web, seeds: seq<string>, url: string) {
    exists k :: 0 <= k < |seeds| && web.host(seeds[k]) == web.host(url)
  }

  lemma {:induction false} RouteStaysOnHost(web: Web, seeds: seq<string>, p: seq<string>)
    requires KeepsHosts(web) && IsRoute(web, seeds, p)
    ensures OnSeedHost(web, seeds, p[|p| - 1])
    decreases |p|
  {
    var n := |p| - 1;
    if n == 0 {
      var k :| 0 <= k < |seeds| && web.normalize(seeds[k]) == p[0];
      assert web.host(seeds[k]) == web.host(p[0]);
    } else {
      RoutePrefix(web, seeds, p, n);
      RouteStaysOnHost(web, seeds, p[..n]);
      assert HasLink(web, p[n - 1], p[n - 1 + 1]);
    }
  }

  /** If normalizing keeps the host, a crawl never leaves the hosts of its seeds. */
  lemma CrawlStaysOnHosts(web: Web, seeds: seq<string>, maxPages: int)
    requires IdempotentNormalize(web) && KeepsHosts(web)
    ensures forall page :: page in PagesOf(web, Visits(web, SeedItems(web, seeds), {}, Room(maxPages))) ==>
              exists k :: 0 <= k < |seeds| && web.host(page.url) == web.host(seeds[k])
  {
    var vs := Visits(web, SeedItems(web, seeds), {}, Room(maxPages));
    CrawlIsBreadthFirst(web, seeds, maxPages);
    forall i | 0 <= i < |vs|
      ensures exists k :: 0 <= k < |seeds| && web.host(vs[i].url) == web.host(seeds[k])
    {
      assert AtDistance(web, seeds, vs[i].url, vs[i].depth);
      var p :| RouteTo(web, seeds, p, vs[i].url) && |p| == vs[i].depth + 1;
      RouteStaysOnHost(web, seeds, p);
      var k :| 0 <= k < |seeds| && web.host(seeds[k]) == web.host(vs[i].url);
    }
  }

  /** `a` is the first `m` elements of `b`, or all of it when it is shorter. */
  predicate IsPrefixOf(a: seq<Item>, b: seq<Item>, m: nat) {
    a <= b && |a| == if |b| < m then |b| else m
  }
}
