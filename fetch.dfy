/**
  The paginated fetch-with-dedup loop shared by utils/getAllCandidates.js,
  utils/getAllAttachments.js, utils/getAllJobs.js and utils/getAllApplications.js.

  The HTTP layer is a sequence of outcomes, one per attempt (`page += 1; axios.get(nextUrl)`):
  a page (body and `Link` header) or an error. Items are deduplicated by `id` into `byId`
  (first occurrence wins, later ones go to `duplicates`); the next URL is the `next`
  relation of the `Link` header; a 429 with a usable `retry-after` or a future
  `x-ratelimit-reset` re-requests the same URL; every other error is rethrown.
*/
module Fetch {
  import opened Wrappers
  import opened Js
  import LinkHeader

  /** One element of a response body: its `id` field and the whole record. */
  datatype Item<T> = Item(id: Value, data: T)

  /** `res.data`: an array of records, or anything else (treated as an empty page). */
  datatype Body<T> = Array(items: seq<Item<T>>) | NotArray

  /**
    What one request attempt produced. For an HTTP error, `retryAfter` and `reset` are
    `Number(...)` of the `retry-after` and `x-ratelimit-reset` headers (`None` for NaN),
    and `nowMs` is `Date.now()` when the error is handled.
  */
  datatype Outcome<T> =
    | Page(body: Body<T>, link: Option<string>)
    | HttpError(status: int, retryAfter: Option<int>, reset: Option<int>, nowMs: int)
    | NetworkError

  /** The records a body yields: `Array.isArray(res.data) ? res.data : []`. */
  function ItemsOf<T>(b: Body<T>): seq<Item<T>> {
    if b.Array? then b.items else []
  }

  /**
    How long the 429 branch waits before re-requesting the same URL, or `None` when the
    error is rethrown: any non-429 error, and a 429 with neither usable header.
  */
  function RetryDelay<T>(o: Outcome<T>): (ms: Option<int>)
    ensures ms.Some? ==> ms.value > 0
    ensures ms.Some? <==>
      && o.HttpError? && o.status == 429
      && ((o.retryAfter.Some? && o.retryAfter.value > 0) || (o.reset.Some? && o.reset.value * 1000 > o.nowMs))
  {
    match o
    case HttpError(status, retryAfter, reset, nowMs) =>
      if status != 429 then None
      else if retryAfter.Some? && retryAfter.value > 0 then Some(retryAfter.value * 1000)
      else if reset.Some? && reset.value * 1000 > nowMs then Some(reset.value * 1000 - nowMs)
      else None
    case _ => None
  }

  /** `parseLinkHeader(res.headers.link).next ?? null`. */
  function NextLink(link: Option<string>): (next: Option<string>)
    ensures next.Some? <==> "next" in LinkHeader.Rels(link)
    ensures next.Some? ==> next.value == LinkHeader.Rels(link)["next"]
    ensures link.None? || link == Some("") ==> next.None?
  {
    var rels := LinkHeader.Rels(link);
    if "next" in rels then Some(rels["next"]) else None
  }

  /**
    The next URL read from the comma pieces of a non-empty `Link` header: there is one exactly
    when some piece's match has the relation `next`, and it is the url of the last such piece.
  */
  lemma NextLinkLastPiece(header: string)
    requires header != ""
    ensures var parts := Split(header, ',');
      NextLink(Some(header)).Some? <==> LinkHeader.SomeNames(parts, "next")
    ensures var parts := Split(header, ',');
      NextLink(Some(header)).Some? ==>
        exists k :: 0 <= k < |parts| && LinkHeader.Names(parts[k], "next")
          && LinkHeader.MatchSegment(parts[k]).value.0 == NextLink(Some(header)).value
          && forall j :: k < j < |parts| ==> !LinkHeader.Names(parts[j], "next")
  {
    var parts := Split(header, ',');
    assert LinkHeader.Rels(Some(header)) == LinkHeader.Fill(parts);
    LinkHeader.FillKeys(parts, "next");
    assert NextLink(Some(header)).Some? <==> "next" in LinkHeader.Fill(parts);
    if "next" in LinkHeader.Fill(parts) {
      var k := LinkHeader.FillLast(parts, "next");
      assert NextLink(Some(header)) == Some(LinkHeader.Fill(parts)["next"]);
    }
  }

  // ---------------------------------------------------------------------------------
  // Deduplication by id

  /** The `byId` map, its insertion order (a JavaScript `Map` iterates in that order) and `duplicates`. */
  datatype Dedup<T> = Dedup(byId: map<Value, Item<T>>, order: seq<Value>, duplicates: seq<Value>)

  function Empty<T>(): Dedup<T> {
    Dedup(map[], [], [])
  }

  /** Ids in `order` are pairwise distinct, are exactly the keys, key their own record, and are never null. */
  ghost predicate Valid<T>(d: Dedup<T>) {
    && (forall i, j :: 0 <= i < j < |d.order| ==> d.order[i] != d.order[j])
    && (forall id :: id in d.byId <==> id in d.order)
    && (forall id :: id in d.byId ==> d.byId[id].id == id && !IsNullish(id))
    && (forall k :: 0 <= k < |d.duplicates| ==> d.duplicates[k] in d.byId)
    && |d.byId| == |d.order|
  }

  /** One iteration of `for (const it of items)`. */
  function Step<T>(d: Dedup<T>, it: Item<T>): Dedup<T> {
    if IsNullish(it.id) then d
    else if it.id in d.byId then d.(duplicates := d.duplicates + [it.id])
    else Dedup(d.byId[it.id := it], d.order + [it.id], d.duplicates)
  }

  /** The state after absorbing `items` one by one. */
  function Absorb<T>(d: Dedup<T>, items: seq<Item<T>>): Dedup<T>
    decreases |items|
  {
    if items == [] then d else Step(Absorb(d, items[..|items| - 1]), items[|items| - 1])
  }

  /** How many of `items` have a non-null id. */
  function NonNullCount<T>(items: seq<Item<T>>): nat {
    if items == [] then 0
    else NonNullCount(items[..|items| - 1]) + (if IsNullish(items[|items| - 1].id) then 0 else 1)
  }

  /** The result list: `Array.from(byId.values())`, one record per id, in first-insertion order. */
  function Records<T>(d: Dedup<T>): (records: seq<Item<T>>)
    requires Valid(d)
    ensures |records| == |d.order|
    ensures forall k :: 0 <= k < |records| ==> records[k] == d.byId[d.order[k]] && records[k].id == d.order[k]
    ensures forall i, j :: 0 <= i < j < |records| ==> records[i].id != records[j].id
  {
    seq(|d.order|, k requires 0 <= k < |d.order| => d.byId[d.order[k]])
  }

  /** The ids of a record list, in order. */
  function Ids<T>(records: seq<Item<T>>): (ids: seq<Value>)
    ensures |ids| == |records| && forall k :: 0 <= k < |records| ==> ids[k] == records[k].id
  {
    seq(|records|, k requires 0 <= k < |records| => records[k].id)
  }

  /**
    The order in which `items` introduces new ids: each non-null id not in `seen`, at its
    first occurrence, in arrival order (read from the front, independently of `Absorb`).
  */
  function FirstSeen<T>(items: seq<Item<T>>, seen: seq<Value>): seq<Value>
    decreases |items|
  {
    if items == [] then []
    else if IsNullish(items[0].id) || items[0].id in seen then FirstSeen(items[1..], seen)
    else [items[0].id] + FirstSeen(items[1..], seen + [items[0].id])
  }

  /** Absorbing appends to the insertion order exactly the ids the items introduce, in first-seen order. */
  lemma {:induction false} AbsorbOrder<T>(d: Dedup<T>, items: seq<Item<T>>)
    requires Valid(d)
    ensures Absorb(d, items).order == d.order + FirstSeen(items, d.order)
    decreases |items|
  {
    if items == [] {
      assert d.order + [] == d.order;
    } else {
      var x := items[0];
      var rest := items[1..];
      AbsorbCons(d, x, rest);
      assert items == [x] + rest;
      AbsorbValid(d, [x]);
      AbsorbOrder(Step(d, x), rest);
      StepOrder(d, x, rest);
    }
  }

  /** Absorbing a list is taking its first step, then absorbing the rest. */
  lemma AbsorbCons<T>(d: Dedup<T>, x: Item<T>, rest: seq<Item<T>>)
    ensures Absorb(d, [x]) == Step(d, x)
    ensures Absorb(d, [x] + rest) == Absorb(Step(d, x), rest)
  {
    assert [x][..0] == [];
    AbsorbAppend(d, [x], rest);
  }

  /** One step extends the order by the id it introduces, as `FirstSeen` reads it from the front. */
  lemma StepOrder<T>(d: Dedup<T>, x: Item<T>, rest: seq<Item<T>>)
    requires Valid(d)
    ensures Step(d, x).order + FirstSeen(rest, Step(d, x).order) == d.order + FirstSeen([x] + rest, d.order)
  {
    assert ([x] + rest)[0] == x && ([x] + rest)[1..] == rest;
    if !IsNullish(x.id) && x.id !in d.order {
      assert Step(d, x).order == d.order + [x.id];
      assert FirstSeen([x] + rest, d.order) == [x.id] + FirstSeen(rest, d.order + [x.id]);
    } else {
      assert Step(d, x).order == d.order;
      assert FirstSeen([x] + rest, d.order) == FirstSeen(rest, d.order);
    }
  }

  /** The result of a run lists the records in the order their ids were first received. */
  lemma RecordsFirstSeen<T>(baseUrl: string, outcomes: seq<Outcome<T>>, p: Progress<T>)
    requires Replays(baseUrl, outcomes, p)
    ensures Ids(Records(p.dedup)) == FirstSeen(Received(outcomes[..p.page]), [])
  {
    AbsorbOrder(Empty(), Received(outcomes[..p.page]));
    assert [] + FirstSeen(Received(outcomes[..p.page]), []) == FirstSeen(Received(outcomes[..p.page]), []);
  }

  /** Absorbing keeps the state valid: ids stay unique. */
  lemma {:induction false} AbsorbValid<T>(d: Dedup<T>, items: seq<Item<T>>)
    requires Valid(d)
    ensures Valid(Absorb(d, items))
    decreases |items|
  {
    if items != [] {
      AbsorbValid(d, items[..|items| - 1]);
    }
  }

  /** Counts add up: every non-null item lands either in `byId` or in `duplicates`. */
  lemma {:induction false} AbsorbCounts<T>(d: Dedup<T>, items: seq<Item<T>>)
    requires Valid(d)
    ensures |Absorb(d, items).order| + |Absorb(d, items).duplicates| == |d.order| + |d.duplicates| + NonNullCount(items)
    ensures |Absorb(d, items).byId| == |Absorb(d, items).order|
    decreases |items|
  {
    if items != [] {
      AbsorbCounts(d, items[..|items| - 1]);
      AbsorbValid(d, items[..|items| - 1]);
    }
    AbsorbValid(d, items);
  }

  /** Ids already stored keep their record: a later occurrence never replaces it. */
  lemma {:induction false} AbsorbKeeps<T>(d: Dedup<T>, items: seq<Item<T>>, id: Value)
    requires id in d.byId
    ensures id in Absorb(d, items).byId && Absorb(d, items).byId[id] == d.byId[id]
    decreases |items|
  {
    if items != [] {
      AbsorbKeeps(d, items[..|items| - 1], id);
    }
  }

  /** First occurrence wins: an id not yet stored gets the record of its first non-null occurrence. */
  lemma {:induction false} AbsorbFirstWins<T>(d: Dedup<T>, items: seq<Item<T>>, k: nat)
    requires k < |items| && !IsNullish(items[k].id) && items[k].id !in d.byId
    requires forall j :: 0 <= j < k ==> items[j].id != items[k].id
    ensures items[k].id in Absorb(d, items).byId && Absorb(d, items).byId[items[k].id] == items[k]
    decreases |items|
  {
    var init := items[..|items| - 1];
    if k == |items| - 1 {
      assert items[k].id !in Absorb(d, init).byId by {
        AbsorbNoNewKey(d, init, items[k].id);
      }
    } else {
      AbsorbFirstWins(d, init, k);
      AbsorbKeeps(Absorb(d, init), [items[|items| - 1]], items[k].id);
      assert [items[|items| - 1]][..0] == [];
    }
  }

  /** An id becomes a key only by occurring in the absorbed items. */
  lemma {:induction false} AbsorbNoNewKey<T>(d: Dedup<T>, items: seq<Item<T>>, id: Value)
    requires id !in d.byId
    requires forall j :: 0 <= j < |items| ==> items[j].id != id
    ensures id !in Absorb(d, items).byId
    decreases |items|
  {
    if items != [] {
      AbsorbNoNewKey(d, items[..|items| - 1], id);
    }
  }

  /** Absorbing two lists in turn is absorbing their concatenation (pages chain). */
  lemma {:induction false} AbsorbAppend<T>(d: Dedup<T>, a: seq<Item<T>>, b: seq<Item<T>>)
    ensures Absorb(d, a + b) == Absorb(Absorb(d, a), b)
    decreases |b|
  {
    if b == [] {
      assert a + b == a;
    } else {
      assert (a + b)[..|a + b| - 1] == a + b[..|b| - 1];
      AbsorbAppend(d, a, b[..|b| - 1]);
    }
  }

  lemma {:induction false} NonNullCountAppend<T>(a: seq<Item<T>>, b: seq<Item<T>>)
    ensures NonNullCount(a + b) == NonNullCount(a) + NonNullCount(b)
    decreases |b|
  {
    if b == [] {
      assert a + b == a;
    } else {
      assert (a + b)[..|a + b| - 1] == a + b[..|b| - 1];
      NonNullCountAppend(a, b[..|b| - 1]);
    }
  }

  lemma {:induction false} NonNullCountBound<T>(items: seq<Item<T>>)
    ensures NonNullCount(items) <= |items|
  {
    if items != [] { NonNullCountBound(items[..|items| - 1]); }
  }

  // ---------------------------------------------------------------------------------
  // The page loop

  /** All records received on the pages among `outcomes`, in arrival order (errors contribute nothing). */
  function Received<T>(outcomes: seq<Outcome<T>>): seq<Item<T>> {
    if outcomes == [] then []
    else
      var last := outcomes[|outcomes| - 1];
      Received(outcomes[..|outcomes| - 1]) + AttemptItems(last)
  }

  /** An attempt after which the loop goes on: a page with a `next` link, or a retryable 429. */
  predicate Continues<T>(o: Outcome<T>) {
    (o.Page? && NextLink(o.link).Some?) || RetryDelay(o).Some?
  }

  /** The URL requested after attempt `o` at `url`: the `next` link of a page, the same URL after a 429. */
  function FollowUp<T>(o: Outcome<T>, url: string): string
    requires Continues(o)
  {
    if o.Page? then NextLink(o.link).value else url
  }

  /** The loop state: `byId`/`duplicates`, `totalFetched`, `page`, and the URLs requested so far. */
  datatype Progress<T> = Progress(dedup: Dedup<T>, totalFetched: nat, page: nat, requested: seq<string>)

  /** How a run ends: the result list; a rethrown error; or the scripted outcomes ran out while `nextUrl` was set. */
  datatype FetchResult<T> =
    | Done(records: seq<Item<T>>, progress: Progress<T>)
    | Failed(url: string, error: Outcome<T>, progress: Progress<T>)
    | Stalled(url: string, progress: Progress<T>)

  /**
    The state after the first `p.page` attempts replays them: one request per attempt, the
    first at `baseUrl`, each later one at the follow-up of the previous attempt; the dedup
    state and `totalFetched` reflect exactly the records of the pages received.
  */
  ghost predicate Replays<T>(baseUrl: string, outcomes: seq<Outcome<T>>, p: Progress<T>) {
    && p.page <= |outcomes|
    && |p.requested| == p.page
    && (p.page > 0 ==> p.requested[0] == baseUrl)
    && (forall k :: 0 <= k < p.page - 1 ==> Continues(outcomes[k]) && p.requested[k + 1] == FollowUp(outcomes[k], p.requested[k]))
    && Valid(p.dedup)
    && p.dedup == Absorb(Empty(), Received(outcomes[..p.page]))
    && p.totalFetched == |Received(outcomes[..p.page])|
  }

  /** The inner `for (const it of items)` loop of one page. */
  method AbsorbPage<T>(d: Dedup<T>, items: seq<Item<T>>) returns (d': Dedup<T>)
    ensures d' == Absorb(d, items)
  {
    d' := d;
    for i := 0 to |items|
      invariant d' == Absorb(d, items[..i])
    {
      assert items[..i + 1][..i] == items[..i];
      var it := items[i];
      if IsNullish(it.id) {
        // `if (id == null) continue;`
      } else if it.id in d'.byId {
        d' := d'.(duplicates := d'.duplicates + [it.id]);
      } else {
        d' := Dedup(d'.byId[it.id := it], d'.order + [it.id], d'.duplicates);
      }
    }
    assert items[..|items|] == items;
  }

  /** The URL of the next attempt is the follow-up of the previous one (or the base URL first). */
  ghost predicate NextRequest<T>(baseUrl: string, outcomes: seq<Outcome<T>>, p: Progress<T>, url: string)
    requires p.page <= |outcomes| && |p.requested| == p.page
  {
    (p.page == 0 ==> url == baseUrl)
    && (p.page > 0 ==> Continues(outcomes[p.page - 1]) && url == FollowUp(outcomes[p.page - 1], p.requested[p.page - 1]))
  }

  /** The page absorbed by an attempt that did not end the run: a page's items, nothing for a retried 429. */
  function AttemptItems<T>(o: Outcome<T>): seq<Item<T>> {
    if o.Page? then ItemsOf(o.body) else []
  }

  /** The requests chain of `p` extended by the next request `url` is still a chain of follow-ups. */
  lemma ChainExtends<T>(baseUrl: string, outcomes: seq<Outcome<T>>, p: Progress<T>, url: string)
    requires p.page < |outcomes| && |p.requested| == p.page
    requires forall k :: 0 <= k < p.page - 1 ==> Continues(outcomes[k]) && p.requested[k + 1] == FollowUp(outcomes[k], p.requested[k])
    requires NextRequest(baseUrl, outcomes, p, url)
    ensures
      var rq := p.requested + [url];
      forall k :: 0 <= k < p.page ==> Continues(outcomes[k]) && rq[k + 1] == FollowUp(outcomes[k], rq[k])
  {
    var rq := p.requested + [url];
    forall k | 0 <= k < p.page
      ensures Continues(outcomes[k]) && rq[k + 1] == FollowUp(outcomes[k], rq[k])
    {
      assert rq[k] == p.requested[k];
      if k < p.page - 1 {
        assert rq[k + 1] == p.requested[k + 1];
      }
    }
  }

  /** The records received over one more attempt are those received before plus the attempt's page. */
  lemma ReceivedExtends<T>(outcomes: seq<Outcome<T>>, n: nat)
    requires n < |outcomes|
    ensures Received(outcomes[..n + 1]) == Received(outcomes[..n]) + AttemptItems(outcomes[n])
    ensures Absorb(Empty(), Received(outcomes[..n + 1])) == Absorb(Absorb(Empty(), Received(outcomes[..n])), AttemptItems(outcomes[n]))
    ensures Valid(Absorb(Empty(), Received(outcomes[..n + 1])))
  {
    assert outcomes[..n + 1][..n] == outcomes[..n];
    AbsorbAppend(Empty(), Received(outcomes[..n]), AttemptItems(outcomes[n]));
    AbsorbValid(Empty(), Received(outcomes[..n + 1]));
  }

  /** Absorbing the page of the next attempt keeps the state a replay of the attempts. */
  lemma ReplaysAfterAttempt<T>(baseUrl: string, outcomes: seq<Outcome<T>>, p: Progress<T>, url: string)
    requires Replays(baseUrl, outcomes, p) && p.page < |outcomes|
    requires NextRequest(baseUrl, outcomes, p, url)
    ensures
      var items := AttemptItems(outcomes[p.page]);
      Replays(baseUrl, outcomes, Progress(Absorb(p.dedup, items), p.totalFetched + |items|, p.page + 1, p.requested + [url]))
  {
    ChainExtends(baseUrl, outcomes, p, url);
    ReceivedExtends(outcomes, p.page);
  }

  /**
    The invariant of `while (nextUrl)`: the attempts so far are replayed, and `nextUrl` is the
    base URL before the first attempt, then the `next` link of the last page or the URL of a
    retried 429; once set it is never empty.
  */
  ghost predicate Looping<T>(baseUrl: string, outcomes: seq<Outcome<T>>, p: Progress<T>, nextUrl: Option<string>) {
    Replays(baseUrl, outcomes, p) && Points(baseUrl, outcomes, p, nextUrl)
  }

  /** The `nextUrl` part of the loop invariant. */
  ghost predicate Points<T>(baseUrl: string, outcomes: seq<Outcome<T>>, p: Progress<T>, nextUrl: Option<string>)
    requires p.page <= |outcomes| && |p.requested| == p.page
  {
    && (p.page == 0 ==> nextUrl == Some(baseUrl))
    && (baseUrl == "" ==> p.page == 0)
    && (p.page > 0 && nextUrl.Some? ==> nextUrl.value != "")
    && (p.page > 0 && outcomes[p.page - 1].Page? ==> nextUrl == NextLink(outcomes[p.page - 1].link))
    && (p.page > 0 && !outcomes[p.page - 1].Page? ==>
          RetryDelay(outcomes[p.page - 1]).Some? && nextUrl == Some(p.requested[p.page - 1]))
  }

  /** The URL of the next attempt is the follow-up of the previous one (or the base URL first). */
  lemma LoopingRequest<T>(baseUrl: string, outcomes: seq<Outcome<T>>, p: Progress<T>, nextUrl: Option<string>)
    requires Looping(baseUrl, outcomes, p, nextUrl) && nextUrl.Some?
    ensures NextRequest(baseUrl, outcomes, p, nextUrl.value)
  {
  }

  /** After an attempt at `url` that does not end the run, `nextUrl` is what the loop body sets. */
  lemma PointsAfterAttempt<T>(baseUrl: string, outcomes: seq<Outcome<T>>, p: Progress<T>, url: string, q: Progress<T>, nextUrl': Option<string>)
    requires p.page < |outcomes| && |p.requested| == p.page
    requires Points(baseUrl, outcomes, p, Some(url)) && url != ""
    requires q.page == p.page + 1 && q.requested == p.requested + [url]
    requires outcomes[p.page].Page? || RetryDelay(outcomes[p.page]).Some?
    requires outcomes[p.page].Page? ==> nextUrl' == NextLink(outcomes[p.page].link)
    requires outcomes[p.page].Page? && nextUrl'.Some? ==> nextUrl'.value != ""
    requires !outcomes[p.page].Page? ==> nextUrl' == Some(url)
    ensures Points(baseUrl, outcomes, q, nextUrl')
  {
  }

  /** An attempt that does not end the run keeps the invariant, with `nextUrl` updated as the loop body does. */
  lemma LoopingAfterAttempt<T>(baseUrl: string, outcomes: seq<Outcome<T>>, p: Progress<T>, url: string, nextUrl': Option<string>)
    requires Looping(baseUrl, outcomes, p, Some(url)) && url != "" && p.page < |outcomes|
    requires outcomes[p.page].Page? || RetryDelay(outcomes[p.page]).Some?
    requires outcomes[p.page].Page? ==> nextUrl' == NextLink(outcomes[p.page].link)
    requires outcomes[p.page].Page? && nextUrl'.Some? ==> nextUrl'.value != ""
    requires !outcomes[p.page].Page? ==> nextUrl' == Some(url)
    ensures
      var items := AttemptItems(outcomes[p.page]);
      Looping(baseUrl, outcomes, Progress(Absorb(p.dedup, items), p.totalFetched + |items|, p.page + 1, p.requested + [url]), nextUrl')
  {
    var items := AttemptItems(outcomes[p.page]);
    var q := Progress(Absorb(p.dedup, items), p.totalFetched + |items|, p.page + 1, p.requested + [url]);
    LoopingRequest(baseUrl, outcomes, p, Some(url));
    ReplaysAfterAttempt(baseUrl, outcomes, p, url);
    PointsAfterAttempt(baseUrl, outcomes, p, url, q, nextUrl');
  }

  /** An attempt that ends in a rethrown error: the state is a replay of all attempts including it. */
  lemma LoopingFailed<T>(baseUrl: string, outcomes: seq<Outcome<T>>, p: Progress<T>, url: string)
    requires Looping(baseUrl, outcomes, p, Some(url)) && p.page < |outcomes|
    requires !outcomes[p.page].Page? && RetryDelay(outcomes[p.page]).None?
    ensures Replays(baseUrl, outcomes, Progress(p.dedup, p.totalFetched, p.page + 1, p.requested + [url]))
  {
    LoopingRequest(baseUrl, outcomes, p, Some(url));
    ReplaysAfterAttempt(baseUrl, outcomes, p, url);
    assert Absorb(p.dedup, []) == p.dedup;
  }

  /** Leaving the loop: a run from a non-empty base URL stopped at a page without a `next` link. */
  lemma LoopingExit<T>(baseUrl: string, outcomes: seq<Outcome<T>>, p: Progress<T>, nextUrl: Option<string>)
    requires Looping(baseUrl, outcomes, p, nextUrl) && !(nextUrl.Some? && nextUrl.value != "")
    ensures baseUrl != "" ==> p.page > 0 && outcomes[p.page - 1].Page? && NextLink(outcomes[p.page - 1].link).None?
    ensures baseUrl == "" ==> p.page == 0 && p.dedup == Empty()
  {
    if baseUrl == "" {
      assert outcomes[..0] == [];
    }
  }

  /** What leaving the loop establishes about the result list. */
  lemma LoopingDone<T>(baseUrl: string, outcomes: seq<Outcome<T>>, p: Progress<T>, nextUrl: Option<string>)
    requires Looping(baseUrl, outcomes, p, nextUrl) && !(nextUrl.Some? && nextUrl.value != "")
    ensures Replays(baseUrl, outcomes, p)
    ensures Ids(Records(p.dedup)) == FirstSeen(Received(outcomes[..p.page]), [])
    ensures baseUrl != "" ==> p.page > 0 && outcomes[p.page - 1].Page? && NextLink(outcomes[p.page - 1].link).None?
    ensures baseUrl == "" ==> p.page == 0 && Records(p.dedup) == []
  {
    LoopingExit(baseUrl, outcomes, p, nextUrl);
    RecordsFirstSeen(baseUrl, outcomes, p);
  }

  /**
    One pass of the `while (nextUrl)` body at `url`: request it (consume the next outcome);
    a page is absorbed and `nextUrl` becomes its `next` link; a retryable 429 waits and keeps
    `nextUrl`; any other error is rethrown (`failure`).
  */
  method Attempt<T>(ghost baseUrl: string, outcomes: seq<Outcome<T>>, p: Progress<T>, url: string)
      returns (q: Progress<T>, nextUrl: Option<string>, failure: Option<Outcome<T>>)
    requires Looping(baseUrl, outcomes, p, Some(url)) && url != "" && p.page < |outcomes|
    ensures q.page == p.page + 1 && q.requested == p.requested + [url]
    ensures failure.None? ==> Looping(baseUrl, outcomes, q, nextUrl)
    ensures failure.Some? ==>
      && Replays(baseUrl, outcomes, q) && failure.value == outcomes[p.page]
      && !failure.value.Page? && RetryDelay(failure.value).None?
  {
    var o := outcomes[p.page];
    var d := p.dedup;
    var totalFetched := p.totalFetched;
    if o.Page? {
      var items := ItemsOf(o.body);
      d := AbsorbPage(d, items);
      totalFetched := totalFetched + |items|;
      var rels := LinkHeader.ParseLinkHeader(o.link);
      nextUrl := if "next" in rels then Some(rels["next"]) else None;
      failure := None;
    } else if RetryDelay(o).Some? {
      // wait RetryDelay(o) milliseconds (not modelled), then `continue` with the same URL
      assert Absorb(d, []) == d;
      nextUrl := Some(url);
      failure := None;
    } else {
      LoopingFailed(baseUrl, outcomes, p, url);
      nextUrl := Some(url);
      failure := Some(o);
    }
    q := Progress(d, totalFetched, p.page + 1, p.requested + [url]);
    if failure.None? {
      LoopingAfterAttempt(baseUrl, outcomes, p, url, nextUrl);
    }
  }

  /**
    What a run of the page loop returns: its final state replays every attempt; a finished
    run stopped at a page without a `next` link (or never started, for an empty base URL)
    and returns `Records`, in first-seen order; a failed run ends on the non-retryable error
    of its last attempt; a stalled run used up every outcome.
  */
  ghost predicate Fetched<T>(baseUrl: string, outcomes: seq<Outcome<T>>, r: FetchResult<T>) {
    && Replays(baseUrl, outcomes, r.progress)
    && (r.Done? ==> r.records == Records(r.progress.dedup))
    && (r.Done? ==> Ids(r.records) == FirstSeen(Received(outcomes[..r.progress.page]), []))
    && (r.Done? && baseUrl != "" ==>
          r.progress.page > 0 && outcomes[r.progress.page - 1].Page? && NextLink(outcomes[r.progress.page - 1].link).None?)
    && (r.Done? && baseUrl == "" ==> r.progress.page == 0 && r.records == [])
    && (r.Failed? ==>
          && r.progress.page > 0 && r.error == outcomes[r.progress.page - 1]
          && !r.error.Page? && RetryDelay(r.error).None?
          && r.url == r.progress.requested[r.progress.page - 1])
    && (r.Stalled? ==> r.progress.page == |outcomes|)
  }

  /** Leaving the loop because `nextUrl` is unset or empty finishes the run. */
  lemma DoneFetched<T>(baseUrl: string, outcomes: seq<Outcome<T>>, p: Progress<T>, nextUrl: Option<string>)
    requires Looping(baseUrl, outcomes, p, nextUrl) && !(nextUrl.Some? && nextUrl.value != "")
    ensures Fetched(baseUrl, outcomes, Done(Records(p.dedup), p))
  {
    LoopingDone(baseUrl, outcomes, p, nextUrl);
  }

  /** Rethrowing the error of the attempt at `url` fails the run. */
  lemma FailedFetched<T>(baseUrl: string, outcomes: seq<Outcome<T>>, p: Progress<T>, url: string, e: Outcome<T>)
    requires Replays(baseUrl, outcomes, p) && p.page > 0 && e == outcomes[p.page - 1]
    requires !e.Page? && RetryDelay(e).None? && p.requested[p.page - 1] == url
    ensures Fetched(baseUrl, outcomes, Failed(url, e, p))
  {
  }

  /** Running out of outcomes with a URL still to request stalls the run. */
  lemma StalledFetched<T>(baseUrl: string, outcomes: seq<Outcome<T>>, p: Progress<T>, url: string)
    requires Replays(baseUrl, outcomes, p) && p.page == |outcomes|
    ensures Fetched(baseUrl, outcomes, Stalled(url, p))
  {
  }

  /**
    The `while (nextUrl)` loop. Each attempt consumes the next outcome; a page is absorbed
    and its `next` link followed; a retryable 429 re-requests the same URL and changes
    nothing but `page`; any other error ends the run.
  */
  method PageLoop<T>(baseUrl: string, outcomes: seq<Outcome<T>>) returns (r: FetchResult<T>)
    ensures Fetched(baseUrl, outcomes, r)
  {
    var p: Progress<T> := Progress(Empty(), 0, 0, []);
    var nextUrl: Option<string> := Some(baseUrl);
    assert outcomes[..0] == [];
    while nextUrl.Some? && nextUrl.value != ""
      invariant Looping(baseUrl, outcomes, p, nextUrl)
      decreases |outcomes| - p.page
    {
      var url := nextUrl.value;
      if p.page == |outcomes| {
        StalledFetched(baseUrl, outcomes, p, url);
        return Stalled(url, p);
      }
      var failure;
      p, nextUrl, failure := Attempt(baseUrl, outcomes, p, url);
      if failure.Some? {
        FailedFetched(baseUrl, outcomes, p, url, failure.value);
        return Failed(url, failure.value, p);
      }
    }
    DoneFetched(baseUrl, outcomes, p, nextUrl);
    r := Done(Records(p.dedup), p);
  }

  /** The shared fetch loop of the four endpoints, from `baseUrl` over the scripted `outcomes`. */
  method FetchAll<T>(baseUrl: string, outcomes: seq<Outcome<T>>) returns (r: FetchResult<T>)
    ensures Replays(baseUrl, outcomes, r.progress)
    ensures r.Done? ==> r.records == Records(r.progress.dedup)
    ensures r.Done? ==> Ids(r.records) == FirstSeen(Received(outcomes[..r.progress.page]), [])
    ensures r.Done? && baseUrl != "" ==>
      r.progress.page > 0 && outcomes[r.progress.page - 1].Page? && NextLink(outcomes[r.progress.page - 1].link).None?
    ensures r.Done? && baseUrl == "" ==> r.progress.page == 0 && r.records == []
    ensures r.Failed? ==>
      && r.progress.page > 0 && r.error == outcomes[r.progress.page - 1]
      && !r.error.Page? && RetryDelay(r.error).None?
      && r.url == r.progress.requested[r.progress.page - 1]
    ensures r.Stalled? ==> r.progress.page == |outcomes|
  {
    r := PageLoop(baseUrl, outcomes);
  }

  /** Summary of a finished run: unique ids, counts that add up, and `totalFetched` counting null ids too. */
  lemma FetchTotals<T>(baseUrl: string, outcomes: seq<Outcome<T>>, p: Progress<T>)
    requires Replays(baseUrl, outcomes, p)
    ensures |p.dedup.byId| + |p.dedup.duplicates| == NonNullCount(Received(outcomes[..p.page]))
    ensures |p.dedup.byId| + |p.dedup.duplicates| <= p.totalFetched
  {
    AbsorbCounts(Empty(), Received(outcomes[..p.page]));
    NonNullCountBound(Received(outcomes[..p.page]));
  }

  /** A rate-limited attempt leaves `byId`, `duplicates` and `totalFetched` as they were. */
  lemma {:induction false} RetryChangesNothing<T>(outcomes: seq<Outcome<T>>, o: Outcome<T>)
    requires RetryDelay(o).Some?
    ensures Received(outcomes + [o]) == Received(outcomes)
    ensures Absorb(Empty(), Received(outcomes + [o])) == Absorb(Empty(), Received(outcomes))
  {
    assert (outcomes + [o])[..|outcomes|] == outcomes;
  }

  // ---------------------------------------------------------------------------------
  // The four endpoints

  /** Percent-encoding of `,` (to `%2C`), the one reserved character the query values here carry. */
  function EncodeComma(s: string): (r: string)
    ensures ',' !in r
    ensures ',' !in s ==> r == s
  {
    if s == [] then [] else (if s[0] == ',' then "%2C" else [s[0]]) + EncodeComma(s[1..])
  }

  /** The value of the first parameter named `key`, as `URLSearchParams.get` reads it. */
  function Lookup(query: seq<(string, string)>, key: string): Option<string> {
    if query == [] then None
    else if query[0].0 == key then Some(query[0].1)
    else Lookup(query[1..], key)
  }

  /** `https://harvest.greenhouse.io/v3/<resource>?k1=v1&k2=v2...`. */
  function Url(resource: string, query: seq<(string, string)>): string {
    "https://harvest.greenhouse.io/v3/" + resource + "?"
      + Join(seq(|query|, k requires 0 <= k < |query| => query[k].0 + "=" + EncodeComma(query[k].1)), "&")
  }

  /** getAllCandidates: 500 per page, fields `id,first_name,last_name`. */
  function CandidatesQuery(): seq<(string, string)> {
    [("per_page", "500"), ("fields", "id,first_name,last_name")]
  }

  /** getAllAttachments: 500 per page, résumés only, and the fixed field list. */
  function AttachmentsQuery(): seq<(string, string)> {
    [("per_page", "500"), ("type", "resume"), ("fields", "id,application_id,candidate_id,url,type,created_at")]
  }

  /**
    getAllJobs: `per_page=500`; `status` only when the option is truthy; `fields` only for
    a non-empty array (`None` stands for a value that is not an array), joined by commas.
  */
  function JobsQuery(status: Option<string>, fields: Option<seq<string>>): (q: seq<(string, string)>)
    ensures forall i, j :: 0 <= i < j < |q| ==> q[i].0 != q[j].0
  {
    var withStatus := status.Some? && status.value != "";
    var withFields := fields.Some? && fields.value != [];
    if withStatus && withFields then [("per_page", "500"), ("status", status.value), ("fields", Join(fields.value, ","))]
    else if withStatus then [("per_page", "500"), ("status", status.value)]
    else if withFields then [("per_page", "500"), ("fields", Join(fields.value, ","))]
    else [("per_page", "500")]
  }

  /** getAllApplications: `per_page=500` and `status=active` always; `fields` only for a non-empty array. */
  function ApplicationsQuery(fields: Option<seq<string>>): (q: seq<(string, string)>)
    ensures forall i, j :: 0 <= i < j < |q| ==> q[i].0 != q[j].0
  {
    if fields.Some? && fields.value != [] then [("per_page", "500"), ("status", "active"), ("fields", Join(fields.value, ","))]
    else [("per_page", "500"), ("status", "active")]
  }

  /** The first parameter named `key` is the one `Lookup` reads. */
  lemma {:induction false} LookupFirst(query: seq<(string, string)>, key: string, k: nat)
    requires k < |query| && query[k].0 == key
    requires forall j :: 0 <= j < k ==> query[j].0 != key
    ensures Lookup(query, key) == Some(query[k].1)
  {
    if k > 0 { LookupFirst(query[1..], key, k - 1); }
  }

  lemma {:induction false} LookupAbsent(query: seq<(string, string)>, key: string)
    requires forall j :: 0 <= j < |query| ==> query[j].0 != key
    ensures Lookup(query, key) == None
  {
    if query != [] { LookupAbsent(query[1..], key); }
  }

  /** The jobs URL: `per_page=500`, `status` exactly when truthy, `fields` exactly for a non-empty array, comma-joined. */
  lemma JobsQueryParams(status: Option<string>, fields: Option<seq<string>>)
    ensures Lookup(JobsQuery(status, fields), "per_page") == Some("500")
    ensures Lookup(JobsQuery(status, fields), "status") == (if status.Some? && status.value != "" then status else None)
    ensures Lookup(JobsQuery(status, fields), "fields") == (if fields.Some? && fields.value != [] then Some(Join(fields.value, ",")) else None)
  {
    var q := JobsQuery(status, fields);
    LookupFirst(q, "per_page", 0);
    if status.Some? && status.value != "" { LookupFirst(q, "status", 1); } else { LookupAbsent(q, "status"); }
    if fields.Some? && fields.value != [] { LookupFirst(q, "fields", |q| - 1); } else { LookupAbsent(q, "fields"); }
  }

  /** The applications URL: `per_page=500` and `status=active` always, `fields` exactly for a non-empty array. */
  lemma ApplicationsQueryParams(fields: Option<seq<string>>)
    ensures Lookup(ApplicationsQuery(fields), "per_page") == Some("500")
    ensures Lookup(ApplicationsQuery(fields), "status") == Some("active")
    ensures Lookup(ApplicationsQuery(fields), "fields") == (if fields.Some? && fields.value != [] then Some(Join(fields.value, ",")) else None)
  {
    var q := ApplicationsQuery(fields);
    LookupFirst(q, "per_page", 0);
    LookupFirst(q, "status", 1);
    if fields.Some? && fields.value != [] { LookupFirst(q, "fields", 2); } else { LookupAbsent(q, "fields"); }
  }

  /** getAllCandidates: the page loop from the candidates base URL; the result has one record per id. */
  method GetAllCandidates<T>(outcomes: seq<Outcome<T>>) returns (r: FetchResult<T>)
    ensures Replays(Url("candidates", CandidatesQuery()), outcomes, r.progress)
    ensures r.Done? ==> r.records == Records(r.progress.dedup)
    ensures r.Done? ==> forall i, j :: 0 <= i < j < |r.records| ==> r.records[i].id != r.records[j].id
    ensures r.Done? ==> Ids(r.records) == FirstSeen(Received(outcomes[..r.progress.page]), [])
  {
    r := FetchAll(Url("candidates", CandidatesQuery()), outcomes);
  }

  /** getAllAttachments: the page loop from the résumé-attachments base URL. */
  method GetAllAttachments<T>(outcomes: seq<Outcome<T>>) returns (r: FetchResult<T>)
    ensures Replays(Url("attachments", AttachmentsQuery()), outcomes, r.progress)
    ensures r.Done? ==> r.records == Records(r.progress.dedup)
    ensures r.Done? ==> forall i, j :: 0 <= i < j < |r.records| ==> r.records[i].id != r.records[j].id
    ensures r.Done? ==> Ids(r.records) == FirstSeen(Received(outcomes[..r.progress.page]), [])
  {
    r := FetchAll(Url("attachments", AttachmentsQuery()), outcomes);
  }

  /** getAllJobs: the page loop from the jobs URL built from `status` and `fields`. */
  method GetAllJobs<T>(status: Option<string>, fields: Option<seq<string>>, outcomes: seq<Outcome<T>>) returns (r: FetchResult<T>)
    ensures Replays(Url("jobs", JobsQuery(status, fields)), outcomes, r.progress)
    ensures r.Done? ==> r.records == Records(r.progress.dedup)
    ensures r.Done? ==> forall i, j :: 0 <= i < j < |r.records| ==> r.records[i].id != r.records[j].id
    ensures r.Done? ==> Ids(r.records) == FirstSeen(Received(outcomes[..r.progress.page]), [])
  {
    r := FetchAll(Url("jobs", JobsQuery(status, fields)), outcomes);
  }

  /** getAllApplications: the page loop from the active-applications URL. */
  method GetAllApplications<T>(fields: Option<seq<string>>, outcomes: seq<Outcome<T>>) returns (r: FetchResult<T>)
    ensures Replays(Url("applications", ApplicationsQuery(fields)), outcomes, r.progress)
    ensures r.Done? ==> r.records == Records(r.progress.dedup)
    ensures r.Done? ==> forall i, j :: 0 <= i < j < |r.records| ==> r.records[i].id != r.records[j].id
    ensures r.Done? ==> Ids(r.records) == FirstSeen(Received(outcomes[..r.progress.page]), [])
  {
    r := FetchAll(Url("applications", ApplicationsQuery(fields)), outcomes);
  }
}
