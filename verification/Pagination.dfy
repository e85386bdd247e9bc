/**
Paged listings. The server holds a fixed list and serves it in pages; a page request may
also fail. The listings are shown to be exactly a prefix of the server's list.
*/
module Pagination {
  import opened Regex

  const DEFAULT_PER_PAGE: nat := 100
  const MAX_PAGES: nat := 10

  datatype Listing<T, E> = Listed(items: seq<T>) | Failed(error: E)

  /** The server: its items, and the error a page request meets, if any. */
  datatype Server<!T, !E> = Server(items: seq<T>, down: nat -> Option<E>)

  function Min(a: int, b: int): int { if a < b then a else b }

  /** Where page `page` starts; pages are counted from 1. */
  function Offset(page: nat, perPage: nat): nat
    requires page >= 1
  {
    (page - 1) * perPage
  }

  /** At most `count` items from position `from`. */
  function Slice<T>(items: seq<T>, from: nat, count: nat): (r: seq<T>)
    ensures |r| <= count
  {
    if from >= |items| then []
    else if |items| - from < count then items[from..]
    else items[from..from + count]
  }

  function Page<T>(items: seq<T>, perPage: nat, page: nat): seq<T>
    requires page >= 1
  {
    Slice(items, Offset(page, perPage), perPage)
  }

  function NormalMax(maxRuns: int): nat { if maxRuns <= 0 then DEFAULT_PER_PAGE else maxRuns }

  function NormalPerPage(perPage: int): nat {
    if perPage <= 0 || perPage > DEFAULT_PER_PAGE then DEFAULT_PER_PAGE else perPage
  }

  /** Page `page` is asked for: it is within the page limit, more items are wanted, and all
      earlier pages were full. */
  predicate Wanted(count: nat, perPage: nat, maxRuns: nat, page: nat) {
    1 <= page <= MAX_PAGES && Offset(page, perPage) < maxRuns && Offset(page, perPage) <= count
  }

  lemma Offsets(perPage: nat)
    ensures Offset(1, perPage) == 0 && Offset(MAX_PAGES + 1, perPage) == MAX_PAGES * perPage
    ensures forall page: nat :: page >= 1 ==> Offset(page + 1, perPage) == Offset(page, perPage) + perPage
  {
  }

  lemma {:induction false} OffsetGrows(a: nat, b: nat, perPage: nat)
    requires 1 <= a <= b
    ensures Offset(a, perPage) <= Offset(b, perPage)
    decreases b - a
  {
    if a < b {
      Offsets(perPage);
      OffsetGrows(a + 1, b, perPage);
    }
  }

  lemma NextSlice<T>(items: seq<T>, from: nat, count: nat)
    requires from <= |items|
    ensures |Slice(items, from, count)| == Min(count, |items| - from)
    ensures items[..from] + Slice(items, from, count) == items[..Min(from + count, |items|)]
  {
  }

  /** Pages 1 to `pages` were asked for, in order, and all came back. */
  ghost predicate Asked<T, E>(server: Server<T, E>, requests: seq<nat>, pages: nat) {
    && |requests| == pages
    && (forall i :: 0 <= i < pages ==> requests[i] == i + 1)
    && (forall p :: 1 <= p <= pages ==> server.down(p).None?)
  }

  /** The pages asked for are 1, 2, ... without gaps; the first that is down ends the listing. */
  ghost predicate AskedUntilDown<T, E>(server: Server<T, E>, requests: seq<nat>, error: E) {
    && requests != [] && server.down(|requests|) == Some(error)
    && (forall i :: 0 <= i < |requests| ==> requests[i] == i + 1)
    && (forall p :: 1 <= p < |requests| ==> server.down(p).None?)
  }

  lemma AskNext<T, E>(server: Server<T, E>, requests: seq<nat>, page: nat)
    requires page >= 1 && Asked(server, requests, page - 1)
    ensures server.down(page).Some? ==> AskedUntilDown(server, requests + [page], server.down(page).value)
    ensures server.down(page).None? ==> Asked(server, requests + [page], page)
  {
  }

  lemma NothingAsked<T, E>(server: Server<T, E>, perPage: nat)
    ensures Asked(server, [], 0) && Offset(1, perPage) == 0 && server.items[..0] == []
  {
  }

  /** The effect of one page: it ends the list or the next page starts where it stopped. */
  lemma PageStep<T>(items: seq<T>, perPage: nat, page: nat)
    requires page >= 1 && Offset(page, perPage) <= |items|
    ensures var r := Page(items, perPage, page);
            && items[..Offset(page, perPage)] + r == items[..Min(Offset(page + 1, perPage), |items|)]
            && (|r| < perPage ==> |items| < Offset(page + 1, perPage))
            && (|r| >= perPage ==> Offset(page + 1, perPage) <= |items|)
  {
    Offsets(perPage);
    hide Offset;
    NextSlice(items, Offset(page, perPage), perPage);
  }

  /** No gaps: a page wanted after earlier ones implies those were wanted. */
  lemma EarlierWanted(count: nat, perPage: nat, limit: nat, page: nat, earlier: nat)
    requires Wanted(count, perPage, limit, page) && 1 <= earlier <= page
    ensures Wanted(count, perPage, limit, earlier)
  {
    OffsetGrows(earlier, page, perPage);
  }

  /** When the loop ends, cutting at the limit gives exactly the promised prefix. */
  lemma CutIsPrefix<T>(items: seq<T>, perPage: nat, limit: nat, pages: nat, runs: seq<T>)
    requires pages <= MAX_PAGES && runs == items[..Min(Offset(pages + 1, perPage), |items|)]
    requires !Wanted(|items|, perPage, limit, pages + 1)
    ensures (if |runs| > limit then runs[..limit] else runs) == items[..Min(|items|, Min(limit, MAX_PAGES * perPage))]
  {
    Offsets(perPage);
    OffsetGrows(pages + 1, MAX_PAGES + 1, perPage);
    hide Offset;
  }

  method ListRepositoryRuns<T, E>(server: Server<T, E>, perPage: int, maxRuns: int)
    returns (listing: Listing<T, E>, requests: seq<nat>)
    // Every page requested was wanted.
    ensures forall p :: 1 <= p <= |requests| ==> Wanted(|server.items|, NormalPerPage(perPage), NormalMax(maxRuns), p)
    // A failed listing reports the first page that was down.
    ensures listing.Failed? ==> AskedUntilDown(server, requests, listing.error)
    // Otherwise every wanted page was requested, and the result is the prefix.
    ensures listing.Listed? ==>
              && Asked(server, requests, |requests|)
              && !Wanted(|server.items|, NormalPerPage(perPage), NormalMax(maxRuns), |requests| + 1)
              && listing.items == server.items[..Min(|server.items|, Min(if maxRuns <= 0 then 100 else maxRuns,
                                                 10 * (if 1 <= perPage <= 100 then perPage else 100)))]
  {
    var limit := if maxRuns <= 0 then DEFAULT_PER_PAGE else maxRuns;
    var size := if perPage <= 0 || perPage > DEFAULT_PER_PAGE then DEFAULT_PER_PAGE else perPage;
    assert limit == NormalMax(maxRuns) && size == NormalPerPage(perPage);
    NothingAsked(server, size);
    hide Asked, AskedUntilDown, Offset, Page, NormalMax, NormalPerPage;
    var runs: seq<T> := [];
    requests := [];
    var page: nat := 1;
    while |runs| < limit && page <= MAX_PAGES
      invariant 1 <= page <= MAX_PAGES + 1
      invariant |requests| == page - 1 && Asked(server, requests, page - 1)
      invariant page > 1 ==> Wanted(|server.items|, size, limit, page - 1)
      invariant Offset(page, size) <= |server.items| && runs == server.items[..Offset(page, size)]
    {
      forall p | 1 <= p <= page ensures Wanted(|server.items|, size, limit, p) {
        EarlierWanted(|server.items|, size, limit, page, p);
      }
      AskNext(server, requests, page);
      requests := requests + [page];
      if server.down(page).Some? {
        return Failed(server.down(page).value), requests;
      }
      var response := Page(server.items, size, page);
      PageStep(server.items, size, page);
      if |response| == 0 {
        assert runs + response == runs;
        break;
      }
      runs := runs + response;
      if |response| < size { break; }
      page := page + 1;
    }
    forall p | 1 <= p <= |requests| ensures Wanted(|server.items|, size, limit, p) {
      EarlierWanted(|server.items|, size, limit, |requests|, p);
    }
    CutIsPrefix(server.items, size, limit, |requests|, runs);
    if |runs| > limit {
      runs := runs[..limit];
    }
    listing := Listed(runs);
  }

  method ListRunJobs<T, E>(server: Server<T, E>) returns (listing: Listing<T, E>, requests: seq<nat>)
    ensures |requests| <= 10
    ensures listing.Failed? ==> AskedUntilDown(server, requests, listing.error)
    ensures listing.Listed? ==>
              && Asked(server, requests, |requests|)
              && listing.items == server.items[..Min(|server.items|, 1000)]
  {
    NothingAsked(server, DEFAULT_PER_PAGE);
    Offsets(DEFAULT_PER_PAGE);
    hide Asked, AskedUntilDown, Offset, Page;
    var jobs: seq<T> := [];
    requests := [];
    var page: nat := 1;
    while page <= MAX_PAGES
      invariant 1 <= page <= MAX_PAGES + 1
      invariant |requests| == page - 1 && Asked(server, requests, page - 1)
      invariant Offset(page, DEFAULT_PER_PAGE) <= |server.items| && jobs == server.items[..Offset(page, DEFAULT_PER_PAGE)]
    {
      AskNext(server, requests, page);
      requests := requests + [page];
      if server.down(page).Some? {
        return Failed(server.down(page).value), requests;
      }
      var response := Page(server.items, DEFAULT_PER_PAGE, page);
      PageStep(server.items, DEFAULT_PER_PAGE, page);
      OffsetGrows(page + 1, MAX_PAGES + 1, DEFAULT_PER_PAGE);
      if |response| == 0 {
        assert jobs + response == jobs;
        break;
      }
      jobs := jobs + response;
      if |response| < DEFAULT_PER_PAGE { break; }
      page := page + 1;
    }
    listing := Listed(jobs);
  }
}
