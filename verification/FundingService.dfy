/** The table service: one token list per unordered venue pair, from the cache or built afresh. */
module FundingService {
  import opened Basics
  import opened Arbitrage
  import opened Pages
  import opened PairCache
  import opened FundingTables

  method GroupMappings(mappings: seq<VenueInstrument>) returns (g: Grouping)
    ensures g == Grouped(mappings)
  {
    g := map[];
    for i := 0 to |mappings|
      invariant g == Grouped(mappings[..i])
    {
      assert mappings[..i + 1][..i] == mappings[..i];
      var m := mappings[i];
      var byVenue: map<Uuid, VenueInstrument> := map[];
      if m.instrumentId in g {
        byVenue := g[m.instrumentId];
      }
      byVenue := byVenue[m.venueId := m];
      g := g[m.instrumentId := byVenue];
    }
    assert mappings[..|mappings|] == mappings;
  }

  /** Instruments are visited in whatever order the map yields them. */
  method BuildTable(repo: Repo, g: Grouping, a: Uuid, b: Uuid, now: int, includeStale: bool, sortBy: string)
    returns (tokens: seq<Token>)
    requires UsableRepo(repo)
    ensures FreshTable(tokens, repo, g, a, b, now, includeStale, sortBy)
  {
    var built: seq<Token> := [];
    var left := g.Keys;
    while left != {}
      invariant left <= g.Keys
      invariant forall t :: t in built <==>
          (t.instrumentId in g.Keys - left && TokenFor(repo, g, a, b, t.instrumentId, now, includeStale) == Some(t))
      invariant forall t :: multiset(built)[t] <= 1
      decreases |left|
    {
      var id :| id in left;
      left := left - {id};
      if a in g[id] && b in g[id] {
        var token := BuildArbitrageToken(
          id, g[id][a], g[id][b], repo.latest(a, id), repo.latest(b, id), now, includeStale);
        if token.Some? {
          built := built + [token.value];
        }
      }
    }
    tokens := SortTokens(built, sortBy);
    forall t ensures t in tokens <==> t in built {
      assert t in tokens <==> t in multiset(tokens);
      assert t in built <==> t in multiset(built);
    }
  }

  method MapVenues(venues: seq<VenueInfo>) returns (venueMap: map<Uuid, VenueInfo>)
    ensures venueMap == VenueMap(venues)
  {
    venueMap := map[];
    for i := 0 to |venues|
      invariant venueMap == VenueMap(venues[..i])
    {
      assert venues[..i + 1][..i] == venues[..i];
      venueMap := venueMap[venues[i].id := venues[i]];
    }
    assert venues[..|venues|] == venues;
  }

  /** The tokens of one pair: from the cache unless a refresh was asked for, else built, sorted and cached. */
  method PairTokens(repo: Repo, g: Grouping, cache: Cache, req: Request, a: Uuid, b: Uuid, now: int)
    returns (tokens: seq<Token>)
    requires UsableRepo(repo) && cache.Valid() && g == Grouped(repo.mappings)
    modifies cache
    ensures cache.Valid()
    ensures if !req.forceRefresh && Served(Entry(old(cache.data), a, b), cache.ttl, now, now)
      then tokens == Entry(old(cache.data), a, b).value.tokens
      else FreshTable(tokens, repo, g, a, b, now, req.includeStale, req.sortBy)
    ensures Remembered(cache.data, Entry(old(cache.data), a, b), req, tokens, a, b, cache.ttl, now)
    ensures cache.data - {MakeKey(a, b)} == old(cache.data) - {MakeKey(a, b)}
    ensures forall c: Uuid, d: Uuid :: {c, d} != {a, b} ==> Entry(cache.data, c, d) == Entry(old(cache.data), c, d)
  {
    if !req.forceRefresh {
      var cached, ok := cache.Get(a, b, now, now);
      if ok {
        return cached;
      }
    }
    tokens := BuildTable(repo, g, a, b, now, req.includeStale, req.sortBy);
    cache.Set(a, b, tokens, now);
  }

  /** The body of the pair loop. */
  method AnswerPair(
    repo: Repo, venueMap: map<Uuid, VenueInfo>, g: Grouping, cache: Cache, req: Request, now: int, i: nat, j: nat,
    ghost pairs: seq<Pair>, ghost done: seq<(nat, nat)>, ghost before: map<string, CachedPair>)
    returns (pair: Pair)
    requires UsableRepo(repo) && cache.Valid() && venueMap == VenueMap(repo.venues) && g == Grouped(repo.mappings)
    requires i < j < |req.venueIds| && (i, j) !in done
    requires FiledApart(repo, req.venueIds) ==> Answered(pairs, done, repo, req, before, cache.data, cache.ttl, now)
    modifies cache
    ensures cache.Valid()
    ensures FiledApart(repo, req.venueIds) ==>
      Answered(pairs + [pair], done + [(i, j)], repo, req, before, cache.data, cache.ttl, now)
    ensures var keys := KeysOf(FiledIds(repo, req.venueIds)); cache.data - keys == old(cache.data) - keys
  {
    var venueA, venueB := VenueOf(venueMap, req.venueIds[i]), VenueOf(venueMap, req.venueIds[j]);
    ghost var data := cache.data;
    var tokens := PairTokens(repo, g, cache, req, venueA.id, venueB.id, now);
    pair := Pair(venueA, venueB, tokens);
    FiledKey(repo, req.venueIds, i, j);
    MoreKeysKept(data, cache.data, MakeKey(venueA.id, venueB.id), KeysOf(FiledIds(repo, req.venueIds)));
    if FiledApart(repo, req.venueIds) {
      AnswerOne(pairs, pair, done, (i, j), repo, req, before, data, cache.data, cache.ttl, now);
    }
  }

  /** The inner loop: the pairs of venue i with every later one. */
  method AnswerRow(
    repo: Repo, venueMap: map<Uuid, VenueInfo>, g: Grouping, cache: Cache, req: Request, now: int, i: nat,
    pairs: seq<Pair>, ghost done: seq<(nat, nat)>, ghost before: map<string, CachedPair>, ghost keys: set<string>)
    returns (more: seq<Pair>)
    requires UsableRepo(repo) && cache.Valid() && venueMap == VenueMap(repo.venues) && g == Grouped(repo.mappings)
    requires i < |req.venueIds| && |pairs| == |done| && RowAhead(done, i)
    requires FiledApart(repo, req.venueIds) ==> Answered(pairs, done, repo, req, before, cache.data, cache.ttl, now)
    requires keys == KeysOf(FiledIds(repo, req.venueIds)) && cache.data - keys == before - keys
    modifies cache
    ensures cache.Valid() && |more| == |done + Row(i, |req.venueIds|)|
    ensures FiledApart(repo, req.venueIds) ==>
      Answered(more, done + Row(i, |req.venueIds|), repo, req, before, cache.data, cache.ttl, now)
    ensures cache.data - keys == before - keys
  {
    more := pairs;
    ghost var apart, passed := FiledApart(repo, req.venueIds), done;
    assert Row(i, i + 1) == [] && done + [] == done;
    for j := i + 1 to |req.venueIds|
      invariant cache.Valid() && |more| == |passed| && passed == done + Row(i, j)
      invariant apart ==> Answered(more, passed, repo, req, before, cache.data, cache.ttl, now)
      invariant cache.data - keys == before - keys
    {
      RowPassed(done, i, j);
      var pair := AnswerPair(repo, venueMap, g, cache, req, now, i, j, more, passed, before);
      more, passed := more + [pair], passed + [(i, j)];
    }
  }

  /** The outer loop. */
  method AnswerAll(
    repo: Repo, venueMap: map<Uuid, VenueInfo>, g: Grouping, cache: Cache, req: Request, now: int,
    ghost before: map<string, CachedPair>, ghost keys: set<string>)
    returns (pairs: seq<Pair>, ghost done: seq<(nat, nat)>)
    requires UsableRepo(repo) && cache.Valid() && venueMap == VenueMap(repo.venues) && g == Grouped(repo.mappings)
    requires before == cache.data && keys == KeysOf(FiledIds(repo, req.venueIds))
    modifies cache
    ensures cache.Valid() && done == Rows(|req.venueIds|, |req.venueIds|) && |pairs| == |done|
    ensures FiledApart(repo, req.venueIds) ==> Answered(pairs, done, repo, req, before, cache.data, cache.ttl, now)
    ensures cache.data - keys == before - keys
  {
    pairs, done := [], [];
    for i := 0 to |req.venueIds|
      invariant cache.Valid() && |pairs| == |done| && done == Rows(|req.venueIds|, i)
      invariant FiledApart(repo, req.venueIds) ==> Answered(pairs, done, repo, req, before, cache.data, cache.ttl, now)
      invariant cache.data - keys == before - keys
    {
      RowsAhead(|req.venueIds|, i);
      pairs := AnswerRow(repo, venueMap, g, cache, req, now, i, pairs, done, before, keys);
      done := done + Row(i, |req.venueIds|);
    }
  }

  /** One request. When its venues are filed under distinct ids, every unordered pair appears once, in order, shows what
      it should, and is remembered. Whether they are or not, the cache keeps every pair that was not asked for. */
  method GetFundingArbitrage(repo: Repo, cache: Cache, req: Request, now: int, venuesOk: bool, mappingsOk: bool)
    returns (pairs: seq<Pair>, ok: bool)
    requires UsableRepo(repo) && cache.Valid()
    modifies cache
    ensures cache.Valid()
    ensures ok == (venuesOk && mappingsOk)
    ensures !ok ==> pairs == [] && cache.data == old(cache.data)
    ensures ok ==> |pairs| == |Rows(|req.venueIds|, |req.venueIds|)|
    ensures ok && FiledApart(repo, req.venueIds) ==>
      Answered(pairs, Rows(|req.venueIds|, |req.venueIds|), repo, req, old(cache.data), cache.data, cache.ttl, now)
    ensures OutsideKept(old(cache.data), cache.data, FiledIds(repo, req.venueIds))
    ensures Resolved(repo, req.venueIds) ==> OutsideKept(old(cache.data), cache.data, req.venueIds)
  {
    pairs := [];
    ghost var before, filed := cache.data, FiledIds(repo, req.venueIds);
    ghost var keys := KeysOf(filed);
    OtherKeysKept(before, before, filed);
    ResolvedOutside(repo, before, before, req.venueIds);
    if !venuesOk || !mappingsOk {
      return [], false;
    }
    var venueMap := MapVenues(repo.venues);
    var g := GroupMappings(repo.mappings);
    ghost var done;
    pairs, done := AnswerAll(repo, venueMap, g, cache, req, now, before, keys);
    OtherKeysKept(before, cache.data, filed);
    ResolvedOutside(repo, before, cache.data, req.venueIds);
    ok := true;
  }

  // ---- the table does not depend on the order of the request's venues ----

  /** An instrument has one base asset, whichever venue lists it. */
  ghost predicate OneBaseAsset(g: Grouping) {
    forall id, a, b :: id in g && a in g[id] && b in g[id] ==> g[id][a].baseAsset == g[id][b].baseAsset
  }

  /** Instruments are filed under the venue that lists them. */
  ghost predicate FiledByVenue(g: Grouping) {
    forall id, a :: id in g && a in g[id] ==> g[id][a].venueId == a
  }

  lemma {:induction false} GroupedByVenue(mappings: seq<VenueInstrument>)
    ensures FiledByVenue(Grouped(mappings))
  {
    if mappings != [] {
      GroupedByVenue(mappings[..|mappings| - 1]);
    }
  }

  lemma SwappedVenues(repo: Repo, g: Grouping, a: Uuid, b: Uuid, t: Token, now: int, includeStale: bool, sortBy: string)
    returns (u: Token)
    requires UsableRepo(repo) && OneBaseAsset(g) && FiledByVenue(g) && a != b
    requires TokenFor(repo, g, a, b, t.instrumentId, now, includeStale) == Some(t)
    ensures u.instrumentId == t.instrumentId && TokenFor(repo, g, b, a, u.instrumentId, now, includeStale) == Some(u)
    ensures Item(u, sortBy) == Item(t, sortBy)
  {
    var id := t.instrumentId;
    OrientationFree(id, g[id][a], g[id][b], repo.latest(a, id), repo.latest(b, id), now, includeStale);
    u := TokenFor(repo, g, b, a, id, now, includeStale).value;
    assert EconomicsOf(u) == EconomicsOf(t);
  }

  ghost predicate TokenAt(repo: Repo, req: Request, i: nat, j: nat, t: Token, now: int)
    requires UsableRepo(repo) && i < |req.venueIds| && j < |req.venueIds|
  {
    var a, b := req.venueIds[i], req.venueIds[j];
    TokenFor(repo, Grouped(repo.mappings), a, b, t.instrumentId, now, req.includeStale) == Some(t)
  }

  /** The answer to a request that asked for a refresh. */
  ghost predicate Refreshed(pairs: seq<Pair>, repo: Repo, req: Request, now: int)
    requires UsableRepo(repo)
  {
    && |pairs| == |Rows(|req.venueIds|, |req.venueIds|)|
    && forall k :: 0 <= k < |pairs| ==>
         var ij := Rows(|req.venueIds|, |req.venueIds|)[k];
         && ij.0 < ij.1 < |req.venueIds|
         && FreshTable(pairs[k].tokens, repo, Grouped(repo.mappings), req.venueIds[ij.0], req.venueIds[ij.1],
                       now, req.includeStale, req.sortBy)
  }

  lemma AnswerIsRefreshed(
    pairs: seq<Pair>, repo: Repo, req: Request, before: map<string, CachedPair>, data: map<string, CachedPair>,
    ttl: int, now: int)
    requires UsableRepo(repo) && req.forceRefresh && Resolved(repo, req.venueIds)
    requires Answered(pairs, Rows(|req.venueIds|, |req.venueIds|), repo, req, before, data, ttl, now)
    ensures Refreshed(pairs, repo, req, now)
  {
    ResolvedIds(repo, req.venueIds);
    forall k | 0 <= k < |pairs|
      ensures var ij := Rows(|req.venueIds|, |req.venueIds|)[k];
        && ij.0 < ij.1 < |req.venueIds|
        && VenueOf(VenueMap(repo.venues), req.venueIds[ij.0]).id == req.venueIds[ij.0]
        && VenueOf(VenueMap(repo.venues), req.venueIds[ij.1]).id == req.venueIds[ij.1]
    {
      var ij := Rows(|req.venueIds|, |req.venueIds|)[k];
      assert FiledIds(repo, req.venueIds)[ij.0] == req.venueIds[ij.0];
      assert FiledIds(repo, req.venueIds)[ij.1] == req.venueIds[ij.1];
    }
  }

  /** A refreshed answer holds nothing but the pairs' tokens... */
  lemma RefreshedOnly(pairs: seq<Pair>, repo: Repo, req: Request, now: int, t: Token) returns (i: nat, j: nat)
    requires UsableRepo(repo) && Refreshed(pairs, repo, req, now) && t in AllTokens(pairs)
    ensures i < j < |req.venueIds| && TokenAt(repo, req, i, j, t, now)
  {
    AllTokensMembers(pairs, t);
    var k :| 0 <= k < |pairs| && t in pairs[k].tokens;
    i, j := Rows(|req.venueIds|, |req.venueIds|)[k].0, Rows(|req.venueIds|, |req.venueIds|)[k].1;
  }

  /** ...and all of them. */
  lemma RefreshedAll(pairs: seq<Pair>, repo: Repo, req: Request, now: int, t: Token, i: nat, j: nat)
    requires UsableRepo(repo) && Refreshed(pairs, repo, req, now)
    requires i < j < |req.venueIds| && TokenAt(repo, req, i, j, t, now)
    ensures t in AllTokens(pairs)
  {
    var n := |req.venueIds|;
    RowsMembers(n, n);
    assert (i, j) in Rows(n, n);
    var k :| 0 <= k < |Rows(n, n)| && Rows(n, n)[k] == (i, j);
    assert t in pairs[k].tokens;
    AllTokensMembers(pairs, t);
  }

  lemma BuiltSortsNonNegative(t: Token, sortBy: string)
    requires Built(t)
    ensures SortField(t, sortBy).Some? ==> SortField(t, sortBy).value >= 0.0
  {
  }

  lemma RefreshedSortsNonNegative(pairs: seq<Pair>, repo: Repo, req: Request, now: int, t: Token, sortBy: string)
    requires UsableRepo(repo) && Refreshed(pairs, repo, req, now) && t in AllTokens(pairs)
    ensures SortField(t, sortBy).Some? ==> SortField(t, sortBy).value >= 0.0
  {
    var i, j := RefreshedOnly(pairs, repo, req, now, t);
    var id, a, b, g := t.instrumentId, req.venueIds[i], req.venueIds[j], Grouped(repo.mappings);
    BuiltTokens(id, g[id][a], g[id][b], repo.latest(a, id), repo.latest(b, id), now, req.includeStale);
    BuiltSortsNonNegative(t, sortBy);
  }

  lemma RefreshedNonNegative(pairs: seq<Pair>, repo: Repo, req: Request, now: int, sortBy: string)
    requires UsableRepo(repo) && Refreshed(pairs, repo, req, now)
    ensures NonNegative(AllTokens(pairs), sortBy)
  {
    var all := AllTokens(pairs);
    forall k | 0 <= k < |all| ensures SortField(all[k], sortBy).Some? ==> SortField(all[k], sortBy).value >= 0.0 {
      RefreshedSortsNonNegative(pairs, repo, req, now, all[k], sortBy);
    }
  }

  /** The same venues and options, in any order. */
  ghost predicate SameVenues(p: Request, q: Request) {
    && (forall id :: id in p.venueIds <==> id in q.venueIds)
    && p.includeStale == q.includeStale
  }

  lemma RefreshedItems(
    pairsP: seq<Pair>, pairsQ: seq<Pair>, repo: Repo, p: Request, q: Request, now: int, t: Token, sortBy: string)
    requires UsableRepo(repo) && OneBaseAsset(Grouped(repo.mappings)) && SameVenues(p, q)
    requires forall i, j :: 0 <= i < j < |p.venueIds| ==> p.venueIds[i] != p.venueIds[j]
    requires Refreshed(pairsP, repo, p, now) && Refreshed(pairsQ, repo, q, now) && t in AllTokens(pairsP)
    ensures Item(t, sortBy) in Items(AllTokens(pairsQ), sortBy)
  {
    var i, j := RefreshedOnly(pairsP, repo, p, now, t);
    var a, b := p.venueIds[i], p.venueIds[j];
    assert a in q.venueIds && b in q.venueIds;
    var x :| 0 <= x < |q.venueIds| && q.venueIds[x] == a;
    var y :| 0 <= y < |q.venueIds| && q.venueIds[y] == b;
    PairTokenShown(pairsQ, repo, q, now, t, x, y, sortBy);
  }

  /** The same pair at swapped positions has a token with the same symbol and values. */
  lemma SwappedToken(repo: Repo, q: Request, now: int, t: Token, x: nat, y: nat, sortBy: string) returns (u: Token)
    requires UsableRepo(repo) && OneBaseAsset(Grouped(repo.mappings))
    requires x < |q.venueIds| && y < |q.venueIds| && q.venueIds[x] != q.venueIds[y] && TokenAt(repo, q, x, y, t, now)
    ensures TokenAt(repo, q, y, x, u, now) && Item(u, sortBy) == Item(t, sortBy)
  {
    GroupedByVenue(repo.mappings);
    u := SwappedVenues(
      repo, Grouped(repo.mappings), q.venueIds[x], q.venueIds[y], t, now, q.includeStale, sortBy);
  }

  lemma ShownInOrder(pairs: seq<Pair>, repo: Repo, q: Request, now: int, t: Token, x: nat, y: nat, sortBy: string)
    requires UsableRepo(repo) && Refreshed(pairs, repo, q, now)
    requires x < y < |q.venueIds| && TokenAt(repo, q, x, y, t, now)
    ensures Item(t, sortBy) in Items(AllTokens(pairs), sortBy)
  {
    RefreshedAll(pairs, repo, q, now, t, x, y);
  }

  lemma ShownSwapped(pairs: seq<Pair>, repo: Repo, q: Request, now: int, t: Token, x: nat, y: nat, sortBy: string)
    requires UsableRepo(repo) && OneBaseAsset(Grouped(repo.mappings)) && Refreshed(pairs, repo, q, now)
    requires y < x < |q.venueIds| && q.venueIds[x] != q.venueIds[y] && TokenAt(repo, q, x, y, t, now)
    ensures Item(t, sortBy) in Items(AllTokens(pairs), sortBy)
  {
    var u := SwappedToken(repo, q, now, t, x, y, sortBy);
    ShownInOrder(pairs, repo, q, now, u, y, x, sortBy);
  }

  /** A pair's token is shown, under one orientation or the other, wherever the request put the two venues. */
  lemma PairTokenShown(pairs: seq<Pair>, repo: Repo, q: Request, now: int, t: Token, x: nat, y: nat, sortBy: string)
    requires UsableRepo(repo) && OneBaseAsset(Grouped(repo.mappings)) && Refreshed(pairs, repo, q, now)
    requires x < |q.venueIds| && y < |q.venueIds| && q.venueIds[x] != q.venueIds[y] && TokenAt(repo, q, x, y, t, now)
    ensures Item(t, sortBy) in Items(AllTokens(pairs), sortBy)
  {
    if x < y {
      ShownInOrder(pairs, repo, q, now, t, x, y, sortBy);
    } else {
      ShownSwapped(pairs, repo, q, now, t, x, y, sortBy);
    }
  }

  /** Two refreshed answers over the same venues in any order (built in any map order, sorted unstably, then
      flattened and sorted again) list the same sequence of sort values. */
  lemma VenueOrderDoesNotShow(
    pairsP: seq<Pair>, pairsQ: seq<Pair>, repo: Repo, p: Request, q: Request, now: int,
    r: seq<Token>, s: seq<Token>, sortBy: string)
    requires UsableRepo(repo) && OneBaseAsset(Grouped(repo.mappings)) && SameVenues(p, q)
    requires Resolved(repo, p.venueIds) && Resolved(repo, q.venueIds)
    requires Refreshed(pairsP, repo, p, now) && Refreshed(pairsQ, repo, q, now)
    requires Lists(r, Best(AllTokens(pairsP), sortBy)) && Descending(r, sortBy)
    requires Lists(s, Best(AllTokens(pairsQ), sortBy)) && Descending(s, sortBy)
    ensures Fields(r, sortBy) == Fields(s, sortBy)
  {
    forall t | t in AllTokens(pairsP) ensures Item(t, sortBy) in Items(AllTokens(pairsQ), sortBy) {
      RefreshedItems(pairsP, pairsQ, repo, p, q, now, t, sortBy);
    }
    forall t | t in AllTokens(pairsQ) ensures Item(t, sortBy) in Items(AllTokens(pairsP), sortBy) {
      RefreshedItems(pairsQ, pairsP, repo, q, p, now, t, sortBy);
    }
    RefreshedNonNegative(pairsP, repo, p, now, sortBy);
    RefreshedNonNegative(pairsQ, repo, q, now, sortBy);
    assert Items(AllTokens(pairsP), sortBy) == Items(AllTokens(pairsQ), sortBy);
    ValuesDependOnlyOnItems(pairsP, pairsQ, r, s, sortBy);
  }

  /** The endpoint behind its parameter checks: the tables, and one page of them. A request that asked for a refresh is
      answered from fresh tables alone, so `VenueOrderDoesNotShow` speaks of its list. */
  method ServeRequest(
    repo: Repo, cache: Cache, req: Request, now: int, venuesOk: bool, mappingsOk: bool, offset: nat, limit: nat)
    returns (shown: seq<Pair>, hasMore: bool, totalPages: int, ok: bool,
             ghost tables: seq<Pair>, ghost list: seq<Token>)
    requires UsableRepo(repo) && cache.Valid()
    modifies cache
    ensures cache.Valid() && ok == (venuesOk && mappingsOk)
    ensures !ok ==> cache.data == old(cache.data)
    ensures OutsideKept(old(cache.data), cache.data, FiledIds(repo, req.venueIds))
    ensures ok ==> Lists(list, Best(AllTokens(tables), req.sortBy)) && Descending(list, req.sortBy)
    ensures ok ==> shown == Redistributed(tables, ApplyGlobalPagination(list, offset, limit).0)
    ensures ok ==> hasMore == ApplyGlobalPagination(list, offset, limit).1
    ensures ok ==> totalPages == ComputeTotalPages(|list|, limit)
    ensures ok && req.forceRefresh && Resolved(repo, req.venueIds) ==> Refreshed(tables, repo, req, now)
  {
    shown, hasMore, totalPages, list := [], false, 0, [];
    ghost var before := cache.data;
    var pairs;
    pairs, ok := GetFundingArbitrage(repo, cache, req, now, venuesOk, mappingsOk);
    tables := pairs;
    if ok {
      var flattened;
      shown, hasMore, totalPages, flattened := ServePage(pairs, req.sortBy, offset, limit);
      list := flattened;
      if req.forceRefresh && Resolved(repo, req.venueIds) {
        ResolvedIds(repo, req.venueIds);
        AnswerIsRefreshed(pairs, repo, req, before, cache.data, cache.ttl, now);
      }
    }
  }
}
