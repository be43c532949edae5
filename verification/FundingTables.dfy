/** What a request for the arbitrage tables is answered with: the token table of a pair, the enumeration of pairs, and
    the answers one after the other on a changing cache. */
module FundingTables {
  import opened Basics
  import opened Arbitrage
  import opened Pages
  import opened PairCache

  /** What the repository answers during one request. */
  datatype Repo = Repo(
    venues: seq<VenueInfo>, mappings: seq<VenueInstrument>, latest: (Uuid, Uuid) -> Option<FundingRecord>)

  ghost predicate UsableRepo(repo: Repo) {
    forall v: Uuid, i: Uuid :: Usable(repo.latest(v, i))
  }

  function NilText(): (s: string)
    ensures |s| == 36
  {
    seq(36, i => if i in {8, 13, 18, 23} then '-' else '0')
  }

  const NilId: Uuid := NilText()
  const ZeroVenue := VenueInfo(NilId, "", "")

  function VenueMap(venues: seq<VenueInfo>): map<Uuid, VenueInfo> {
    if venues == [] then map[]
    else VenueMap(venues[..|venues| - 1])[venues[|venues| - 1].id := venues[|venues| - 1]]
  }

  /** A venue the repository does not return reads as the zero venue. */
  function VenueOf(venues: map<Uuid, VenueInfo>, id: Uuid): VenueInfo {
    if id in venues then venues[id] else ZeroVenue
  }

  type Grouping = map<Uuid, map<Uuid, VenueInstrument>>

  function AddMapping(g: Grouping, m: VenueInstrument): Grouping {
    g[m.instrumentId := (if m.instrumentId in g then g[m.instrumentId] else map[])[m.venueId := m]]
  }

  /** Mappings by instrument, then by venue. */
  function Grouped(mappings: seq<VenueInstrument>): Grouping {
    if mappings == [] then map[]
    else AddMapping(Grouped(mappings[..|mappings| - 1]), mappings[|mappings| - 1])
  }

  /** The token of one instrument on a pair, if both venues list it and its funding is usable. */
  function TokenFor(repo: Repo, g: Grouping, a: Uuid, b: Uuid, id: Uuid, now: int, includeStale: bool): Option<Token>
    requires Usable(repo.latest(a, id)) && Usable(repo.latest(b, id))
  {
    if id in g && a in g[id] && b in g[id]
    then BuildArbitrageToken(id, g[id][a], g[id][b], repo.latest(a, id), repo.latest(b, id), now, includeStale)
    else None
  }

  /** A token list that holds exactly the pair's tokens, one per instrument, best first. */
  ghost predicate FreshTable(
    tokens: seq<Token>, repo: Repo, g: Grouping, a: Uuid, b: Uuid, now: int, includeStale: bool, sortBy: string)
    requires UsableRepo(repo)
  {
    && (forall t :: t in tokens <==> TokenFor(repo, g, a, b, t.instrumentId, now, includeStale) == Some(t))
    && (forall t :: multiset(tokens)[t] <= 1)
    && Descending(tokens, sortBy)
  }

  /** What a fresh table says: a token for exactly the instruments that both venues list and that have funding on both,
      no older than 15 minutes unless stale data was asked for; its sides repeat the two venues' own records. */
  lemma FreshTableMeans(
    tokens: seq<Token>, repo: Repo, g: Grouping, a: Uuid, b: Uuid, now: int, includeStale: bool, sortBy: string,
    id: Uuid)
    requires UsableRepo(repo) && FreshTable(tokens, repo, g, a, b, now, includeStale, sortBy)
    ensures (exists t :: t in tokens && t.instrumentId == id) <==>
      && id in g && a in g[id] && b in g[id] && repo.latest(a, id).Some? && repo.latest(b, id).Some?
      && (includeStale || (now - repo.latest(a, id).value.observedAt <= 900_000_000_000
                           && now - repo.latest(b, id).value.observedAt <= 900_000_000_000))
    ensures forall t :: t in tokens && t.instrumentId == id ==>
      && id in g && a in g[id] && b in g[id] && repo.latest(a, id).Some? && repo.latest(b, id).Some?
      && t.symbol == g[id][a].baseAsset + "-PERP"
      && t.a == SideOf(g[id][a], repo.latest(a, id).value) && t.b == SideOf(g[id][b], repo.latest(b, id).value)
  {
    var token := TokenFor(repo, g, a, b, id, now, includeStale);
    if id in g && a in g[id] && b in g[id] && token.Some? {
      TokenRepeats(id, g[id][a], g[id][b], repo.latest(a, id), repo.latest(b, id), now, includeStale);
      assert token.value in tokens;
    }
  }

  ghost predicate LastMapping(mappings: seq<VenueInstrument>, id: Uuid, venue: Uuid, k: int) {
    && 0 <= k < |mappings| && mappings[k].instrumentId == id && mappings[k].venueId == venue
    && forall l :: k < l < |mappings| ==> mappings[l].instrumentId != id || mappings[l].venueId != venue
  }

  ghost predicate LastVenue(venues: seq<VenueInfo>, id: Uuid, k: int) {
    0 <= k < |venues| && venues[k].id == id && forall l :: k < l < |venues| ==> venues[l].id != id
  }

  ghost function Filed(g: Grouping, id: Uuid, venue: Uuid): Option<VenueInstrument> {
    if id in g && venue in g[id] then Some(g[id][venue]) else None
  }

  lemma FiledAfter(g: Grouping, m: VenueInstrument, id: Uuid, venue: Uuid)
    ensures Filed(AddMapping(g, m), id, venue)
      == if m.instrumentId == id && m.venueId == venue then Some(m) else Filed(g, id, venue)
  {
  }

  /** The mapping filed for an instrument on a venue is the last one listed for them. */
  lemma {:induction false} GroupedIsLast(mappings: seq<VenueInstrument>, id: Uuid, venue: Uuid)
    ensures forall k :: LastMapping(mappings, id, venue, k) ==> Filed(Grouped(mappings), id, venue) == Some(mappings[k])
    ensures Filed(Grouped(mappings), id, venue).Some? ==> exists k :: LastMapping(mappings, id, venue, k)
  {
    if mappings != [] {
      var init, n := mappings[..|mappings| - 1], |mappings| - 1;
      GroupedIsLast(init, id, venue);
      FiledAfter(Grouped(init), mappings[n], id, venue);
      if mappings[n].instrumentId == id && mappings[n].venueId == venue {
        assert LastMapping(mappings, id, venue, n);
      } else {
        forall k ensures LastMapping(mappings, id, venue, k) <==> LastMapping(init, id, venue, k) {
          LastMappingStays(mappings, id, venue, k);
        }
        assert forall k :: LastMapping(init, id, venue, k) ==> init[k] == mappings[k];
      }
    }
  }

  lemma LastMappingStays(mappings: seq<VenueInstrument>, id: Uuid, venue: Uuid, k: int)
    requires mappings != []
    requires !(mappings[|mappings| - 1].instrumentId == id && mappings[|mappings| - 1].venueId == venue)
    ensures LastMapping(mappings, id, venue, k) <==> LastMapping(mappings[..|mappings| - 1], id, venue, k)
  {
    var init := mappings[..|mappings| - 1];
    assert forall l :: 0 <= l < |init| ==> init[l] == mappings[l];
  }

  /** A venue asked for reads as the last one the repository returned under its id, or as the zero venue. */
  lemma {:induction false} VenueMapIsLast(venues: seq<VenueInfo>, id: Uuid)
    ensures forall k :: LastVenue(venues, id, k) ==> VenueOf(VenueMap(venues), id) == venues[k]
    ensures (forall k :: !LastVenue(venues, id, k)) ==> VenueOf(VenueMap(venues), id) == VenueInfo(NilId, "", "")
  {
    if venues != [] {
      var init, n := venues[..|venues| - 1], |venues| - 1;
      VenueMapIsLast(init, id);
      if venues[n].id == id {
        assert LastVenue(venues, id, n);
      } else {
        forall k ensures LastVenue(venues, id, k) <==> LastVenue(init, id, k) {
          LastVenueStays(venues, id, k);
        }
        assert forall k :: LastVenue(init, id, k) ==> init[k] == venues[k];
      }
    }
  }

  lemma LastVenueStays(venues: seq<VenueInfo>, id: Uuid, k: int)
    requires venues != [] && venues[|venues| - 1].id != id
    ensures LastVenue(venues, id, k) <==> LastVenue(venues[..|venues| - 1], id, k)
  {
    var init := venues[..|venues| - 1];
    assert forall l :: 0 <= l < |init| ==> init[l] == venues[l];
  }

  // ---- pair enumeration ----

  /** The pairs (i, i+1) to (i, j-1). */
  function Row(i: nat, j: nat): seq<(nat, nat)> {
    if j <= i + 1 then [] else Row(i, j - 1) + [(i, j - 1)]
  }

  /** The full rows before row i of n venues. */
  function Rows(n: nat, i: nat): seq<(nat, nat)> {
    if i == 0 then [] else Rows(n, i - 1) + Row(i - 1, n)
  }

  lemma {:induction false} RowHas(i: nat, j: nat)
    ensures forall k :: 0 <= k < |Row(i, j)| ==> Row(i, j)[k] == (i, i + 1 + k)
    ensures |Row(i, j)| == if j <= i + 1 then 0 else j - i - 1
  {
    if j > i + 1 {
      RowHas(i, j - 1);
    }
  }

  lemma {:induction false} RowMember(i: nat, n: nat, ij: (nat, nat))
    ensures ij in Row(i, n) <==> ij.0 == i && i < ij.1 < n
  {
    if n > i + 1 {
      RowMember(i, n - 1, ij);
    }
  }

  /** The pair is listed exactly if it belongs to the first i rows of n venues. */
  ghost predicate ListedIn(rows: seq<(nat, nat)>, n: nat, i: nat, ij: (nat, nat)) {
    ij in rows <==> ij.0 < i && ij.0 < ij.1 < n
  }

  lemma ListedInNext(rows: seq<(nat, nat)>, row: seq<(nat, nat)>, n: nat, i: nat, ij: (nat, nat))
    requires ListedIn(rows, n, i, ij) && (ij in row <==> ij.0 == i && i < ij.1 < n)
    ensures ListedIn(rows + row, n, i + 1, ij)
  {
  }

  lemma {:induction false} RowsMember(n: nat, i: nat, ij: (nat, nat))
    requires i <= n
    ensures ListedIn(Rows(n, i), n, i, ij)
  {
    if i > 0 {
      RowsMember(n, i - 1, ij);
      RowMember(i - 1, n, ij);
      ListedInNext(Rows(n, i - 1), Row(i - 1, n), n, i - 1, ij);
    }
  }

  /** Every pair of positions is enumerated, smaller position first... */
  lemma RowsMembers(n: nat, i: nat)
    requires i <= n
    ensures forall x: nat, y: nat :: (x, y) in Rows(n, i) <==> x < i && x < y < n
  {
    forall x: nat, y: nat ensures (x, y) in Rows(n, i) <==> x < i && x < y < n {
      RowsMember(n, i, (x, y));
    }
  }

  /** ...exactly once... */
  lemma {:induction false} RowsDistinct(n: nat, i: nat)
    requires i <= n
    ensures forall k, l :: 0 <= k < l < |Rows(n, i)| ==> Rows(n, i)[k] != Rows(n, i)[l]
  {
    if i > 0 {
      RowsDistinct(n, i - 1);
      RowsMembers(n, i - 1);
      RowHas(i - 1, n);
      var before := Rows(n, i - 1);
      forall k | 0 <= k < |before| ensures before[k].0 != i - 1 {
        assert (before[k].0, before[k].1) in before;
      }
    }
  }

  /** ...so n venues make n (n - 1) / 2 pairs. */
  lemma {:induction false} RowsCount(n: nat, i: nat)
    requires i <= n
    ensures 2 * |Rows(n, i)| == i * (2 * n - i - 1)
  {
    if i > 0 {
      RowsCount(n, i - 1);
      RowHas(i - 1, n);
      assert |Rows(n, i)| == |Rows(n, i - 1)| + n - i;
      CountStep(n, i);
    }
  }

  lemma CountStep(n: int, i: int)
    ensures i * (2 * n - i - 1) == (i - 1) * (2 * n - (i - 1) - 1) + 2 * (n - i)
  {
  }

  // ---- the request ----

  datatype Request = Request(venueIds: seq<Uuid>, sortBy: string, includeStale: bool, forceRefresh: bool)

  lemma {:induction false} VenueMapKeepsIds(venues: seq<VenueInfo>)
    ensures forall id :: id in VenueMap(venues) ==> VenueMap(venues)[id].id == id
  {
    if venues != [] {
      VenueMapKeepsIds(venues[..|venues| - 1]);
    }
  }

  /** The venues asked for are distinct and all known to the repository. */
  ghost predicate Resolved(repo: Repo, ids: seq<Uuid>) {
    DistinctIds(ids) && forall i :: 0 <= i < |ids| ==> ids[i] in VenueMap(repo.venues)
  }

  /** The ids under which the program files the venues asked for. */
  function FiledIds(repo: Repo, ids: seq<Uuid>): (filed: seq<Uuid>)
    ensures |filed| == |ids|
  {
    seq(|ids|, k requires 0 <= k < |ids| => VenueOf(VenueMap(repo.venues), ids[k]).id)
  }

  ghost predicate DistinctIds(ids: seq<Uuid>) {
    forall i, j :: 0 <= i < j < |ids| ==> ids[i] != ids[j]
  }

  /** The venues asked for are filed under different ids. */
  ghost predicate FiledApart(repo: Repo, ids: seq<Uuid>) {
    DistinctIds(FiledIds(repo, ids))
  }

  /** Resolved venues keep the id they were asked for by. */
  lemma ResolvedIds(repo: Repo, ids: seq<Uuid>)
    requires Resolved(repo, ids)
    ensures FiledIds(repo, ids) == ids && FiledApart(repo, ids)
  {
    VenueMapKeepsIds(repo.venues);
  }

  lemma FiledId(repo: Repo, ids: seq<Uuid>, i: nat)
    requires i < |ids|
    ensures FiledIds(repo, ids)[i] == if ids[i] in VenueMap(repo.venues) then ids[i] else NilId
  {
    VenueMapKeepsIds(repo.venues);
  }

  /** Two of the ids asked for are filed as one: each is unknown, or the nil id itself. */
  ghost predicate FiledAsOne(repo: Repo, ids: seq<Uuid>, i: nat, j: nat)
    requires i < |ids| && j < |ids|
  {
    var known := VenueMap(repo.venues);
    && (ids[i] !in known || ids[i] == NilId)
    && (ids[j] !in known || ids[j] == NilId)
  }

  /** Distinct ids are filed as distinct ones exactly when at most one of them is unknown or the nil id. */
  lemma FiledApartIff(repo: Repo, ids: seq<Uuid>)
    requires DistinctIds(ids)
    ensures FiledApart(repo, ids) <==> forall i, j :: 0 <= i < j < |ids| ==> !FiledAsOne(repo, ids, i, j)
  {
    forall i: nat, j: nat | i < j < |ids|
      ensures FiledIds(repo, ids)[i] == FiledIds(repo, ids)[j] <==> FiledAsOne(repo, ids, i, j)
    {
      FiledId(repo, ids, i);
      FiledId(repo, ids, j);
    }
  }

  /** The cached tokens if they may be served, a fresh table otherwise. */
  ghost predicate RightTokens(
    tokens: seq<Token>, entry: Option<CachedPair>, repo: Repo, req: Request, a: Uuid, b: Uuid, ttl: int, now: int)
    requires UsableRepo(repo)
  {
    match entry
    case Some(cached) =>
      if !req.forceRefresh && Served(entry, ttl, now, now) then tokens == cached.tokens
      else FreshTable(tokens, repo, Grouped(repo.mappings), a, b, now, req.includeStale, req.sortBy)
    case None => FreshTable(tokens, repo, Grouped(repo.mappings), a, b, now, req.includeStale, req.sortBy)
  }

  /** The right venues, and the right tokens for the cache as it was before. */
  ghost predicate Shows(
    p: Pair, repo: Repo, req: Request, i: nat, j: nat, before: map<string, CachedPair>, ttl: int, now: int)
    requires UsableRepo(repo) && i < |req.venueIds| && j < |req.venueIds|
  {
    var a, b := VenueOf(VenueMap(repo.venues), req.venueIds[i]), VenueOf(VenueMap(repo.venues), req.venueIds[j]);
    && p.venueA == a && p.venueB == b
    && RightTokens(p.tokens, Entry(before, a.id, b.id), repo, req, a.id, b.id, ttl, now)
  }

  /** The entry of the pair is the one that was served, or a new one of these tokens, stamped now. */
  ghost predicate Remembered(
    data: map<string, CachedPair>, entry: Option<CachedPair>, req: Request, tokens: seq<Token>, a: Uuid, b: Uuid,
    ttl: int, now: int)
  {
    Entry(data, a, b) ==
      if !req.forceRefresh && Served(entry, ttl, now, now) then entry else Some(CachedPair(tokens, now))
  }

  /** Either way the cache would now serve exactly the tokens shown. */
  lemma RememberedServes(
    data: map<string, CachedPair>, entry: Option<CachedPair>, repo: Repo, req: Request, tokens: seq<Token>,
    a: Uuid, b: Uuid, ttl: int, now: int)
    requires UsableRepo(repo) && Remembered(data, entry, req, tokens, a, b, ttl, now)
    requires RightTokens(tokens, entry, repo, req, a, b, ttl, now)
    ensures Served(Entry(data, a, b), ttl, now, now) && Entry(data, a, b).value.tokens == tokens
  {
  }

  /** The unordered pairs of distinct ids at different position pairs differ. */
  lemma DistinctPairs(ids: seq<Uuid>, i: nat, j: nat, x: nat, y: nat)
    requires i < j < |ids| && x < y < |ids| && (i, j) != (x, y)
    requires forall k, l :: 0 <= k < l < |ids| ==> ids[k] != ids[l]
    ensures {ids[i], ids[j]} != {ids[x], ids[y]}
  {
    if i != x && i != y {
      assert ids[i] !in {ids[x], ids[y]};
    } else {
      assert j != x && j != y;
      assert ids[j] !in {ids[x], ids[y]};
    }
  }

  /** The listed position pairs have been answered in order: each shows what it should and is remembered under the ids
      its venues are filed by; the cache is untouched for all other pairs of the venues. */
  ghost predicate Answered(
    pairs: seq<Pair>, done: seq<(nat, nat)>, repo: Repo, req: Request,
    before: map<string, CachedPair>, data: map<string, CachedPair>, ttl: int, now: int)
    requires UsableRepo(repo)
  {
    var ids := FiledIds(repo, req.venueIds);
    && |pairs| == |done|
    && (forall k :: 0 <= k < |done| ==>
          && done[k].0 < done[k].1 < |ids|
          && Shows(pairs[k], repo, req, done[k].0, done[k].1, before, ttl, now)
          && var a, b := ids[done[k].0], ids[done[k].1];
          Remembered(data, Entry(before, a, b), req, pairs[k].tokens, a, b, ttl, now))
    && (forall x: nat, y: nat :: x < y < |ids| && (x, y) !in done ==>
          Entry(data, ids[x], ids[y]) == Entry(before, ids[x], ids[y]))
  }

  lemma AnswerOne(
    pairs: seq<Pair>, p: Pair, done: seq<(nat, nat)>, ij: (nat, nat), repo: Repo, req: Request,
    before: map<string, CachedPair>, data: map<string, CachedPair>, data': map<string, CachedPair>, ttl: int, now: int)
    requires UsableRepo(repo) && FiledApart(repo, req.venueIds) && ij.0 < ij.1 < |req.venueIds| && ij !in done
    requires Answered(pairs, done, repo, req, before, data, ttl, now)
    requires var a, b := FiledIds(repo, req.venueIds)[ij.0], FiledIds(repo, req.venueIds)[ij.1];
      && Shows(p, repo, req, ij.0, ij.1, data, ttl, now)
      && Remembered(data', Entry(data, a, b), req, p.tokens, a, b, ttl, now)
      && (forall c: Uuid, d: Uuid :: {c, d} != {a, b} ==> Entry(data', c, d) == Entry(data, c, d))
    ensures Answered(pairs + [p], done + [ij], repo, req, before, data', ttl, now)
  {
    var ids := FiledIds(repo, req.venueIds);
    forall x: nat, y: nat | x < y < |ids| && (x, y) != ij
      ensures Entry(data', ids[x], ids[y]) == Entry(data, ids[x], ids[y])
    {
      DistinctPairs(ids, x, y, ij.0, ij.1);
    }
    forall k | 0 <= k < |done|
      ensures done[k] != ij
      ensures Entry(data', ids[done[k].0], ids[done[k].1]) == Entry(data, ids[done[k].0], ids[done[k].1])
    {
      assert done[k] in done;
    }
  }

  /** The keys of every pair of the venues. */
  ghost function KeysOf(ids: seq<Uuid>): set<string> {
    set x, y | 0 <= x < y < |ids| :: MakeKey(ids[x], ids[y])
  }

  /** The request left every pair alone that it did not ask for. */
  ghost predicate OutsideKept(before: map<string, CachedPair>, data: map<string, CachedPair>, ids: seq<Uuid>) {
    forall c: Uuid, d: Uuid ::
      (forall x, y :: 0 <= x < y < |ids| ==> {ids[x], ids[y]} != {c, d}) ==> Entry(data, c, d) == Entry(before, c, d)
  }

  lemma KeysOutside(ids: seq<Uuid>, c: Uuid, d: Uuid)
    requires forall x, y :: 0 <= x < y < |ids| ==> {ids[x], ids[y]} != {c, d}
    ensures MakeKey(c, d) !in KeysOf(ids)
  {
    forall x, y | 0 <= x < y < |ids| ensures MakeKey(ids[x], ids[y]) != MakeKey(c, d) {
      KeyIdentifiesPair(ids[x], ids[y], c, d);
    }
  }

  lemma EntryOutside(
    before: map<string, CachedPair>, data: map<string, CachedPair>, keys: set<string>, c: Uuid, d: Uuid)
    requires data - keys == before - keys && MakeKey(c, d) !in keys
    ensures Entry(data, c, d) == Entry(before, c, d)
  {
    var k := MakeKey(c, d);
    assert k in data <==> k in data - keys;
    assert k in before <==> k in before - keys;
    assert k in data ==> data[k] == (data - keys)[k] == (before - keys)[k] == before[k];
  }

  lemma OtherKeysKept(before: map<string, CachedPair>, data: map<string, CachedPair>, ids: seq<Uuid>)
    requires data - KeysOf(ids) == before - KeysOf(ids)
    ensures OutsideKept(before, data, ids)
  {
    forall c: Uuid, d: Uuid | forall x, y :: 0 <= x < y < |ids| ==> {ids[x], ids[y]} != {c, d}
      ensures Entry(data, c, d) == Entry(before, c, d)
    {
      KeysOutside(ids, c, d);
      EntryOutside(before, data, KeysOf(ids), c, d);
    }
  }

  lemma ResolvedOutside(repo: Repo, before: map<string, CachedPair>, data: map<string, CachedPair>, ids: seq<Uuid>)
    requires OutsideKept(before, data, FiledIds(repo, ids))
    ensures Resolved(repo, ids) ==> OutsideKept(before, data, ids)
  {
    if Resolved(repo, ids) {
      ResolvedIds(repo, ids);
    }
  }

  lemma FiledKey(repo: Repo, ids: seq<Uuid>, i: nat, j: nat)
    requires i < j < |ids|
    ensures MakeKey(VenueOf(VenueMap(repo.venues), ids[i]).id, VenueOf(VenueMap(repo.venues), ids[j]).id)
      in KeysOf(FiledIds(repo, ids))
  {
    var filed := FiledIds(repo, ids);
    assert MakeKey(filed[i], filed[j]) in KeysOf(filed);
  }

  lemma MoreKeysKept(before: map<string, CachedPair>, data: map<string, CachedPair>, key: string, keys: set<string>)
    requires data - {key} == before - {key} && key in keys
    ensures data - keys == before - keys
  {
    assert data - keys == data - {key} - keys && before - keys == before - {key} - keys;
  }

  /** Nothing of row i has been passed. */
  ghost predicate RowAhead(done: seq<(nat, nat)>, i: nat) {
    forall ij :: ij in done ==> ij.0 < i
  }

  lemma RowsAhead(n: nat, i: nat)
    requires i < n
    ensures RowAhead(Rows(n, i), i) && Rows(n, i + 1) == Rows(n, i) + Row(i, n)
  {
    forall ij | ij in Rows(n, i) ensures ij.0 < i {
      RowsMember(n, i, ij);
    }
  }

  /** Where the loops stand at (i, j): that pair is new, and comes next. */
  lemma RowPassed(done: seq<(nat, nat)>, i: nat, j: nat)
    requires i < j && RowAhead(done, i)
    ensures (i, j) !in done + Row(i, j) && done + Row(i, j + 1) == done + Row(i, j) + [(i, j)]
  {
    RowMember(i, j, (i, j));
    assert Row(i, j + 1) == Row(i, j) + [(i, j)];
  }
}
