/** The table behind the endpoint: flatten by symbol, sort, cut a page, redistribute it over the venue pairs. */
module Pages {
  import opened Basics
  import opened Arbitrage

  datatype VenueInfo = VenueInfo(id: Uuid, code: string, name: string)
  datatype Pair = Pair(venueA: VenueInfo, venueB: VenueInfo, tokens: seq<Token>)

  // ---- sort keys ----

  function SortField(t: Token, sortBy: string): Option<real> {
    match sortBy
    case "rate_1h_desc" => t.rate1hPercent
    case "rate_8h_desc" => t.rate8hPercent
    case "apr_desc" => t.aprPercent
    case "spread_desc" => t.priceSpreadPercent
    case _ => t.rate8hPercent
  }

  function GetSortValue(t: Token, sortBy: string): real {
    match SortField(t, sortBy)
    case None => -1.0
    case Some(x) => x
  }

  predicate IsBetter(a: Token, b: Token, sortBy: string) {
    GetSortValue(a, sortBy) > GetSortValue(b, sortBy)
  }

  /** The comparison the sort uses: larger first, absent last. */
  predicate Above(a: Option<real>, b: Option<real>) {
    a.Some? && (b.None? || a.value > b.value)
  }

  predicate SortsBefore(a: Token, b: Token, sortBy: string) {
    Above(SortField(a, sortBy), SortField(b, sortBy))
  }

  ghost predicate NonNegative(tokens: seq<Token>, sortBy: string) {
    forall i :: 0 <= i < |tokens| && SortField(tokens[i], sortBy).Some? ==> SortField(tokens[i], sortBy).value >= 0.0
  }

  /** Two comparisons are used, one with a -1 sentinel and one with absent values last; they agree on
      everything the service builds. */
  lemma SentinelAgrees(a: Token, b: Token, sortBy: string)
    requires NonNegative([a, b], sortBy)
    ensures IsBetter(a, b, sortBy) <==> SortsBefore(a, b, sortBy)
  {
    assert [a, b][0] == a && [a, b][1] == b;
  }

  /** Sorting by hour, by eight hours or by year orders built tokens the same way. */
  lemma RateSortsAgree(a: Token, b: Token)
    requires Built(a) && Built(b)
    ensures SortsBefore(a, b, "rate_1h_desc") == SortsBefore(a, b, "rate_8h_desc") == SortsBefore(a, b, "apr_desc")
  {
  }

  // ---- flattening ----

  function AllTokens(pairs: seq<Pair>): seq<Token> {
    if pairs == [] then [] else AllTokens(pairs[..|pairs| - 1]) + pairs[|pairs| - 1].tokens
  }

  /** The first token of each symbol that no other of that symbol beats. */
  function Best(tokens: seq<Token>, sortBy: string): map<string, Token> {
    if tokens == [] then map[]
    else
      var best := Best(tokens[..|tokens| - 1], sortBy);
      var t := tokens[|tokens| - 1];
      if t.symbol !in best || IsBetter(t, best[t.symbol], sortBy) then best[t.symbol := t] else best
  }

  /** Of the tokens of one symbol the best is kept, the first one among equals. */
  lemma {:induction false} BestIsFirst(tokens: seq<Token>, sortBy: string, k: nat)
    requires k < |tokens|
    requires forall j :: 0 <= j < k && tokens[j].symbol == tokens[k].symbol ==>
      GetSortValue(tokens[j], sortBy) < GetSortValue(tokens[k], sortBy)
    requires forall j :: k < j < |tokens| && tokens[j].symbol == tokens[k].symbol ==>
      GetSortValue(tokens[j], sortBy) <= GetSortValue(tokens[k], sortBy)
    ensures tokens[k].symbol in Best(tokens, sortBy) && Best(tokens, sortBy)[tokens[k].symbol] == tokens[k]
  {
    var init := tokens[..|tokens| - 1];
    if k < |init| {
      assert forall j :: 0 <= j < |init| ==> init[j] == tokens[j];
      BestIsFirst(init, sortBy, k);
    } else {
      BestComesFrom(init, sortBy, tokens[k].symbol);
    }
  }

  lemma {:induction false} BestComesFrom(tokens: seq<Token>, sortBy: string, symbol: string)
    ensures symbol in Best(tokens, sortBy) ==>
      exists j :: 0 <= j < |tokens| && tokens[j] == Best(tokens, sortBy)[symbol] && tokens[j].symbol == symbol
  {
    if tokens != [] {
      var init := tokens[..|tokens| - 1];
      BestComesFrom(init, sortBy, symbol);
      assert forall j :: 0 <= j < |init| ==> init[j] == tokens[j];
    }
  }

  lemma {:induction false} BestIsBest(tokens: seq<Token>, sortBy: string)
    ensures forall i :: 0 <= i < |tokens| ==>
      tokens[i].symbol in Best(tokens, sortBy) && !IsBetter(tokens[i], Best(tokens, sortBy)[tokens[i].symbol], sortBy)
    ensures forall s :: s in Best(tokens, sortBy) ==>
      Best(tokens, sortBy)[s].symbol == s && Best(tokens, sortBy)[s] in tokens
  {
    if tokens != [] {
      BestIsBest(tokens[..|tokens| - 1], sortBy);
    }
  }

  ghost predicate DistinctSymbols(tokens: seq<Token>) {
    forall i, j :: 0 <= i < j < |tokens| ==> tokens[i].symbol != tokens[j].symbol
  }

  /** The values of a map, one per key, in any order. */
  ghost predicate Lists(tokens: seq<Token>, best: map<string, Token>) {
    && DistinctSymbols(tokens)
    && (forall i :: 0 <= i < |tokens| ==> tokens[i].symbol in best && best[tokens[i].symbol] == tokens[i])
    && (forall s :: s in best ==> best[s] in tokens)
  }

  lemma BestNext(before: seq<Token>, tokens: seq<Token>, j: nat, sortBy: string)
    requires j < |tokens|
    ensures var best := Best(before + tokens[..j], sortBy);
      Best(before + tokens[..j + 1], sortBy) ==
        if tokens[j].symbol !in best || IsBetter(tokens[j], best[tokens[j].symbol], sortBy)
        then best[tokens[j].symbol := tokens[j]] else best
  {
    var all := before + tokens[..j + 1];
    assert all[..|all| - 1] == before + tokens[..j] && all[|all| - 1] == tokens[j];
  }

  lemma AllTokensNext(pairs: seq<Pair>, i: nat)
    requires i < |pairs|
    ensures AllTokens(pairs[..i + 1]) == AllTokens(pairs[..i]) + pairs[i].tokens[..|pairs[i].tokens|]
    ensures AllTokens(pairs[..i]) == AllTokens(pairs[..i]) + pairs[i].tokens[..0]
  {
    assert pairs[..i + 1][..i] == pairs[..i];
  }

  method CollectBest(pairs: seq<Pair>, sortBy: string) returns (best: map<string, Token>)
    ensures best == Best(AllTokens(pairs), sortBy)
  {
    best := map[];
    for i := 0 to |pairs|
      invariant best == Best(AllTokens(pairs[..i]), sortBy)
    {
      ghost var before := AllTokens(pairs[..i]);
      var tokens := pairs[i].tokens;
      AllTokensNext(pairs, i);
      for j := 0 to |tokens|
        invariant best == Best(before + tokens[..j], sortBy)
      {
        var t := tokens[j];
        BestNext(before, tokens, j, sortBy);
        if t.symbol !in best || IsBetter(t, best[t.symbol], sortBy) {
          best := best[t.symbol := t];
        }
      }
    }
    assert pairs[..|pairs|] == pairs;
  }

  /** The result's order is the order the map happened to be read in. */
  ghost predicate ListsKeys(tokens: seq<Token>, best: map<string, Token>, shown: set<string>) {
    && shown <= best.Keys && DistinctSymbols(tokens)
    && (forall i :: 0 <= i < |tokens| ==> tokens[i].symbol in shown && best[tokens[i].symbol] == tokens[i])
    && (forall s :: s in shown ==> best[s] in tokens)
  }

  lemma ListsOneMore(tokens: seq<Token>, best: map<string, Token>, shown: set<string>, s: string)
    requires ListsKeys(tokens, best, shown) && s in best.Keys - shown && best[s].symbol == s
    ensures ListsKeys(tokens + [best[s]], best, shown + {s})
  {
    assert (tokens + [best[s]])[|tokens|] == best[s];
    assert forall t :: t in tokens ==> t in tokens + [best[s]];
  }

  /** The loop over the map, in whatever order it comes. */
  method ListValues(best: map<string, Token>) returns (result: seq<Token>)
    requires forall s :: s in best ==> best[s].symbol == s
    ensures Lists(result, best)
  {
    result := [];
    var left := best.Keys;
    while left != {}
      invariant left <= best.Keys && ListsKeys(result, best, best.Keys - left)
      decreases |left|
    {
      var s :| s in left;
      ListsOneMore(result, best, best.Keys - left, s);
      assert best.Keys - (left - {s}) == best.Keys - left + {s};
      left := left - {s};
      result := result + [best[s]];
    }
    assert best.Keys - {} == best.Keys;
  }

  method FlattenTokens(pairs: seq<Pair>, sortBy: string) returns (result: seq<Token>)
    ensures Lists(result, Best(AllTokens(pairs), sortBy))
  {
    var best := CollectBest(pairs, sortBy);
    BestIsBest(AllTokens(pairs), sortBy);
    result := ListValues(best);
  }

  // ---- sorting ----

  ghost predicate Descending(tokens: seq<Token>, sortBy: string) {
    forall i, j :: 0 <= i < j < |tokens| ==> !SortsBefore(tokens[j], tokens[i], sortBy)
  }

  /** Larger first, a missing value last. */
  ghost predicate Falling(values: seq<Option<real>>) {
    forall i, j :: 0 <= i < j < |values| ==>
      values[j].Some? ==> values[i].Some? && values[i].value >= values[j].value
  }

  ghost predicate FallingBy(tokens: seq<Token>, field: Token -> Option<real>) {
    Falling(seq(|tokens|, i requires 0 <= i < |tokens| => field(tokens[i])))
  }

  lemma FallsBy(tokens: seq<Token>, sortBy: string, field: Token -> Option<real>)
    requires Descending(tokens, sortBy) && forall t :: field(t) == SortField(t, sortBy)
    ensures FallingBy(tokens, field)
  {
    var values := seq(|tokens|, i requires 0 <= i < |tokens| => field(tokens[i]));
    forall i, j | 0 <= i < j < |values|
      ensures values[j].Some? ==> values[i].Some? && values[i].value >= values[j].value
    {
      assert !SortsBefore(tokens[j], tokens[i], sortBy);
    }
  }

  /** A sorted list falls in the figure that was asked for; an unknown name asks for the eight-hour rate. */
  lemma DescendingFalls(tokens: seq<Token>, sortBy: string)
    requires Descending(tokens, sortBy)
    ensures sortBy == "rate_1h_desc" ==> FallingBy(tokens, (t: Token) => t.rate1hPercent)
    ensures sortBy == "rate_8h_desc" ==> FallingBy(tokens, (t: Token) => t.rate8hPercent)
    ensures sortBy == "apr_desc" ==> FallingBy(tokens, (t: Token) => t.aprPercent)
    ensures sortBy == "spread_desc" ==> FallingBy(tokens, (t: Token) => t.priceSpreadPercent)
    ensures sortBy !in {"rate_1h_desc", "apr_desc", "spread_desc"} ==> FallingBy(tokens, (t: Token) => t.rate8hPercent)
  {
    if sortBy == "rate_1h_desc" {
      FallsBy(tokens, sortBy, (t: Token) => t.rate1hPercent);
    } else if sortBy == "apr_desc" {
      FallsBy(tokens, sortBy, (t: Token) => t.aprPercent);
    } else if sortBy == "spread_desc" {
      FallsBy(tokens, sortBy, (t: Token) => t.priceSpreadPercent);
    } else {
      FallsBy(tokens, sortBy, (t: Token) => t.rate8hPercent);
    }
  }

  /** Some token that no other comes before. */
  method PickFirst(tokens: seq<Token>, sortBy: string) returns (k: nat)
    requires tokens != []
    ensures k < |tokens| && forall i :: 0 <= i < |tokens| ==> !SortsBefore(tokens[i], tokens[k], sortBy)
  {
    k := 0;
    for i := 1 to |tokens|
      invariant k < i && forall m :: 0 <= m < i ==> !SortsBefore(tokens[m], tokens[k], sortBy)
    {
      if SortsBefore(tokens[i], tokens[k], sortBy) {
        k := i;
      }
    }
  }

  /** What is sorted so far comes before everything left. */
  ghost predicate SplitAt(sorted: seq<Token>, left: seq<Token>, sortBy: string) {
    && Descending(sorted, sortBy)
    && forall i, j :: 0 <= i < |sorted| && 0 <= j < |left| ==> !SortsBefore(left[j], sorted[i], sortBy)
  }

  lemma MoveFirst(sorted: seq<Token>, left: seq<Token>, k: nat, sortBy: string)
    requires SplitAt(sorted, left, sortBy) && k < |left|
    requires forall i :: 0 <= i < |left| ==> !SortsBefore(left[i], left[k], sortBy)
    ensures SplitAt(sorted + [left[k]], left[..k] + left[k + 1..], sortBy)
  {
    var rest := left[..k] + left[k + 1..];
    assert forall j :: 0 <= j < |rest| ==> rest[j] == left[if j < k then j else j + 1];
  }

  lemma MoveKeeps(sorted: seq<Token>, left: seq<Token>, k: nat)
    requires k < |left|
    ensures multiset(sorted + [left[k]]) + multiset(left[..k] + left[k + 1..]) == multiset(sorted) + multiset(left)
  {
    assert left == left[..k] + [left[k]] + left[k + 1..];
  }

  /** An unstable sort: tokens with equal keys may come out in any order. */
  method SortTokens(tokens: seq<Token>, sortBy: string) returns (sorted: seq<Token>)
    ensures multiset(sorted) == multiset(tokens) && Descending(sorted, sortBy)
  {
    sorted := [];
    var left := tokens;
    while left != []
      invariant multiset(sorted) + multiset(left) == multiset(tokens)
      invariant SplitAt(sorted, left, sortBy)
      decreases |left|
    {
      var k := PickFirst(left, sortBy);
      MoveFirst(sorted, left, k, sortBy);
      MoveKeeps(sorted, left, k);
      sorted := sorted + [left[k]];
      left := left[..k] + left[k + 1..];
    }
  }

  // ---- the order of values depends only on the pairs ----

  function Fields(tokens: seq<Token>, sortBy: string): seq<Option<real>> {
    seq(|tokens|, i requires 0 <= i < |tokens| => SortField(tokens[i], sortBy))
  }

  ghost function Item(t: Token, sortBy: string): (string, Option<real>) {
    (t.symbol, SortField(t, sortBy))
  }

  /** What a table shows of its tokens: each symbol with each value it has. */
  ghost function Items(tokens: seq<Token>, sortBy: string): set<(string, Option<real>)> {
    set t | t in tokens :: Item(t, sortBy)
  }

  /** Per symbol, the items no other item of the symbol is above. */
  ghost function TopItems(items: set<(string, Option<real>)>): set<(string, Option<real>)> {
    set x | x in items && (forall y :: y in items && y.0 == x.0 ==> !Above(y.1, x.1))
  }

  /** The token kept for a symbol carries the symbol's top item, and any top item is its own. */
  lemma WinnerIsTop(tokens: seq<Token>, t: Token, sortBy: string)
    requires NonNegative(tokens, sortBy) && t in tokens
    ensures var best := Best(tokens, sortBy);
      && t.symbol in best && best[t.symbol].symbol == t.symbol && best[t.symbol] in tokens
      && !SortsBefore(t, best[t.symbol], sortBy)
  {
    BestIsBest(tokens, sortBy);
    var top := Best(tokens, sortBy)[t.symbol];
    var i :| 0 <= i < |tokens| && tokens[i] == t;
    var j :| 0 <= j < |tokens| && tokens[j] == top;
    assert !IsBetter(tokens[i], top, sortBy);
    SentinelAgrees(t, top, sortBy);
  }

  lemma WinnerItemIsTop(tokens: seq<Token>, t: Token, sortBy: string)
    requires NonNegative(tokens, sortBy) && t in tokens
    requires t.symbol in Best(tokens, sortBy) && Best(tokens, sortBy)[t.symbol] == t
    ensures Item(t, sortBy) in TopItems(Items(tokens, sortBy))
  {
    forall y | y in Items(tokens, sortBy) && y.0 == t.symbol ensures !Above(y.1, SortField(t, sortBy)) {
      var u :| u in tokens && Item(u, sortBy) == y;
      assert y == (u.symbol, SortField(u, sortBy));
      WinnerIsTop(tokens, u, sortBy);
    }
  }

  lemma TopItemIsWinner(tokens: seq<Token>, t: Token, sortBy: string)
    requires NonNegative(tokens, sortBy) && t in tokens && Item(t, sortBy) in TopItems(Items(tokens, sortBy))
    ensures t.symbol in Best(tokens, sortBy) && Item(Best(tokens, sortBy)[t.symbol], sortBy) == Item(t, sortBy)
  {
    WinnerIsTop(tokens, t, sortBy);
    var top := Best(tokens, sortBy)[t.symbol];
    assert Item(top, sortBy) in Items(tokens, sortBy);
    assert !Above(SortField(top, sortBy), SortField(t, sortBy));
  }

  /** Flattening keeps, per symbol, the maximum over all pairs. */
  lemma FlattenedItems(r: seq<Token>, tokens: seq<Token>, sortBy: string)
    requires NonNegative(tokens, sortBy) && Lists(r, Best(tokens, sortBy))
    ensures Items(r, sortBy) == TopItems(Items(tokens, sortBy))
  {
    BestIsBest(tokens, sortBy);
    forall x | x in Items(r, sortBy) ensures x in TopItems(Items(tokens, sortBy)) {
      var t :| t in r && Item(t, sortBy) == x;
      WinnerItemIsTop(tokens, t, sortBy);
    }
    forall x | x in TopItems(Items(tokens, sortBy)) ensures x in Items(r, sortBy) {
      var t :| t in tokens && Item(t, sortBy) == x;
      TopItemIsWinner(tokens, t, sortBy);
      assert Best(tokens, sortBy)[t.symbol] in r;
    }
  }

  ghost predicate DescendingFields(f: seq<Option<real>>) {
    forall i, j :: 0 <= i < j < |f| ==> !Above(f[j], f[i])
  }

  lemma HeadIsTop(f: seq<Option<real>>, x: Option<real>)
    requires f != [] && DescendingFields(f) && x in multiset(f)
    ensures !Above(x, f[0])
  {
    var i :| 0 <= i < |f| && f[i] == x;
  }

  lemma TailMultiset(f: seq<Option<real>>)
    requires f != [] && DescendingFields(f)
    ensures f == [f[0]] + f[1..] && multiset(f[1..]) == multiset(f) - multiset{f[0]} && f[0] in multiset(f)
    ensures DescendingFields(f[1..])
  {
    assert f == [f[0]] + f[1..];
  }

  lemma SameSize(f: seq<Option<real>>, g: seq<Option<real>>)
    requires multiset(f) == multiset(g)
    ensures |f| == |g|
  {
    assert |multiset(f)| == |multiset(g)|;
  }

  lemma {:induction false} DescendingUnique(f: seq<Option<real>>, g: seq<Option<real>>)
    requires DescendingFields(f) && DescendingFields(g) && multiset(f) == multiset(g)
    ensures f == g
  {
    SameSize(f, g);
    if |f| > 0 {
      TailMultiset(f);
      TailMultiset(g);
      HeadIsTop(f, g[0]);
      HeadIsTop(g, f[0]);
      DescendingUnique(f[1..], g[1..]);
    }
  }

  lemma {:induction false} SameItemsSameMultiset(q: seq<Token>, r: seq<Token>, sortBy: string)
    requires DistinctSymbols(q) && DistinctSymbols(r) && Items(q, sortBy) == Items(r, sortBy)
    ensures multiset(Fields(q, sortBy)) == multiset(Fields(r, sortBy))
  {
    if q == [] {
      SomeItem(r, sortBy);
    } else {
      var j := ItemPosition(r, Item(q[0], sortBy), sortBy);
      ItemsWithout(q, 0, sortBy);
      ItemsWithout(r, j, sortBy);
      FieldsWithout(q, 0, sortBy);
      FieldsWithout(r, j, sortBy);
      SameItemsSameMultiset(Without(q, 0), Without(r, j), sortBy);
    }
  }

  lemma SomeItem(r: seq<Token>, sortBy: string)
    ensures r != [] ==> Items(r, sortBy) != {}
  {
    if r != [] {
      assert Item(r[0], sortBy) in Items(r, sortBy);
    }
  }

  ghost function Without(r: seq<Token>, j: nat): seq<Token>
    requires j < |r|
  {
    r[..j] + r[j + 1..]
  }

  lemma ItemPosition(r: seq<Token>, x: (string, Option<real>), sortBy: string) returns (j: nat)
    requires x in Items(r, sortBy)
    ensures j < |r| && Item(r[j], sortBy) == x
  {
    var t :| t in r && Item(t, sortBy) == x;
    j :| 0 <= j < |r| && r[j] == t;
  }

  lemma ItemsWithout(r: seq<Token>, j: nat, sortBy: string)
    requires j < |r| && DistinctSymbols(r)
    ensures Items(Without(r, j), sortBy) == Items(r, sortBy) - {Item(r[j], sortBy)}
    ensures DistinctSymbols(Without(r, j)) && |Without(r, j)| == |r| - 1
  {
    var rest := Without(r, j);
    forall x | x in Items(r, sortBy) && x != Item(r[j], sortBy) ensures x in Items(rest, sortBy) {
      var i := ItemPosition(r, x, sortBy);
      assert rest[if i < j then i else i - 1] == r[i];
    }
    forall x | x in Items(rest, sortBy) ensures x in Items(r, sortBy) && x != Item(r[j], sortBy) {
      var i := ItemPosition(rest, x, sortBy);
      assert rest[i] == r[if i < j then i else i + 1];
    }
  }

  lemma FieldsWithout(r: seq<Token>, j: nat, sortBy: string)
    requires j < |r|
    ensures multiset(Fields(r, sortBy)) == multiset{SortField(r[j], sortBy)} + multiset(Fields(Without(r, j), sortBy))
  {
    var f := Fields(r, sortBy);
    assert f == f[..j] + [f[j]] + f[j + 1..];
    assert Fields(Without(r, j), sortBy) == f[..j] + f[j + 1..];
  }

  // ---- sorting keeps the listing ----

  lemma {:induction false} DistinctMeansOnce(r: seq<Token>, t: Token)
    requires DistinctSymbols(r)
    ensures multiset(r)[t] <= 1
  {
    if r != [] {
      var init, last := r[..|r| - 1], r[|r| - 1];
      assert r == init + [last];
      DistinctMeansOnce(init, t);
      assert last !in init;
    }
  }

  lemma TwiceCounted(r: seq<Token>, i: nat, j: nat)
    requires i < j < |r| && r[i] == r[j]
    ensures multiset(r)[r[i]] >= 2
  {
    assert r == r[..j] + r[j..] && r[..j][i] == r[i] && r[j..][0] == r[j];
  }

  lemma SortKeepsListing(r: seq<Token>, sorted: seq<Token>, best: map<string, Token>)
    requires multiset(sorted) == multiset(r) && Lists(r, best)
    ensures Lists(sorted, best)
  {
    forall i | 0 <= i < |sorted| ensures sorted[i] in r {
      assert sorted[i] in multiset(sorted);
    }
    forall i, j | 0 <= i < j < |sorted| ensures sorted[i].symbol != sorted[j].symbol {
      assert sorted[i] in r && sorted[j] in r;
      DistinctMeansOnce(r, sorted[i]);
      if sorted[i] == sorted[j] {
        TwiceCounted(sorted, i, j);
      }
    }
    forall s | s in best ensures best[s] in sorted {
      assert best[s] in multiset(r);
    }
  }

  /** Two tables showing the same values per symbol (in whatever order, paired however, built in whatever map
      order) yield the same sequence of sort values once flattened and sorted, by any descending sort. */
  lemma ValuesDependOnlyOnItems(p: seq<Pair>, q: seq<Pair>, r: seq<Token>, s: seq<Token>, sortBy: string)
    requires NonNegative(AllTokens(p), sortBy) && NonNegative(AllTokens(q), sortBy)
    requires Items(AllTokens(p), sortBy) == Items(AllTokens(q), sortBy)
    requires Lists(r, Best(AllTokens(p), sortBy)) && Descending(r, sortBy)
    requires Lists(s, Best(AllTokens(q), sortBy)) && Descending(s, sortBy)
    ensures Fields(r, sortBy) == Fields(s, sortBy)
  {
    FlattenedItems(r, AllTokens(p), sortBy);
    FlattenedItems(s, AllTokens(q), sortBy);
    SameItemsSameMultiset(r, s, sortBy);
    DescendingUnique(Fields(r, sortBy), Fields(s, sortBy));
  }

  // ---- cutting pages ----

  function ComputeTotalPages(total: int, limit: int): int {
    if limit <= 0 || total <= 0 then 0 else (total + limit - 1) / limit
  }

  /** The page that starts at offset, and whether more follows. */
  function ApplyGlobalPagination(flattened: seq<Token>, offset: nat, limit: nat): (seq<Token>, bool) {
    if offset >= |flattened| then ([], false)
    else
      var end := if offset + limit > |flattened| then |flattened| else offset + limit;
      (flattened[offset..end], end < |flattened|)
  }

  /** Page numbers start at one. */
  ghost function Page(flattened: seq<Token>, page: nat, limit: nat): seq<Token>
    requires page >= 1
  {
    ApplyGlobalPagination(flattened, (page - 1) * limit, limit).0
  }

  ghost function FirstPages(flattened: seq<Token>, pages: nat, limit: nat): seq<Token> {
    if pages == 0 then [] else FirstPages(flattened, pages - 1, limit) + Page(flattened, pages, limit)
  }

  lemma {:induction false} FirstPagesArePrefix(flattened: seq<Token>, pages: nat, limit: nat)
    requires limit >= 1
    ensures FirstPages(flattened, pages, limit)
      == if pages * limit <= |flattened| then flattened[..pages * limit] else flattened
  {
    if pages > 0 {
      FirstPagesArePrefix(flattened, pages - 1, limit);
      assert pages * limit == (pages - 1) * limit + limit;
    }
  }

  lemma TotalPagesCover(total: nat, limit: nat)
    requires limit >= 1
    ensures var n := ComputeTotalPages(total, limit);
      n >= 0 && n * limit >= total && (n - 1) * limit < (if total == 0 then 1 else total)
  {
    if total > 0 {
      var n := (total + limit - 1) / limit;
      assert (total + limit - 1) == n * limit + (total + limit - 1) % limit;
      assert (n - 1) * limit == n * limit - limit;
    }
  }

  /** The pages 1 to total_pages are the whole list, in order and without overlap. */
  lemma PagesConcatenate(flattened: seq<Token>, limit: nat)
    requires limit >= 1
    ensures ComputeTotalPages(|flattened|, limit) >= 0
    ensures FirstPages(flattened, ComputeTotalPages(|flattened|, limit), limit) == flattened
  {
    TotalPagesCover(|flattened|, limit);
    FirstPagesArePrefix(flattened, ComputeTotalPages(|flattened|, limit), limit);
  }

  /** has_more is set exactly before the last page. */
  lemma HasMoreIff(flattened: seq<Token>, page: nat, limit: nat)
    requires limit >= 1 && page >= 1
    ensures ApplyGlobalPagination(flattened, (page - 1) * limit, limit).1
      <==> page < ComputeTotalPages(|flattened|, limit)
  {
    var total, n := |flattened|, ComputeTotalPages(|flattened|, limit);
    TotalPagesCover(total, limit);
    assert page * limit == (page - 1) * limit + limit;
    if page < n {
      MonotoneProduct(page, n - 1, limit);
    } else {
      MonotoneProduct(n, page, limit);
    }
  }

  lemma HasMoreMeans(flattened: seq<Token>, offset: nat, limit: nat)
    requires limit >= 1
    ensures ApplyGlobalPagination(flattened, offset, limit).1 <==> offset + limit < |flattened|
  {
  }

  /** A request may name any offset and is given the number of the page it falls on. At offset r into a page, has_more
      and page < total_pages disagree exactly when what follows the page is not empty but no longer than r. */
  lemma HasMoreAgreesIff(flattened: seq<Token>, offset: nat, limit: nat)
    requires limit >= 1
    ensures var page := offset / limit + 1;
      var more := ApplyGlobalPagination(flattened, offset, limit).1;
      && ((more <==> page < ComputeTotalPages(|flattened|, limit))
          <==> !(0 < |flattened| - page * limit <= offset % limit))
      && (more ==> page < ComputeTotalPages(|flattened|, limit))
  {
    var q, rest := offset / limit, offset % limit;
    assert offset == q * limit + rest;
    assert (q + 1) * limit == q * limit + limit;
    HasMoreIff(flattened, q + 1, limit);
    HasMoreMeans(flattened, q * limit, limit);
    HasMoreMeans(flattened, offset, limit);
  }

  /** Five tokens, pages of two, offset three: page 2 of 3, and no more. */
  lemma HasMoreDisagrees(flattened: seq<Token>)
    requires |flattened| == 5
    ensures !ApplyGlobalPagination(flattened, 3, 2).1 && 3 / 2 + 1 == 2 && ComputeTotalPages(5, 2) == 3
  {
    HasMoreAgreesIff(flattened, 3, 2);
  }

  /** Whatever the offset, the page is the stretch of the list from there on, of at most `limit` tokens. */
  lemma PageIsStretch(flattened: seq<Token>, offset: nat, limit: nat)
    ensures var page := ApplyGlobalPagination(flattened, offset, limit).0;
      && (offset >= |flattened| ==> page == [])
      && (offset < |flattened| ==>
            |page| == if offset + limit <= |flattened| then limit else |flattened| - offset)
      && forall k :: 0 <= k < |page| ==> page[k] == flattened[offset + k]
  {
  }

  lemma MonotoneProduct(a: int, b: int, limit: nat)
    requires a <= b
    ensures a * limit <= b * limit
  {
  }

  // ---- redistributing a page ----

  function SymbolsOf(tokens: seq<Token>): set<string> {
    set t | t in tokens :: t.symbol
  }

  function Kept(tokens: seq<Token>, allowed: set<string>): seq<Token> {
    if tokens == [] then []
    else
      Kept(tokens[..|tokens| - 1], allowed)
      + if tokens[|tokens| - 1].symbol in allowed then [tokens[|tokens| - 1]] else []
  }

  function Redistributed(pairs: seq<Pair>, paginated: seq<Token>): seq<Pair> {
    seq(|pairs|, i requires 0 <= i < |pairs| =>
      pairs[i].(tokens := Kept(pairs[i].tokens, SymbolsOf(paginated))))
  }

  /** Some token of the page has the symbol. */
  ghost predicate OnPage(page: seq<Token>, symbol: string) {
    exists u :: u in page && u.symbol == symbol
  }

  /** The tokens at the given positions, in that order: all those whose symbol is on the page, and no others. */
  ghost predicate PicksAt(picked: seq<Token>, tokens: seq<Token>, page: seq<Token>, at: seq<nat>) {
    && |picked| == |at|
    && (forall k :: 0 <= k < |at| ==> at[k] < |tokens| && picked[k] == tokens[at[k]])
    && (forall k, l :: 0 <= k < l < |at| ==> at[k] < at[l])
    && (forall j :: 0 <= j < |tokens| ==> (j in at <==> OnPage(page, tokens[j].symbol)))
  }

  /** What a page must show: every pair with its own venues, and of its own tokens, in their order and as often as it
      has them, exactly those whose symbol is on the page. */
  ghost predicate ShowsPage(shown: seq<Pair>, pairs: seq<Pair>, page: seq<Token>) {
    && |shown| == |pairs|
    && forall i :: 0 <= i < |pairs| ==>
         && shown[i].venueA == pairs[i].venueA && shown[i].venueB == pairs[i].venueB
         && exists at :: PicksAt(shown[i].tokens, pairs[i].tokens, page, at)
  }

  lemma OnPageIff(page: seq<Token>, symbol: string)
    ensures OnPage(page, symbol) <==> symbol in SymbolsOf(page)
  {
  }

  lemma PickNext(picked: seq<Token>, init: seq<Token>, t: Token, page: seq<Token>, at: seq<nat>)
    requires PicksAt(picked, init, page, at)
    ensures OnPage(page, t.symbol) ==> PicksAt(picked + [t], init + [t], page, at + [|init|])
    ensures !OnPage(page, t.symbol) ==> PicksAt(picked, init + [t], page, at)
  {
    var tokens := init + [t];
    assert forall j :: 0 <= j < |init| ==> tokens[j] == init[j];
    assert forall k :: 0 <= k < |at| ==> at[k] in at;
    if OnPage(page, t.symbol) {
      var at' := at + [|init|];
      assert at'[|at|] == |init|;
      forall j | 0 <= j < |tokens| ensures j in at' <==> OnPage(page, tokens[j].symbol) {
        assert j in at' <==> j in at || j == |init|;
      }
    }
  }

  lemma {:induction false} KeptPicks(tokens: seq<Token>, page: seq<Token>) returns (at: seq<nat>)
    ensures PicksAt(Kept(tokens, SymbolsOf(page)), tokens, page, at)
  {
    at := [];
    if tokens != [] {
      var init, t := tokens[..|tokens| - 1], tokens[|tokens| - 1];
      at := KeptPicks(init, page);
      PickNext(Kept(init, SymbolsOf(page)), init, t, page, at);
      OnPageIff(page, t.symbol);
      assert tokens == init + [t];
      if OnPage(page, t.symbol) {
        at := at + [|init|];
      }
    }
  }

  lemma RedistributedShowsPage(pairs: seq<Pair>, page: seq<Token>)
    ensures ShowsPage(Redistributed(pairs, page), pairs, page)
  {
    forall i | 0 <= i < |pairs|
      ensures exists at :: PicksAt(Redistributed(pairs, page)[i].tokens, pairs[i].tokens, page, at)
    {
      var at := KeptPicks(pairs[i].tokens, page);
      assert PicksAt(Redistributed(pairs, page)[i].tokens, pairs[i].tokens, page, at);
    }
  }

  method RedistributeTokens(pairs: seq<Pair>, paginated: seq<Token>) returns (result: seq<Pair>)
    ensures result == Redistributed(pairs, paginated) && ShowsPage(result, pairs, paginated)
  {
    RedistributedShowsPage(pairs, paginated);
    var allowed: set<string> := {};
    for i := 0 to |paginated|
      invariant allowed == SymbolsOf(paginated[..i])
    {
      assert paginated[..i + 1] == paginated[..i] + [paginated[i]];
      allowed := allowed + {paginated[i].symbol};
    }
    assert paginated[..|paginated|] == paginated;
    result := [];
    for i := 0 to |pairs|
      invariant result == Redistributed(pairs[..i], paginated)
    {
      var p, kept: seq<Token> := pairs[i], [];
      for j := 0 to |p.tokens|
        invariant kept == Kept(p.tokens[..j], allowed)
      {
        assert p.tokens[..j + 1][..j] == p.tokens[..j];
        if p.tokens[j].symbol in allowed {
          kept := kept + [p.tokens[j]];
        }
      }
      assert p.tokens[..|p.tokens|] == p.tokens;
      result := result + [p.(tokens := kept)];
    }
    assert pairs[..|pairs|] == pairs;
  }

  lemma {:induction false} KeptSplits(tokens: seq<Token>, a: set<string>, b: set<string>)
    requires a !! b
    ensures multiset(Kept(tokens, a + b)) == multiset(Kept(tokens, a)) + multiset(Kept(tokens, b))
  {
    if tokens != [] {
      KeptSplits(tokens[..|tokens| - 1], a, b);
    }
  }

  lemma {:induction false} KeptAll(tokens: seq<Token>, allowed: set<string>)
    requires forall i :: 0 <= i < |tokens| ==> tokens[i].symbol in allowed
    ensures Kept(tokens, allowed) == tokens
  {
    if tokens != [] {
      KeptAll(tokens[..|tokens| - 1], allowed);
    }
  }

  /** Filtering keeps the order: an allowed token comes right after the allowed ones that preceded it. */
  lemma {:induction false} KeptInOrder(tokens: seq<Token>, allowed: set<string>, i: nat)
    requires i < |tokens| && tokens[i].symbol in allowed
    ensures Kept(tokens[..i], allowed) + [tokens[i]] <= Kept(tokens, allowed)
  {
    var init := tokens[..|tokens| - 1];
    if i < |init| {
      KeptInOrder(init, allowed, i);
      assert init[..i] == tokens[..i];
    } else {
      assert tokens[..i] == init;
    }
  }

  /** What the pages so far have returned for the i-th pair, in total. */
  ghost function Returned(pairs: seq<Pair>, i: nat, flattened: seq<Token>, pages: nat, limit: nat): multiset<Token>
    requires i < |pairs|
  {
    if pages == 0 then multiset{}
    else
      Returned(pairs, i, flattened, pages - 1, limit)
      + multiset(Redistributed(pairs, Page(flattened, pages, limit))[i].tokens)
  }

  lemma PairReturned(pairs: seq<Pair>, i: nat, page: seq<Token>)
    requires i < |pairs|
    ensures |Redistributed(pairs, page)| == |pairs|
    ensures multiset(Redistributed(pairs, page)[i].tokens) == multiset(Kept(pairs[i].tokens, SymbolsOf(page)))
  {
  }

  lemma {:induction false} ReturnedIsShown(pairs: seq<Pair>, i: nat, flattened: seq<Token>, pages: nat, limit: nat)
    requires i < |pairs|
    ensures Returned(pairs, i, flattened, pages, limit) == Shown(pairs[i].tokens, flattened, pages, limit)
    decreases pages
  {
    if pages > 0 {
      PairReturned(pairs, i, Page(flattened, pages, limit));
      ReturnedIsShown(pairs, i, flattened, pages - 1, limit);
    }
  }

  /** What the filter keeps of one pair's tokens over the pages so far, in total. */
  ghost function Shown(tokens: seq<Token>, flattened: seq<Token>, pages: nat, limit: nat): multiset<Token> {
    if pages == 0 then multiset{}
    else
      Shown(tokens, flattened, pages - 1, limit)
      + multiset(Kept(tokens, SymbolsOf(Page(flattened, pages, limit))))
  }

  lemma {:induction false} NothingKept(tokens: seq<Token>)
    ensures Kept(tokens, {}) == []
  {
    if tokens != [] {
      NothingKept(tokens[..|tokens| - 1]);
    }
  }

  lemma SymbolsOfConcat(a: seq<Token>, b: seq<Token>)
    ensures SymbolsOf(a + b) == SymbolsOf(a) + SymbolsOf(b)
  {
  }

  lemma SlicesShareNoSymbol(flattened: seq<Token>, from: nat, end: nat)
    requires from <= end <= |flattened| && DistinctSymbols(flattened)
    ensures SymbolsOf(flattened[..from]) !! SymbolsOf(flattened[from..end])
  {
    forall t, u | t in flattened[..from] && u in flattened[from..end] ensures t.symbol != u.symbol {
      var i :| 0 <= i < from && flattened[..from][i] == t;
      var j :| 0 <= j < end - from && flattened[from..end][j] == u;
      assert flattened[i] == t && flattened[from + j] == u;
    }
  }

  lemma PageIsNew(flattened: seq<Token>, page: nat, limit: nat)
    requires limit >= 1 && page >= 1 && DistinctSymbols(flattened)
    ensures SymbolsOf(FirstPages(flattened, page - 1, limit)) !! SymbolsOf(Page(flattened, page, limit))
    ensures SymbolsOf(FirstPages(flattened, page, limit))
      == SymbolsOf(FirstPages(flattened, page - 1, limit)) + SymbolsOf(Page(flattened, page, limit))
  {
    var before, here := FirstPages(flattened, page - 1, limit), Page(flattened, page, limit);
    FirstPagesArePrefix(flattened, page - 1, limit);
    SymbolsOfConcat(before, here);
    if here != [] {
      var offset := (page - 1) * limit;
      SlicesShareNoSymbol(flattened, offset, offset + |here|);
      assert before == flattened[..offset] && here == flattened[offset..offset + |here|];
    }
  }

  lemma NextPageShows(tokens: seq<Token>, flattened: seq<Token>, page: nat, limit: nat)
    requires limit >= 1 && page >= 1 && DistinctSymbols(flattened)
    ensures multiset(Kept(tokens, SymbolsOf(FirstPages(flattened, page, limit))))
      == multiset(Kept(tokens, SymbolsOf(FirstPages(flattened, page - 1, limit))))
         + multiset(Kept(tokens, SymbolsOf(Page(flattened, page, limit))))
  {
    PageIsNew(flattened, page, limit);
    KeptSplits(tokens, SymbolsOf(FirstPages(flattened, page - 1, limit)), SymbolsOf(Page(flattened, page, limit)));
  }

  lemma {:induction false} ShownSoFar(tokens: seq<Token>, flattened: seq<Token>, pages: nat, limit: nat)
    requires limit >= 1 && DistinctSymbols(flattened)
    ensures Shown(tokens, flattened, pages, limit)
      == multiset(Kept(tokens, SymbolsOf(FirstPages(flattened, pages, limit))))
  {
    if pages == 0 {
      assert SymbolsOf([]) == {};
      NothingKept(tokens);
    } else {
      ShownSoFar(tokens, flattened, pages - 1, limit);
      NextPageShows(tokens, flattened, pages, limit);
    }
  }

  lemma {:induction false} TokenOfPair(pairs: seq<Pair>, i: nat, t: Token)
    requires i < |pairs| && t in pairs[i].tokens
    ensures t in AllTokens(pairs)
  {
    if i < |pairs| - 1 {
      TokenOfPair(pairs[..|pairs| - 1], i, t);
    }
  }

  lemma ShownConserves(pairs: seq<Pair>, i: nat, flattened: seq<Token>, sortBy: string, limit: nat)
    requires limit >= 1 && i < |pairs| && Lists(flattened, Best(AllTokens(pairs), sortBy))
    ensures ComputeTotalPages(|flattened|, limit) >= 0
    ensures Shown(pairs[i].tokens, flattened, ComputeTotalPages(|flattened|, limit), limit)
      == multiset(pairs[i].tokens)
  {
    PagesConcatenate(flattened, limit);
    ShownSoFar(pairs[i].tokens, flattened, ComputeTotalPages(|flattened|, limit), limit);
    BestIsBest(AllTokens(pairs), sortBy);
    forall k | 0 <= k < |pairs[i].tokens| ensures pairs[i].tokens[k].symbol in SymbolsOf(flattened) {
      var t := pairs[i].tokens[k];
      TokenOfPair(pairs, i, t);
      assert Best(AllTokens(pairs), sortBy)[t.symbol] in flattened;
    }
    KeptAll(pairs[i].tokens, SymbolsOf(flattened));
  }

  /** Paging one flattened list conserves tokens: over the pages 1 to total_pages every pair is returned with each of
      its tokens exactly as often as it has it. */
  lemma PagesConserveTokens(pairs: seq<Pair>, i: nat, flattened: seq<Token>, sortBy: string, limit: nat)
    requires limit >= 1 && i < |pairs| && Lists(flattened, Best(AllTokens(pairs), sortBy))
    ensures ComputeTotalPages(|flattened|, limit) >= 0
    ensures Returned(pairs, i, flattened, ComputeTotalPages(|flattened|, limit), limit)
      == multiset(pairs[i].tokens)
  {
    ShownConserves(pairs, i, flattened, sortBy, limit);
    ReturnedIsShown(pairs, i, flattened, ComputeTotalPages(|flattened|, limit), limit);
  }

  /** The handler's pipeline; `flattened` is the order this request happened to use. */
  method ServePage(pairs: seq<Pair>, sortBy: string, offset: nat, limit: nat)
    returns (shown: seq<Pair>, hasMore: bool, totalPages: int, flattened: seq<Token>)
    ensures Lists(flattened, Best(AllTokens(pairs), sortBy)) && Descending(flattened, sortBy)
    ensures shown == Redistributed(pairs, ApplyGlobalPagination(flattened, offset, limit).0)
    ensures ShowsPage(shown, pairs, ApplyGlobalPagination(flattened, offset, limit).0)
    ensures hasMore == ApplyGlobalPagination(flattened, offset, limit).1
    ensures totalPages == ComputeTotalPages(|flattened|, limit)
  {
    var unsorted := FlattenTokens(pairs, sortBy);
    var sorted := SortTokens(unsorted, sortBy);
    SortKeepsListing(unsorted, sorted, Best(AllTokens(pairs), sortBy));
    flattened := sorted;
    var paginated;
    var page := ApplyGlobalPagination(sorted, offset, limit);
    paginated, hasMore := page.0, page.1;
    shown := RedistributeTokens(pairs, paginated);
    totalPages := ComputeTotalPages(|sorted|, limit);
  }

  lemma {:induction false} AllTokensMembers(pairs: seq<Pair>, t: Token)
    ensures t in AllTokens(pairs) <==> exists i :: 0 <= i < |pairs| && t in pairs[i].tokens
  {
    if pairs != [] {
      var init, last := pairs[..|pairs| - 1], pairs[|pairs| - 1];
      AllTokensMembers(init, t);
      if exists i :: 0 <= i < |init| && t in init[i].tokens {
        var i :| 0 <= i < |init| && t in init[i].tokens;
        assert t in pairs[i].tokens;
      }
    }
  }
}
