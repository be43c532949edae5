/** Pages fetched one request at a time: each request flattens and sorts anew, so tied tokens may come out in another
    order on every page. */
module PageRequests {
  import opened Basics
  import opened Arbitrage
  import opened Pages

  /** A list one request may cut its page from. */
  ghost predicate Order(f: seq<Token>, best: map<string, Token>, sortBy: string) {
    Lists(f, best) && Descending(f, sortBy)
  }

  /** One list per page. */
  ghost predicate Orders(fs: seq<seq<Token>>, best: map<string, Token>, sortBy: string) {
    forall k :: 0 <= k < |fs| ==> Order(fs[k], best, sortBy)
  }

  /** What the requests for pages 1 to |fs| have returned for the i-th pair, in total. */
  ghost function ReturnedBy(pairs: seq<Pair>, i: nat, fs: seq<seq<Token>>, limit: nat): multiset<Token>
    requires i < |pairs|
  {
    if fs == [] then multiset{}
    else
      ReturnedBy(pairs, i, fs[..|fs| - 1], limit)
      + multiset(Redistributed(pairs, Page(fs[|fs| - 1], |fs|, limit))[i].tokens)
  }

  lemma {:induction false} ReturnedByIsShownBy(pairs: seq<Pair>, i: nat, fs: seq<seq<Token>>, limit: nat)
    requires i < |pairs|
    ensures ReturnedBy(pairs, i, fs, limit) == ShownBy(pairs[i].tokens, fs, limit)
  {
    if fs != [] {
      ReturnedByIsShownBy(pairs, i, fs[..|fs| - 1], limit);
      PairReturned(pairs, i, Page(fs[|fs| - 1], |fs|, limit));
    }
  }

  /** What the filter keeps of one pair's tokens over those requests, in total. */
  ghost function ShownBy(tokens: seq<Token>, fs: seq<seq<Token>>, limit: nat): multiset<Token> {
    if fs == [] then multiset{}
    else
      ShownBy(tokens, fs[..|fs| - 1], limit) + multiset(Kept(tokens, SymbolsOf(Page(fs[|fs| - 1], |fs|, limit))))
  }

  /** Over all pages, every pair is returned with each of its tokens exactly as often as it has it. */
  ghost predicate Conserves(pairs: seq<Pair>, fs: seq<seq<Token>>, limit: nat) {
    forall i :: 0 <= i < |pairs| ==> ReturnedBy(pairs, i, fs, limit) == multiset(pairs[i].tokens)
  }

  /** The tokens on both sides of some page boundary have the same value. */
  ghost predicate TiesAcross(f: seq<Token>, sortBy: string, limit: nat)
    requires limit >= 1
  {
    exists m :: 0 < m < |f| && m % limit == 0 && SortField(f[m - 1], sortBy) == SortField(f[m], sortBy)
  }

  // ---- all orders carry the same values ----

  lemma SameTokens(f: seq<Token>, g: seq<Token>, best: map<string, Token>, t: Token)
    requires Lists(f, best) && Lists(g, best) && t in f
    ensures t in g
  {
    var i :| 0 <= i < |f| && f[i] == t;
    assert best[f[i].symbol] in g;
  }

  lemma OrderItems(f: seq<Token>, g: seq<Token>, best: map<string, Token>, sortBy: string)
    requires Lists(f, best) && Lists(g, best)
    ensures Items(f, sortBy) <= Items(g, sortBy)
  {
    forall t | t in f ensures t in g {
      SameTokens(f, g, best, t);
    }
  }

  lemma SameFields(f: seq<Token>, g: seq<Token>, best: map<string, Token>, sortBy: string)
    requires Order(f, best, sortBy) && Order(g, best, sortBy)
    ensures Fields(f, sortBy) == Fields(g, sortBy) && |f| == |g|
  {
    OrderItems(f, g, best, sortBy);
    OrderItems(g, f, best, sortBy);
    SameItemsSameMultiset(f, g, sortBy);
    DescendingUnique(Fields(f, sortBy), Fields(g, sortBy));
    assert |Fields(f, sortBy)| == |f| && |Fields(g, sortBy)| == |g|;
  }

  // ---- without a tie at a boundary, both sides hold the same tokens in every order ----

  lemma StepDown(f: seq<Token>, sortBy: string, i: nat, j: nat)
    requires Descending(f, sortBy) && i <= j < |f|
    ensures !Above(SortField(f[j], sortBy), SortField(f[i], sortBy))
  {
    if i < j {
      assert !SortsBefore(f[j], f[i], sortBy);
    }
  }

  /** Equal values have only their own in between. */
  lemma RunOfTies(f: seq<Token>, sortBy: string, a: nat, m: nat, b: nat)
    requires Descending(f, sortBy) && a < m <= b < |f| && SortField(f[a], sortBy) == SortField(f[b], sortBy)
    ensures SortField(f[m - 1], sortBy) == SortField(f[m], sortBy)
  {
    StepDown(f, sortBy, a, m - 1);
    StepDown(f, sortBy, m - 1, m);
    StepDown(f, sortBy, m, b);
  }

  lemma SameTokenSameField(
    f: seq<Token>, g: seq<Token>, best: map<string, Token>, sortBy: string, a: nat) returns (b: nat)
    requires Order(f, best, sortBy) && Order(g, best, sortBy) && a < |g|
    ensures |f| == |g| && b < |f| && f[b] == g[a] && SortField(f[a], sortBy) == SortField(f[b], sortBy)
  {
    SameFields(f, g, best, sortBy);
    SameTokens(g, f, best, g[a]);
    b :| 0 <= b < |f| && f[b] == g[a];
    assert Fields(f, sortBy)[a] == Fields(g, sortBy)[a];
  }

  lemma FrontIn(f: seq<Token>, g: seq<Token>, best: map<string, Token>, sortBy: string, m: nat, a: nat)
    requires Order(f, best, sortBy) && Order(g, best, sortBy) && a < m < |f| && a < |g|
    requires SortField(f[m - 1], sortBy) != SortField(f[m], sortBy)
    ensures g[a] in f[..m]
  {
    var b := SameTokenSameField(f, g, best, sortBy, a);
    if m <= b {
      RunOfTies(f, sortBy, a, m, b);
    }
    assert f[..m][b] == f[b];
  }

  lemma SymbolsWithin(a: seq<Token>, b: seq<Token>)
    requires forall i :: 0 <= i < |a| ==> a[i] in b
    ensures SymbolsOf(a) <= SymbolsOf(b)
  {
  }

  lemma WholesAgree(f: seq<Token>, g: seq<Token>, best: map<string, Token>)
    requires Lists(f, best) && Lists(g, best)
    ensures SymbolsOf(f) == SymbolsOf(g)
  {
    forall i | 0 <= i < |f| ensures f[i] in g {
      SameTokens(f, g, best, f[i]);
    }
    forall i | 0 <= i < |g| ensures g[i] in f {
      SameTokens(g, f, best, g[i]);
    }
    SymbolsWithin(f, g);
    SymbolsWithin(g, f);
  }

  lemma FrontWithin(f: seq<Token>, g: seq<Token>, best: map<string, Token>, sortBy: string, m: nat)
    requires Order(f, best, sortBy) && Order(g, best, sortBy) && m < |f| && m <= |g|
    requires m > 0 ==> SortField(f[m - 1], sortBy) != SortField(f[m], sortBy)
    ensures SymbolsOf(g[..m]) <= SymbolsOf(f[..m])
  {
    forall i: nat | i < m ensures g[..m][i] in f[..m] {
      FrontIn(f, g, best, sortBy, m, i);
    }
    SymbolsWithin(g[..m], f[..m]);
  }

  /** Position m, not inside a tie, cuts every order into the same two halves. */
  lemma FrontsAgree(f: seq<Token>, g: seq<Token>, best: map<string, Token>, sortBy: string, m: nat)
    requires Order(f, best, sortBy) && Order(g, best, sortBy) && m <= |f| && |f| == |g|
    requires 0 < m < |f| ==> SortField(f[m - 1], sortBy) != SortField(f[m], sortBy)
    ensures SymbolsOf(f[..m]) == SymbolsOf(g[..m])
  {
    if m == |f| {
      assert f[..m] == f && g[..m] == g;
      WholesAgree(f, g, best);
    } else {
      SameFields(f, g, best, sortBy);
      assert m > 0 ==>
        Fields(f, sortBy)[m - 1] == Fields(g, sortBy)[m - 1] && Fields(f, sortBy)[m] == Fields(g, sortBy)[m];
      FrontWithin(f, g, best, sortBy, m);
      FrontWithin(g, f, best, sortBy, m);
    }
  }

  /** The end of page p in a list of the given length. */
  function PageEnd(size: nat, page: nat, limit: nat): nat {
    if page * limit <= size then page * limit else size
  }

  lemma PageSlice(f: seq<Token>, page: nat, limit: nat)
    requires limit >= 1 && page >= 1
    ensures PageEnd(|f|, page - 1, limit) <= PageEnd(|f|, page, limit)
    ensures Page(f, page, limit) == f[PageEnd(|f|, page - 1, limit)..PageEnd(|f|, page, limit)]
  {
    assert page * limit == (page - 1) * limit + limit;
  }

  lemma SliceSymbols(f: seq<Token>, from: nat, end: nat)
    requires from <= end <= |f| && DistinctSymbols(f)
    ensures SymbolsOf(f[from..end]) == SymbolsOf(f[..end]) - SymbolsOf(f[..from])
  {
    SlicesShareNoSymbol(f, from, end);
    SymbolsOfConcat(f[..from], f[from..end]);
    assert f[..end] == f[..from] + f[from..end];
  }

  lemma BoundaryOf(f: seq<Token>, sortBy: string, page: nat, limit: nat)
    requires limit >= 1 && !TiesAcross(f, sortBy, limit)
    ensures var m := PageEnd(|f|, page, limit);
      0 < m < |f| ==> SortField(f[m - 1], sortBy) != SortField(f[m], sortBy)
  {
    var m := PageEnd(|f|, page, limit);
    if 0 < m < |f| {
      MultipleRest(page, limit);
    }
  }

  lemma MultipleRest(k: nat, limit: nat)
    requires limit >= 1
    ensures k * limit % limit == 0
  {
    DivideUnique(k * limit, limit, k, 0);
  }

  lemma PageSymbolsAgree(
    f: seq<Token>, g: seq<Token>, best: map<string, Token>, sortBy: string, page: nat, limit: nat)
    requires limit >= 1 && page >= 1 && Order(f, best, sortBy) && Order(g, best, sortBy)
    requires !TiesAcross(f, sortBy, limit)
    ensures SymbolsOf(Page(f, page, limit)) == SymbolsOf(Page(g, page, limit))
  {
    SameFields(f, g, best, sortBy);
    var from, end := PageEnd(|f|, page - 1, limit), PageEnd(|f|, page, limit);
    PageSlice(f, page, limit);
    PageSlice(g, page, limit);
    BoundaryOf(f, sortBy, page - 1, limit);
    BoundaryOf(f, sortBy, page, limit);
    FrontsAgree(f, g, best, sortBy, from);
    FrontsAgree(f, g, best, sortBy, end);
    SliceSymbols(f, from, end);
    SliceSymbols(g, from, end);
  }

  lemma {:induction false} ShownAlike(
    tokens: seq<Token>, f: seq<Token>, fs: seq<seq<Token>>, best: map<string, Token>, sortBy: string, limit: nat)
    requires limit >= 1 && Order(f, best, sortBy) && Orders(fs, best, sortBy) && !TiesAcross(f, sortBy, limit)
    ensures ShownBy(tokens, fs, limit) == Shown(tokens, f, |fs|, limit)
  {
    if fs != [] {
      ShownAlike(tokens, f, fs[..|fs| - 1], best, sortBy, limit);
      PageSymbolsAgree(f, fs[|fs| - 1], best, sortBy, |fs|, limit);
    }
  }

  // ---- a tie at a boundary can lose a token ----

  /** The two tokens at position m change places. */
  function Swapped(f: seq<Token>, m: nat): seq<Token>
    requires 0 < m < |f|
  {
    f[m - 1 := f[m]][m := f[m - 1]]
  }

  lemma SwappedLists(f: seq<Token>, best: map<string, Token>, m: nat)
    requires Lists(f, best) && 0 < m < |f|
    ensures Lists(Swapped(f, m), best)
  {
    var g := Swapped(f, m);
    forall s | s in best ensures best[s] in g {
      var i :| 0 <= i < |f| && f[i] == best[s];
      assert g[if i == m then m - 1 else if i == m - 1 then m else i] == best[s];
    }
  }

  lemma SwappedDescends(f: seq<Token>, sortBy: string, m: nat)
    requires Descending(f, sortBy) && 0 < m < |f| && SortField(f[m - 1], sortBy) == SortField(f[m], sortBy)
    ensures Descending(Swapped(f, m), sortBy)
  {
    var g := Swapped(f, m);
    forall i, j | 0 <= i < j < |g| ensures !SortsBefore(g[j], g[i], sortBy) {
      StepDown(f, sortBy, i, j);
      assert SortField(g[i], sortBy) == SortField(f[i], sortBy) && SortField(g[j], sortBy) == SortField(f[j], sortBy);
    }
  }

  /** The first k pages from f, the others from g. */
  function Switch(f: seq<Token>, g: seq<Token>, k: nat, n: nat): seq<seq<Token>> {
    seq(n, p => if p < k then f else g)
  }

  ghost predicate NeverOn(symbol: string, fs: seq<seq<Token>>, limit: nat) {
    forall p :: 0 <= p < |fs| ==> symbol !in SymbolsOf(Page(fs[p], p + 1, limit))
  }

  lemma SwitchedNeverShows(f: seq<Token>, m: nat, k: nat, n: nat, limit: nat)
    requires limit >= 1 && DistinctSymbols(f) && 0 < m < |f| && m == k * limit
    ensures NeverOn(f[m].symbol, Switch(f, Swapped(f, m), k, n), limit)
  {
    var fs, g := Switch(f, Swapped(f, m), k, n), Swapped(f, m);
    forall p | 0 <= p < n ensures f[m].symbol !in SymbolsOf(Page(fs[p], p + 1, limit)) {
      PageSlice(fs[p], p + 1, limit);
      if p < k {
        MonotoneProduct(p + 1, k, limit);
        NotInFront(f, m, PageEnd(|f|, p, limit), PageEnd(|f|, p + 1, limit));
      } else {
        MonotoneProduct(k, p, limit);
        NotBehind(f, m, PageEnd(|f|, p, limit), PageEnd(|f|, p + 1, limit));
      }
    }
  }

  lemma NotInFront(f: seq<Token>, m: nat, from: nat, end: nat)
    requires DistinctSymbols(f) && from <= end <= m < |f|
    ensures f[m].symbol !in SymbolsOf(f[from..end])
  {
    forall t | t in f[from..end] ensures t.symbol != f[m].symbol {
      var i :| 0 <= i < end - from && f[from..end][i] == t;
      assert f[from + i] == t;
    }
  }

  lemma NotBehind(f: seq<Token>, m: nat, from: nat, end: nat)
    requires DistinctSymbols(f) && 0 < m < |f| && m <= from <= end <= |f|
    ensures f[m].symbol !in SymbolsOf(Swapped(f, m)[from..end])
  {
    var g := Swapped(f, m);
    forall t | t in g[from..end] ensures t.symbol != f[m].symbol {
      var i :| 0 <= i < end - from && g[from..end][i] == t;
      assert g[from + i] == t == f[if from + i == m then m - 1 else from + i];
    }
  }

  lemma {:induction false} NeverKept(tokens: seq<Token>, allowed: set<string>, t: Token)
    requires t.symbol !in allowed
    ensures t !in Kept(tokens, allowed)
  {
    if tokens != [] {
      NeverKept(tokens[..|tokens| - 1], allowed, t);
    }
  }

  lemma {:induction false} NeverShown(tokens: seq<Token>, fs: seq<seq<Token>>, limit: nat, t: Token)
    requires NeverOn(t.symbol, fs, limit)
    ensures ShownBy(tokens, fs, limit)[t] == 0
  {
    if fs != [] {
      NeverShown(tokens, fs[..|fs| - 1], limit, t);
      NeverKept(tokens, SymbolsOf(Page(fs[|fs| - 1], |fs|, limit)), t);
    }
  }

  lemma LostFromPair(pairs: seq<Pair>, fs: seq<seq<Token>>, limit: nat, t: Token)
    requires NeverOn(t.symbol, fs, limit) && t in AllTokens(pairs)
    ensures !Conserves(pairs, fs, limit)
  {
    AllTokensMembers(pairs, t);
    var i :| 0 <= i < |pairs| && t in pairs[i].tokens;
    NeverShown(pairs[i].tokens, fs, limit, t);
    ReturnedByIsShownBy(pairs, i, fs, limit);
    assert multiset(pairs[i].tokens)[t] > 0;
  }

  lemma ExactQuotient(m: nat, d: nat)
    requires d >= 1 && m % d == 0
    ensures m == m / d * d
  {
  }

  lemma TieAt(f: seq<Token>, sortBy: string, limit: nat) returns (m: nat, k: nat)
    requires limit >= 1 && TiesAcross(f, sortBy, limit)
    ensures 0 < m < |f| && m == k * limit && SortField(f[m - 1], sortBy) == SortField(f[m], sortBy)
  {
    m :| 0 < m < |f| && m % limit == 0 && SortField(f[m - 1], sortBy) == SortField(f[m], sortBy);
    k := m / limit;
    ExactQuotient(m, limit);
  }

  lemma SwitchedOrders(f: seq<Token>, best: map<string, Token>, sortBy: string, m: nat, k: nat, n: nat)
    requires Order(f, best, sortBy) && 0 < m < |f| && SortField(f[m - 1], sortBy) == SortField(f[m], sortBy)
    ensures |Switch(f, Swapped(f, m), k, n)| == n && Orders(Switch(f, Swapped(f, m), k, n), best, sortBy)
  {
    SwappedLists(f, best, m);
    SwappedDescends(f, sortBy, m);
  }

  lemma ListedIsToken(pairs: seq<Pair>, f: seq<Token>, sortBy: string, m: nat)
    requires Lists(f, Best(AllTokens(pairs), sortBy)) && m < |f|
    ensures f[m] in AllTokens(pairs) && DistinctSymbols(f)
  {
    BestIsBest(AllTokens(pairs), sortBy);
  }

  lemma TieLoses(
    pairs: seq<Pair>, f: seq<Token>, sortBy: string, limit: nat, n: nat) returns (fs: seq<seq<Token>>)
    requires limit >= 1 && Order(f, Best(AllTokens(pairs), sortBy), sortBy) && TiesAcross(f, sortBy, limit)
    ensures |fs| == n && Orders(fs, Best(AllTokens(pairs), sortBy), sortBy) && !Conserves(pairs, fs, limit)
  {
    var m, k := TieAt(f, sortBy, limit);
    fs := Switch(f, Swapped(f, m), k, n);
    SwitchedOrders(f, Best(AllTokens(pairs), sortBy), sortBy, m, k, n);
    SwitchedNeverShows(f, m, k, n, limit);
    ListedIsToken(pairs, f, sortBy, m);
    LostFromPair(pairs, fs, limit, f[m]);
  }

  // ---- the exact condition ----

  lemma NoTieConserves(pairs: seq<Pair>, f: seq<Token>, fs: seq<seq<Token>>, sortBy: string, limit: nat)
    requires limit >= 1 && Order(f, Best(AllTokens(pairs), sortBy), sortBy) && !TiesAcross(f, sortBy, limit)
    requires Orders(fs, Best(AllTokens(pairs), sortBy), sortBy) && |fs| == ComputeTotalPages(|f|, limit)
    ensures Conserves(pairs, fs, limit)
  {
    forall i | 0 <= i < |pairs| ensures ReturnedBy(pairs, i, fs, limit) == multiset(pairs[i].tokens) {
      ReturnedByIsShownBy(pairs, i, fs, limit);
      ShownAlike(pairs[i].tokens, f, fs, Best(AllTokens(pairs), sortBy), sortBy, limit);
      ShownConserves(pairs, i, f, sortBy, limit);
    }
  }

  /** Fetching pages 1 to total_pages one by one conserves the tokens, in whatever order each request happened to list
      them, exactly when no two neighbours tie across a page boundary. */
  lemma PagesConserveIff(pairs: seq<Pair>, f: seq<Token>, sortBy: string, limit: nat)
    requires limit >= 1 && Order(f, Best(AllTokens(pairs), sortBy), sortBy)
    ensures
      (forall fs :: |fs| == ComputeTotalPages(|f|, limit) && Orders(fs, Best(AllTokens(pairs), sortBy), sortBy) ==>
         Conserves(pairs, fs, limit))
      <==> !TiesAcross(f, sortBy, limit)
  {
    var best, n := Best(AllTokens(pairs), sortBy), ComputeTotalPages(|f|, limit);
    if TiesAcross(f, sortBy, limit) {
      TotalPagesCover(|f|, limit);
      var fs := TieLoses(pairs, f, sortBy, limit, n);
      assert |fs| == n && Orders(fs, best, sortBy) && !Conserves(pairs, fs, limit);
    } else {
      forall fs | |fs| == n && Orders(fs, best, sortBy) ensures Conserves(pairs, fs, limit) {
        NoTieConserves(pairs, f, fs, sortBy, limit);
      }
    }
  }

  lemma ShownNext(tokens: seq<Token>, fs: seq<seq<Token>>, f: seq<Token>, limit: nat)
    ensures ShownBy(tokens, fs + [f], limit)
      == ShownBy(tokens, fs, limit) + multiset(Kept(tokens, SymbolsOf(Page(f, |fs| + 1, limit))))
  {
    assert (fs + [f])[..|fs|] == fs;
  }

  lemma OnePairOrders(x: Token, y: Token, pair: Pair, sortBy: string)
    requires x.symbol != y.symbol && SortField(x, sortBy) == SortField(y, sortBy) && pair.tokens == [x, y]
    ensures Order([x, y], Best(AllTokens([pair]), sortBy), sortBy)
    ensures Order([y, x], Best(AllTokens([pair]), sortBy), sortBy)
  {
    OnePairBest(x, y, pair, sortBy);
    assert [x, y][0] == x && [x, y][1] == y && [y, x][0] == y && [y, x][1] == x;
  }

  lemma FirstOfTwo(x: Token, y: Token)
    ensures SymbolsOf(Page([x, y], 1, 1)) == {x.symbol}
    ensures SymbolsOf(Page([y, x], 2, 1)) == {x.symbol}
  {
    assert Page([x, y], 1, 1) == [x] && Page([y, x], 2, 1) == [x];
  }

  /** One pair with two tied tokens and pages of one: if the two requests list them in opposite orders, x is shown twice
      and y never. */
  lemma TiedPairLosesOne(x: Token, y: Token, pair: Pair, sortBy: string)
    requires x.symbol != y.symbol && SortField(x, sortBy) == SortField(y, sortBy) && pair.tokens == [x, y]
    ensures Orders([[x, y], [y, x]], Best(AllTokens([pair]), sortBy), sortBy)
    ensures ReturnedBy([pair], 0, [[x, y], [y, x]], 1) == multiset{x, x}
  {
    OnePairOrders(x, y, pair, sortBy);
    ReturnedByIsShownBy([pair], 0, [[x, y], [y, x]], 1);
    OneShownTwice(x, y);
  }

  lemma OneShownTwice(x: Token, y: Token)
    requires x.symbol != y.symbol
    ensures ShownBy([x, y], [[x, y], [y, x]], 1) == multiset{x, x}
  {
    FirstOfTwo(x, y);
    KeptOne(x, y);
    NothingShown([x, y]);
    ShownNext([x, y], [], [x, y], 1);
    assert [] + [[x, y]] == [[x, y]];
    ShownNext([x, y], [[x, y]], [y, x], 1);
    assert [[x, y]] + [[y, x]] == [[x, y], [y, x]];
  }

  lemma NothingShown(tokens: seq<Token>)
    ensures ShownBy(tokens, [], 1) == multiset{}
  {
  }

  lemma KeptOne(x: Token, y: Token)
    requires x.symbol != y.symbol
    ensures Kept([x, y], {x.symbol}) == [x]
  {
    assert [x, y][..1] == [x] && [x][..0] == [];
    assert Kept([x], {x.symbol}) == Kept([], {x.symbol}) + [x];
  }

  lemma OnePairBest(x: Token, y: Token, pair: Pair, sortBy: string)
    requires x.symbol != y.symbol && pair.tokens == [x, y]
    ensures Best(AllTokens([pair]), sortBy) == map[x.symbol := x, y.symbol := y]
  {
    assert [pair][..0] == [] && AllTokens([pair]) == AllTokens([]) + [x, y] == [x, y];
    assert [x, y][..1] == [x] && [x][..0] == [];
    assert Best([], sortBy) == map[] && Best([x], sortBy) == map[x.symbol := x];
  }
}
