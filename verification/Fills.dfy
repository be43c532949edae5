/** Venue fills: the row, its identity, first-wins deduplication and the oldest-first insertion sort. */
module Fills {
  import opened Text

  datatype Fill = Fill(
    coin: string, px: string, sz: string, side: string, time: int, startPosition: string,
    dir: string, closedPnl: string, hash: string, oid: int, tid: int, crossed: bool,
    fee: string, feeToken: string)

  // ---- identity ----

  /** Two rows report the same trade when coin and trade id agree. */
  predicate SameTrade(a: Fill, b: Fill) {
    a.coin == b.coin && a.tid == b.tid
  }

  /** The text key rows are deduplicated by. */
  function Key(f: Fill): string {
    f.coin + ":" + FormatInt(f.tid)
  }

  /** The key identifies the trade even for coins that contain ':', because a printed id has none. */
  lemma KeyIdentifiesTrade(a: Fill, b: Fill)
    ensures Key(a) == Key(b) <==> a.coin == b.coin && a.tid == b.tid
  {
    if Key(a) == Key(b) {
      LastColon(a, |b.coin|);
      LastColon(b, |a.coin|);
      assert a.coin == Key(a)[..|a.coin|] == b.coin;
      assert FormatInt(a.tid) == Key(a)[|a.coin| + 1..] == FormatInt(b.tid);
      FormatIntInjective(a.tid, b.tid);
    }
  }

  /** In a key, no ':' follows the one that ends the coin. */
  lemma LastColon(f: Fill, i: nat)
    requires i < |Key(f)|
    ensures i == |f.coin| ==> Key(f)[i] == ':'
    ensures i > |f.coin| ==> Key(f)[i] != ':'
  {
    FormatIntChars(f.tid);
    if i > |f.coin| {
      assert Key(f)[i] == FormatInt(f.tid)[i - |f.coin| - 1];
    }
  }

  // ---- deduplication ----

  ghost function Elements(s: seq<Fill>): set<Fill> {
    set f | f in s
  }

  lemma ElementsConcat(a: seq<Fill>, b: seq<Fill>)
    ensures Elements(a + b) == Elements(a) + Elements(b)
  {
  }

  predicate HasKey(s: seq<Fill>, key: string) {
    exists i | 0 <= i < |s| :: Key(s[i]) == key
  }

  lemma HasKeyAppend(s: seq<Fill>, f: Fill, key: string)
    ensures HasKey(s + [f], key) <==> HasKey(s, key) || Key(f) == key
  {
    if HasKey(s, key) {
      var i :| 0 <= i < |s| && Key(s[i]) == key;
      assert (s + [f])[i] == s[i];
    }
    assert (s + [f])[|s|] == f;
  }

  /** Keeps the first row of every key, in order. */
  function Deduped(s: seq<Fill>): seq<Fill> {
    if s == [] then [] else
      var kept := Deduped(s[..|s| - 1]);
      var last := s[|s| - 1];
      if HasKey(kept, Key(last)) then kept else kept + [last]
  }

  ghost predicate OneRowPerTrade(s: seq<Fill>) {
    forall i, j :: 0 <= i < j < |s| ==> !SameTrade(s[i], s[j])
  }

  lemma {:induction false} DedupedRows(s: seq<Fill>)
    ensures OneRowPerTrade(Deduped(s))
    ensures forall f :: f in Deduped(s) ==> f in s
  {
    if s != [] {
      var last := s[|s| - 1];
      DedupedRows(s[..|s| - 1]);
      var kept := Deduped(s[..|s| - 1]);
      forall i | 0 <= i < |kept| ensures HasKey(kept, Key(last)) || !SameTrade(kept[i], last) {
        KeyIdentifiesTrade(kept[i], last);
      }
    }
  }

  lemma {:induction false} DedupedKeys(s: seq<Fill>, key: string)
    ensures HasKey(Deduped(s), key) <==> HasKey(s, key)
  {
    if s != [] {
      var init, last := s[..|s| - 1], s[|s| - 1];
      DedupedKeys(init, key);
      HasKeyAppend(init, last, key);
      assert s == init + [last];
      HasKeyAppend(Deduped(init), last, key);
    }
  }

  /** Deduplication loses no trade: every row still has a row of the same trade. */
  lemma DedupedCovers(s: seq<Fill>, f: Fill)
    requires f in s
    ensures exists g :: g in Deduped(s) && SameTrade(g, f)
  {
    var k :| 0 <= k < |s| && s[k] == f;
    assert HasKey(s, Key(f));
    DedupedKeys(s, Key(f));
    var i :| 0 <= i < |Deduped(s)| && Key(Deduped(s)[i]) == Key(f);
    KeyIdentifiesTrade(Deduped(s)[i], f);
    assert Deduped(s)[i] in Deduped(s) && SameTrade(Deduped(s)[i], f);
  }

  /** Of the rows of one trade the first to come in is kept. */
  lemma {:induction false} DedupedFirst(s: seq<Fill>, i: nat)
    requires i < |s| && forall j :: 0 <= j < i ==> !(s[j].coin == s[i].coin && s[j].tid == s[i].tid)
    ensures s[i] in Deduped(s) && Deduped(s[..i]) + [s[i]] <= Deduped(s)
  {
    var init := s[..|s| - 1];
    if i < |init| {
      DedupedFirst(init, i);
      assert init[..i] == s[..i];
    } else {
      assert s[..i] == init;
      if HasKey(Deduped(init), Key(s[i])) {
        DedupedKeys(init, Key(s[i]));
        var j :| 0 <= j < |init| && Key(init[j]) == Key(s[i]);
        KeyIdentifiesTrade(s[j], s[i]);
      }
    }
  }

  method Dedup(out: seq<Fill>) returns (deduped: seq<Fill>)
    ensures deduped == Deduped(out)
  {
    var seen: map<string, bool> := map[];
    deduped := [];
    for i := 0 to |out|
      invariant deduped == Deduped(out[..i])
      invariant forall k :: k in seen <==> HasKey(deduped, k)
      invariant forall k :: k in seen ==> seen[k]
    {
      var key := Key(out[i]);
      assert out[..i + 1][..i] == out[..i];
      if key in seen && seen[key] {
        continue;
      }
      forall k ensures HasKey(deduped + [out[i]], k) <==> HasKey(deduped, k) || k == key {
        HasKeyAppend(deduped, out[i], k);
      }
      seen := seen[key := true];
      deduped := deduped + [out[i]];
    }
    assert out[..|out|] == out;
  }

  // ---- ordering ----

  predicate Less(a: Fill, b: Fill) {
    if a.time != b.time then a.time < b.time else a.tid < b.tid
  }

  /** By time, rows of the same time by trade id. */
  ghost predicate OldestFirst(s: seq<Fill>) {
    forall i, j :: 0 <= i < j < |s| ==> s[i].time < s[j].time || (s[i].time == s[j].time && s[i].tid <= s[j].tid)
  }

  /** Moves x left past every row it is strictly less than. */
  function Insert(s: seq<Fill>, x: Fill): seq<Fill> {
    if s == [] || !Less(x, s[|s| - 1]) then s + [x] else Insert(s[..|s| - 1], x) + [s[|s| - 1]]
  }

  function Sorted(s: seq<Fill>): seq<Fill> {
    if s == [] then [] else Insert(Sorted(s[..|s| - 1]), s[|s| - 1])
  }

  lemma {:induction false} InsertMembers(s: seq<Fill>, x: Fill)
    ensures multiset(Insert(s, x)) == multiset(s) + multiset{x}
    ensures forall f :: f in Insert(s, x) <==> f in s || f == x
  {
    if s != [] && Less(x, s[|s| - 1]) {
      assert s == s[..|s| - 1] + [s[|s| - 1]];
      InsertMembers(s[..|s| - 1], x);
    }
  }

  lemma {:induction false} InsertKeepsOrder(s: seq<Fill>, x: Fill)
    requires OldestFirst(s)
    ensures OldestFirst(Insert(s, x))
  {
    if s != [] && Less(x, s[|s| - 1]) {
      var init, last := s[..|s| - 1], s[|s| - 1];
      InsertKeepsOrder(init, x);
      InsertMembers(init, x);
      var r := Insert(init, x);
      forall i | 0 <= i < |r| ensures r[i].time < last.time || (r[i].time == last.time && r[i].tid <= last.tid) {
        assert r[i] in r;
        if r[i] in init {
          var k :| 0 <= k < |init| && init[k] == r[i];
          assert s[k] == r[i];
        }
      }
    }
  }

  lemma {:induction false} InsertKeepsOneRowPerTrade(s: seq<Fill>, x: Fill)
    requires OneRowPerTrade(s) && forall f :: f in s ==> !SameTrade(f, x)
    ensures OneRowPerTrade(Insert(s, x))
  {
    if s != [] && Less(x, s[|s| - 1]) {
      var init, last := s[..|s| - 1], s[|s| - 1];
      InsertKeepsOneRowPerTrade(init, x);
      InsertMembers(init, x);
      var r := Insert(init, x);
      assert last in s;
      forall i | 0 <= i < |r| ensures !SameTrade(r[i], last) {
        assert r[i] in init || r[i] == x;
        if r[i] in init {
          var k :| 0 <= k < |init| && init[k] == r[i];
          assert s[k] == r[i];
        }
      }
    }
  }

  /** The sort is a permutation into oldest-first order. */
  lemma {:induction false} SortedIsSorted(s: seq<Fill>)
    ensures OldestFirst(Sorted(s)) && multiset(Sorted(s)) == multiset(s)
    ensures forall f :: f in Sorted(s) <==> f in s
  {
    if s != [] {
      var init, last := s[..|s| - 1], s[|s| - 1];
      assert s == init + [last];
      SortedIsSorted(init);
      InsertKeepsOrder(Sorted(init), last);
      InsertMembers(Sorted(init), last);
    }
  }

  lemma {:induction false} SortedKeepsOneRowPerTrade(s: seq<Fill>)
    requires OneRowPerTrade(s)
    ensures OneRowPerTrade(Sorted(s))
  {
    if s != [] {
      var init, last := s[..|s| - 1], s[|s| - 1];
      SortedKeepsOneRowPerTrade(init);
      SortedIsSorted(init);
      InsertKeepsOneRowPerTrade(Sorted(init), last);
    }
  }

  /** The rows with a given time and trade id, in order. */
  ghost function Tied(s: seq<Fill>, time: int, tid: int): seq<Fill> {
    if s == [] then []
    else
      var last := s[|s| - 1];
      Tied(s[..|s| - 1], time, tid) + if last.time == time && last.tid == tid then [last] else []
  }

  lemma TiedAppend(s: seq<Fill>, f: Fill, time: int, tid: int)
    ensures Tied(s + [f], time, tid) == Tied(s, time, tid) + if f.time == time && f.tid == tid then [f] else []
  {
    assert (s + [f])[..|s|] == s;
  }

  lemma {:induction false} InsertKeepsTies(s: seq<Fill>, x: Fill, time: int, tid: int)
    ensures Tied(Insert(s, x), time, tid) == Tied(s + [x], time, tid)
  {
    if s != [] && Less(x, s[|s| - 1]) {
      var init, last := s[..|s| - 1], s[|s| - 1];
      InsertKeepsTies(init, x, time, tid);
      TiedAppend(Insert(init, x), last, time, tid);
      UntiedSwap(init, x, last, time, tid);
      assert s == init + [last];
    }
  }

  /** Rows of different rank are not both among the tied ones, so their order does not show there. */
  lemma UntiedSwap(s: seq<Fill>, x: Fill, y: Fill, time: int, tid: int)
    requires Less(x, y)
    ensures Tied(s + [y] + [x], time, tid)
      == Tied(s + [x], time, tid) + if y.time == time && y.tid == tid then [y] else []
  {
    TiedAppend(s + [y], x, time, tid);
    TiedAppend(s, y, time, tid);
    TiedAppend(s, x, time, tid);
  }

  /** Rows of different coins may share time and trade id; the sort leaves those in the order they came in. */
  lemma {:induction false} SortIsStable(s: seq<Fill>, time: int, tid: int)
    ensures Tied(Sorted(s), time, tid) == Tied(s, time, tid)
  {
    if s != [] {
      var init, last := s[..|s| - 1], s[|s| - 1];
      SortIsStable(init, time, tid);
      InsertKeepsTies(Sorted(init), last, time, tid);
      TiedAppend(Sorted(init), last, time, tid);
    }
  }

  /** What the inner loop has established when it stops at position j is exactly one insertion. */
  lemma {:induction false} InsertAt(s: seq<Fill>, x: Fill, j: nat)
    requires j <= |s|
    requires forall k :: j <= k < |s| ==> Less(x, s[k])
    requires j == 0 || !Less(x, s[j - 1])
    ensures Insert(s, x) == s[..j] + [x] + s[j..]
  {
    if j == |s| {
      assert s[..j] == s && s[j..] == [];
    } else {
      var init := s[..|s| - 1];
      InsertAt(init, x, j);
      assert init[..j] == s[..j] && init[j..] + [s[|s| - 1]] == s[j..];
    }
  }

  /** A list that is `done` with x at position j, followed by `rest`. */
  ghost function Holding(done: seq<Fill>, x: Fill, rest: seq<Fill>, j: nat): seq<Fill>
    requires j <= |done|
  {
    done[..j] + [x] + done[j..] + rest
  }

  lemma SwapMovesLeft(done: seq<Fill>, x: Fill, rest: seq<Fill>, j: nat)
    requires 0 < j <= |done|
    ensures var cur := Holding(done, x, rest, j);
      && cur[j] == x && cur[j - 1] == done[j - 1]
      && cur[j := cur[j - 1]][j - 1 := x] == Holding(done, x, rest, j - 1)
  {
  }

  /** The inner loop: swaps the row at position |done| left into its place. */
  method ShiftLeft(fills: array<Fill>, ghost done: seq<Fill>, ghost x: Fill, ghost rest: seq<Fill>, i: nat)
    requires i == |done| && fills[..] == done + [x] + rest
    modifies fills
    ensures fills[..] == Insert(done, x) + rest
  {
    var j := i;
    assert Holding(done, x, rest, i) == done + [x] + rest;
    while j > 0 && Less(fills[j], fills[j - 1])
      invariant 0 <= j <= i < fills.Length
      invariant fills[..] == Holding(done, x, rest, j)
      invariant forall k :: j <= k < i ==> Less(x, done[k])
    {
      SwapMovesLeft(done, x, rest, j);
      ghost var cur := fills[..];
      fills[j], fills[j - 1] := fills[j - 1], fills[j];
      assert fills[..] == cur[j := cur[j - 1]][j - 1 := x];
      j := j - 1;
    }
    if j > 0 {
      SwapMovesLeft(done, x, rest, j);
      assert fills[j] == fills[..][j] && fills[j - 1] == fills[..][j - 1];
    }
    InsertAt(done, x, j);
  }

  lemma {:induction false} SortedSize(s: seq<Fill>)
    ensures |Sorted(s)| == |s|
  {
    SortedIsSorted(s);
    assert |multiset(Sorted(s))| == |multiset(s)|;
  }

  lemma SortedNext(s: seq<Fill>, i: nat)
    requires i < |s|
    ensures s[i..] == [s[i]] + s[i + 1..]
    ensures Sorted(s[..i + 1]) == Insert(Sorted(s[..i]), s[i])
  {
    assert s[..i + 1][..i] == s[..i];
  }

  method SortFillsAsc(fills: array<Fill>)
    modifies fills
    ensures fills[..] == Sorted(old(fills[..]))
  {
    ghost var input := fills[..];
    if fills.Length == 0 {
      return;
    }
    SortedNext(input, 0);
    var i := 1;
    ghost var done := Sorted(input[..1]);
    while i < fills.Length
      invariant 1 <= i <= fills.Length
      invariant done == Sorted(input[..i]) && fills[..] == done + input[i..]
    {
      SortedSize(input[..i]);
      SortedNext(input, i);
      ShiftLeft(fills, done, input[i], input[i + 1..], i);
      done := Insert(done, input[i]);
      i := i + 1;
    }
    assert input[..i] == input;
  }

  // ---- a sorted list is determined by its rows ----

  /** No two rows share both time and trade id, so oldest-first is a total order on the rows. */
  ghost predicate Untied(rows: set<Fill>) {
    forall f, g :: f in rows && g in rows && f.time == g.time && f.tid == g.tid ==> f == g
  }

  lemma FirstsAgree(a: seq<Fill>, b: seq<Fill>)
    requires OldestFirst(a) && OldestFirst(b) && a != []
    requires Elements(a) == Elements(b) && Untied(Elements(a))
    ensures b != [] && a[0] == b[0]
  {
    assert a[0] in Elements(b);
    assert b[0] in Elements(a);
    var i :| 0 <= i < |b| && b[i] == a[0];
    var j :| 0 <= j < |a| && a[j] == b[0];
  }

  lemma {:induction false} SortedListUnique(a: seq<Fill>, b: seq<Fill>)
    requires OldestFirst(a) && OldestFirst(b) && OneRowPerTrade(a) && OneRowPerTrade(b)
    requires Elements(a) == Elements(b) && Untied(Elements(a))
    ensures a == b
  {
    assert b != [] ==> b[0] in Elements(b);
    if a != [] {
      FirstsAgree(a, b);
      TailElements(a);
      TailElements(b);
      SortedListUnique(a[1..], b[1..]);
      assert a == [a[0]] + a[1..] && b == [b[0]] + b[1..];
    }
  }

  lemma TailElements(a: seq<Fill>)
    requires a != [] && OneRowPerTrade(a)
    ensures Elements(a[1..]) == Elements(a) - {a[0]}
  {
    forall f ensures f in a[1..] <==> f in a && f != a[0] {
      if f in a[1..] {
        var k :| 0 <= k < |a[1..]| && a[1..][k] == f;
        assert a[k + 1] == f;
        assert !SameTrade(a[0], a[k + 1]);
      }
      if f in a && f != a[0] {
        var k :| 0 <= k < |a| && a[k] == f;
        assert a[1..][k - 1] == f;
      }
    }
  }
}
