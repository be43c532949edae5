/** Backfill of a time window by recursive bisection against a venue that caps its replies. */
module Backfill {
  import opened Basics
  import opened Fills

  const MAX_FILLS_PER_RESPONSE: nat := 2000
  const MIN_SLICE_MS: int := 3_600_000
  const MAX_FILLS_FETCH_CALLS: nat := 60

  datatype Reply = Rows(fills: seq<Fill>) | Failed(error: string)

  /** Everything the walk does not decide: what the n-th request for a window returns (page, order and
      errors may differ from call to call), and what the n-th look at the context and at the clock sees. */
  datatype World = World(reply: (nat, int, int) -> Reply, cancelled: nat -> bool, late: nat -> bool)

  /** One answered request. */
  datatype Exchange = Exchange(lo: int, hi: int, reply: Reply)

  /** The variables shared by all activations of the walk, the looks taken so far and the requests so far. */
  datatype Run = Run(
    out: seq<Fill>, truncated: bool, calls: nat, budgetExceeded: bool, looks: nat, trace: seq<Exchange>)

  const Start := Run([], false, 0, false, 0, [])

  function Walked(w: World, r: Run, s: int, e: int): (res: (Run, Option<string>))
    decreases e - s
  {
    if r.budgetExceeded then (r, None)
    else
      var looked := r.(looks := r.looks + 1);
      if w.cancelled(r.looks) then (looked.(truncated := true), None)
      else if w.late(r.looks) || r.calls >= MAX_FILLS_FETCH_CALLS then
        (looked.(budgetExceeded := true, truncated := true), None)
      else
        var reply := w.reply(r.calls, s, e);
        var asked := looked.(calls := r.calls + 1, trace := r.trace + [Exchange(s, e, reply)]);
        match reply
        case Failed(error) =>
          if r.out == [] then (asked, Some(error)) else (asked.(truncated := true), None)
        case Rows(fills) =>
          if |fills| < MAX_FILLS_PER_RESPONSE then (asked.(out := r.out + fills), None)
          else if e - s <= MIN_SLICE_MS then (asked.(out := r.out + fills, truncated := true), None)
          else
            var mid := s + (e - s) / 2;
            var (newer, err) := Walked(w, asked, mid, e);
            if err.Some? then (newer, err) else Walked(w, newer, s, mid)
  }

  datatype Result = Result(fills: seq<Fill>, truncated: bool, err: Option<string>)

  function Fetched(w: World, startMs: int, endMs: int): Result {
    var (r, err) := Walked(w, Start, startMs, endMs);
    Result(Sorted(Deduped(r.out)), r.truncated, err)
  }

  /** The requests of a whole fetch. */
  function Requests(w: World, startMs: int, endMs: int): seq<Exchange> {
    Walked(w, Start, startMs, endMs).0.trace
  }

  // ---- the program ----

  /** The closure `walk` with the variables it captures. */
  class FetchRun {
    var out: seq<Fill>
    var truncated: bool
    var calls: nat
    var budgetExceeded: bool
    var looks: nat
    ghost var trace: seq<Exchange>

    ghost function View(): Run
      reads this
    {
      Run(out, truncated, calls, budgetExceeded, looks, trace)
    }

    constructor ()
      ensures View() == Start
    {
      out, truncated, calls, budgetExceeded, looks, trace := [], false, 0, false, 0, [];
    }

    method Walk(w: World, s: int, e: int) returns (err: Option<string>)
      modifies this
      ensures (View(), err) == Walked(w, old(View()), s, e)
      decreases e - s
    {
      ghost var r := View();
      if budgetExceeded {
        return None;
      }
      var look := looks;
      looks := looks + 1;
      if w.cancelled(look) {
        truncated := true;
        return None;
      }
      if w.late(look) {
        budgetExceeded, truncated := true, true;
        return None;
      }
      if calls >= MAX_FILLS_FETCH_CALLS {
        budgetExceeded, truncated := true, true;
        return None;
      }
      var reply := w.reply(calls, s, e);
      calls := calls + 1;
      trace := trace + [Exchange(s, e, reply)];
      if reply.Failed? {
        if |out| == 0 {
          return Some(reply.error);
        }
        truncated := true;
        return None;
      }
      var fills := reply.fills;
      if |fills| < MAX_FILLS_PER_RESPONSE {
        out := out + fills;
        return None;
      }
      if e - s <= MIN_SLICE_MS {
        out := out + fills;
        truncated := true;
        return None;
      }
      var mid := s + (e - s) / 2;
      assert Splits(w, r, s, e) && View() == Asked(w, r, s, e);
      ghost var _, _ := SplitHalves(w, r, s, e);
      err := Walk(w, mid, e);
      if err.Some? {
        return err;
      }
      err := Walk(w, s, mid);
    }
  }

  method SortedCopy(fills: seq<Fill>) returns (sorted: seq<Fill>)
    ensures sorted == Sorted(fills)
  {
    var rows := new Fill[|fills|](i requires 0 <= i < |fills| => fills[i]);
    assert rows[..] == fills;
    SortFillsAsc(rows);
    sorted := rows[..];
  }

  method FetchAll(w: World, startMs: int, endMs: int) returns (fills: seq<Fill>, truncated: bool, err: Option<string>)
    ensures Result(fills, truncated, err) == Fetched(w, startMs, endMs)
  {
    var run := new FetchRun();
    err := run.Walk(w, startMs, endMs);
    var deduped := Dedup(run.out);
    fills := SortedCopy(deduped);
    truncated := run.truncated;
  }

  // ---- the venue ----

  ghost function Window(ledger: set<Fill>, lo: int, hi: int): set<Fill> {
    set f | f in ledger && lo <= f.time <= hi
  }

  /** A venue serving a fixed ledger: rows belong to the window asked for, and a reply below the cap
      is the whole window. */
  ghost predicate Honest(ledger: set<Fill>, x: Exchange) {
    x.reply.Rows? ==>
      && Elements(x.reply.fills) <= Window(ledger, x.lo, x.hi)
      && (|x.reply.fills| < 2000 ==> Elements(x.reply.fills) == Window(ledger, x.lo, x.hi))
  }

  ghost predicate HonestTrace(ledger: set<Fill>, trace: seq<Exchange>) {
    forall i :: 0 <= i < |trace| ==> Honest(ledger, trace[i])
  }

  /** A request at the subdivision floor that came back full. */
  ghost predicate FullFloor(x: Exchange) {
    x.reply.Rows? && |x.reply.fills| >= 2000 && x.hi - x.lo <= 3_600_000
  }

  /** No request at the subdivision floor came back full, and a request failed only because the context was cancelled
      while it was out: the look after the n-th request, or a later one, sees that. */
  ghost predicate Smooth(w: World, trace: seq<Exchange>) {
    forall i :: 0 <= i < |trace| ==> !FullFloor(trace[i]) && (trace[i].reply.Failed? ==> w.cancelled(i + 1))
  }

  /** Once cancelled, always cancelled. */
  ghost predicate CancelSticks(w: World) {
    forall i: nat, j: nat :: i <= j && w.cancelled(i) ==> w.cancelled(j)
  }

  ghost predicate Keyed(ledger: set<Fill>) {
    forall f, g :: f in ledger && g in ledger && SameTrade(f, g) ==> f == g
  }

  // ---- what every walk keeps ----

  /** The walk gets as far as its own request. */
  ghost predicate Asks(w: World, r: Run) {
    !r.budgetExceeded && !w.cancelled(r.looks) && !w.late(r.looks) && r.calls < MAX_FILLS_FETCH_CALLS
  }

  ghost function Asked(w: World, r: Run, s: int, e: int): Run {
    r.(looks := r.looks + 1, calls := r.calls + 1, trace := r.trace + [Exchange(s, e, w.reply(r.calls, s, e))])
  }

  ghost predicate Splits(w: World, r: Run, s: int, e: int) {
    && Asks(w, r)
    && var reply := w.reply(r.calls, s, e);
    && reply.Rows? && |reply.fills| >= MAX_FILLS_PER_RESPONSE && e - s > MIN_SLICE_MS
  }

  lemma SplitHalves(w: World, r: Run, s: int, e: int) returns (newer: Run, err: Option<string>)
    requires Splits(w, r, s, e)
    ensures (newer, err) == Walked(w, Asked(w, r, s, e), s + (e - s) / 2, e)
    ensures Walked(w, r, s, e) == if err.Some? then (newer, err) else Walked(w, newer, s, s + (e - s) / 2)
  {
    var half := Walked(w, Asked(w, r, s, e), s + (e - s) / 2, e);
    newer, err := half.0, half.1;
  }

  /** What one stretch of a walk does to the shared variables: they only grow, a spent budget stops everything,
      and every request is counted. */
  ghost predicate Grown(r: Run, r': Run) {
    && r.trace <= r'.trace && r.out <= r'.out && |r'.trace| - |r.trace| <= r'.looks - r.looks
    && (r.truncated ==> r'.truncated) && (r.budgetExceeded ==> r' == r)
    && ((r.budgetExceeded ==> r.truncated) ==> r'.budgetExceeded ==> r'.truncated)
    && r'.calls - r.calls == |r'.trace| - |r.trace|
    && (r.calls <= MAX_FILLS_FETCH_CALLS ==> r'.calls <= MAX_FILLS_FETCH_CALLS)
  }

  lemma GrownTwice(a: Run, b: Run, c: Run)
    requires Grown(a, b) && Grown(b, c)
    ensures Grown(a, c)
  {
  }

  lemma AskedGrows(w: World, r: Run, s: int, e: int)
    requires Asks(w, r)
    ensures Grown(r, Asked(w, r, s, e))
  {
  }

  lemma LeafGrows(w: World, r: Run, s: int, e: int)
    requires !Splits(w, r, s, e)
    ensures Grown(r, Walked(w, r, s, e).0)
  {
  }

  lemma {:induction false} WalkGrows(w: World, r: Run, s: int, e: int)
    ensures Grown(r, Walked(w, r, s, e).0)
    decreases e - s
  {
    if Splits(w, r, s, e) {
      var mid, asked := s + (e - s) / 2, Asked(w, r, s, e);
      var newer, err := SplitHalves(w, r, s, e);
      AskedGrows(w, r, s, e);
      WalkGrows(w, asked, mid, e);
      GrownTwice(r, asked, newer);
      if err.None? {
        WalkGrows(w, newer, s, mid);
        GrownTwice(r, newer, Walked(w, newer, s, mid).0);
      }
    } else {
      LeafGrows(w, r, s, e);
    }
  }

  lemma PrefixKeeps(w: World, ledger: set<Fill>, a: seq<Exchange>, b: seq<Exchange>)
    requires a <= b
    ensures HonestTrace(ledger, b) ==> HonestTrace(ledger, a)
    ensures Smooth(w, b) ==> Smooth(w, a)
    ensures |a| < |b| && HonestTrace(ledger, b) ==> Honest(ledger, b[|a|])
  {
    forall i | 0 <= i < |a| ensures a[i] == b[i] {
    }
  }

  /** Whatever happens, only rows of the window are collected; without truncation, all of them. */
  lemma {:induction false} WalkSound(w: World, ledger: set<Fill>, r: Run, s: int, e: int)
    requires HonestTrace(ledger, Walked(w, r, s, e).0.trace)
    requires r.budgetExceeded ==> r.truncated
    ensures var (r', err) := Walked(w, r, s, e);
      && Elements(r'.out) <= Elements(r.out) + Window(ledger, s, e)
      && (err.None? && !r'.truncated ==> Elements(r'.out) == Elements(r.out) + Window(ledger, s, e))
    decreases e - s
  {
    var (r', err) := Walked(w, r, s, e);
    WalkGrows(w, r, s, e);
    if Splits(w, r, s, e) {
      var mid := s + (e - s) / 2;
      var (newer, nerr) := Walked(w, Asked(w, r, s, e), mid, e);
      WalkGrows(w, Asked(w, r, s, e), mid, e);
      if nerr.None? {
        WalkGrows(w, newer, s, mid);
        PrefixKeeps(w, ledger, newer.trace, r'.trace);
        WalkSound(w, ledger, newer, s, mid);
      }
      WalkSound(w, ledger, Asked(w, r, s, e), mid, e);
      assert Window(ledger, s, e) == Window(ledger, s, mid) + Window(ledger, mid, e);
    } else if Asks(w, r) {
      var x := Exchange(s, e, w.reply(r.calls, s, e));
      assert r'.trace[|r.trace|] == x;
      if x.reply.Rows? {
        ElementsConcat(r.out, x.reply.fills);
      }
    }
  }

  ghost predicate Stopped(w: World, r: Run) {
    r.budgetExceeded || w.cancelled(r.looks)
  }

  lemma StoppedStays(w: World, r: Run, s: int, e: int)
    requires CancelSticks(w) && Stopped(w, r)
    ensures Stopped(w, Walked(w, r, s, e).0) && Walked(w, r, s, e).0.out == r.out && Walked(w, r, s, e).1.None?
    ensures Walked(w, r, s, e).0.trace == r.trace
  {
  }

  lemma WindowsJoin(ledger: set<Fill>, cut: int, mid: int, e: int)
    requires mid <= e
    ensures Window(ledger, mid, e) + Window(ledger, cut, mid) == Window(ledger, if cut <= mid then cut else mid, e)
  {
  }

  /** What one stretch of a smooth walk collects: everything of its window from the cut on. It flags nothing and covers
      the whole window unless it was stopped; it reports an error only if it was, and has nothing to show. */
  ghost predicate Suffix(w: World, ledger: set<Fill>, r: Run, r': Run, err: Option<string>, s: int, e: int, cut: int) {
    && Elements(r'.out) == Elements(r.out) + Window(ledger, cut, e)
    && s <= cut
    && (err.Some? ==> r'.out == [])
    && (Stopped(w, r') || (cut == s && err.None? && r'.truncated == r.truncated))
  }

  lemma AskedOnce(w: World, ledger: set<Fill>, r: Run, s: int, e: int) returns (cut: int)
    requires CancelSticks(w) && Asks(w, r) && !Splits(w, r, s, e) && |r.trace| <= r.looks
    requires HonestTrace(ledger, Walked(w, r, s, e).0.trace) && Smooth(w, Walked(w, r, s, e).0.trace)
    ensures Suffix(w, ledger, r, Walked(w, r, s, e).0, Walked(w, r, s, e).1, s, e, cut)
  {
    var x := Exchange(s, e, w.reply(r.calls, s, e));
    assert Walked(w, r, s, e).0.trace[|r.trace|] == x;
    if x.reply.Rows? {
      ElementsConcat(r.out, x.reply.fills);
      cut := s;
    } else {
      cut := if e < s then s else e + 1;
      assert Window(ledger, cut, e) == {};
    }
  }

  /** An unstopped newer half, then the older half. */
  lemma SuffixesJoin(
    w: World, ledger: set<Fill>, r: Run, newer: Run, r': Run, err: Option<string>, s: int, mid: int, e: int,
    newerCut: int, olderCut: int) returns (cut: int)
    requires s <= mid <= e && !Stopped(w, newer)
    requires Suffix(w, ledger, r, newer, None, mid, e, newerCut) && Suffix(w, ledger, newer, r', err, s, mid, olderCut)
    ensures Suffix(w, ledger, r, r', err, s, e, cut)
  {
    WindowsJoin(ledger, olderCut, mid, e);
    cut := if olderCut <= mid then olderCut else mid;
  }

  /** A walk that stops early has still collected everything from some cut on, because it takes the newer half first. */
  lemma {:induction false} WalkKeepsSuffix(w: World, ledger: set<Fill>, r: Run, s: int, e: int) returns (cut: int)
    requires CancelSticks(w) && |r.trace| <= r.looks
    requires HonestTrace(ledger, Walked(w, r, s, e).0.trace) && Smooth(w, Walked(w, r, s, e).0.trace)
    ensures Suffix(w, ledger, r, Walked(w, r, s, e).0, Walked(w, r, s, e).1, s, e, cut)
    decreases e - s
  {
    if Splits(w, r, s, e) {
      var mid, asked := s + (e - s) / 2, Asked(w, r, s, e);
      var newer, err := SplitHalves(w, r, s, e);
      SplitWalk(w, ledger, r, s, e);
      cut := WalkKeepsSuffix(w, ledger, asked, mid, e);
      if err.None? && Stopped(w, newer) {
        StoppedStays(w, newer, s, mid);
      } else if err.None? {
        WalkGrows(w, asked, mid, e);
        var older := WalkKeepsSuffix(w, ledger, newer, s, mid);
        var (r', err') := Walked(w, newer, s, mid);
        cut := SuffixesJoin(w, ledger, asked, newer, r', err', s, mid, e, cut, older);
      }
    } else if Asks(w, r) {
      cut := AskedOnce(w, ledger, r, s, e);
    } else {
      cut := if e < s then s else e + 1;
      assert Window(ledger, cut, e) == {};
    }
  }

  /** The two halves of a smooth walk are smooth themselves, and the second starts where the first ended. */
  lemma SplitWalk(w: World, ledger: set<Fill>, r: Run, s: int, e: int)
    requires Splits(w, r, s, e)
    ensures var mid := s + (e - s) / 2;
      var (newer, err) := Walked(w, Asked(w, r, s, e), mid, e);
      && (HonestTrace(ledger, Walked(w, r, s, e).0.trace) ==> HonestTrace(ledger, newer.trace))
      && (Smooth(w, Walked(w, r, s, e).0.trace) ==> Smooth(w, newer.trace))
      && (err.None? ==> Walked(w, r, s, e) == Walked(w, newer, s, mid))
  {
    var mid := s + (e - s) / 2;
    var (newer, err) := Walked(w, Asked(w, r, s, e), mid, e);
    if err.None? {
      WalkGrows(w, newer, s, mid);
    }
    PrefixKeeps(w, ledger, newer.trace, Walked(w, r, s, e).0.trace);
  }

  // ---- where the missing rows are ----

  /** A request whose window may hold rows that it did not bring. */
  ghost predicate Gap(x: Exchange) {
    x.reply.Failed? || FullFloor(x)
  }

  ghost predicate InGap(trace: seq<Exchange>, from: nat, f: Fill) {
    exists i :: from <= i < |trace| && Gap(trace[i]) && trace[i].lo <= f.time <= trace[i].hi
  }

  lemma GapStays(a: seq<Exchange>, b: seq<Exchange>, from: nat, later: nat, f: Fill)
    requires a <= b && from <= later && InGap(a, later, f)
    ensures InGap(b, from, f)
  {
    var i :| later <= i < |a| && Gap(a[i]) && a[i].lo <= f.time <= a[i].hi;
    assert b[i] == a[i];
  }

  /** Only rows from the cut on were collected, and each row of the window from the cut on was, or lies in the window of
      a request that failed or came back full at the floor. The cut leaves nothing out unless the walk was stopped or
      reported an error. */
  ghost predicate Accounted(
    w: World, ledger: set<Fill>, r: Run, r': Run, err: Option<string>, s: int, e: int, cut: int)
  {
    && s <= cut && (cut == s || Stopped(w, r') || err.Some?)
    && Elements(r'.out) <= Elements(r.out) + Window(ledger, cut, e)
    && (forall f :: f in Window(ledger, cut, e) ==> f in Elements(r'.out) || InGap(r'.trace, |r.trace|, f))
  }

  lemma AskedAccounted(w: World, ledger: set<Fill>, r: Run, s: int, e: int)
    requires Asks(w, r) && !Splits(w, r, s, e) && HonestTrace(ledger, Walked(w, r, s, e).0.trace)
    ensures Accounted(w, ledger, r, Walked(w, r, s, e).0, Walked(w, r, s, e).1, s, e, s)
  {
    var x, trace := Exchange(s, e, w.reply(r.calls, s, e)), Walked(w, r, s, e).0.trace;
    assert trace[|r.trace|] == x;
    if x.reply.Rows? {
      ElementsConcat(r.out, x.reply.fills);
    }
    if Gap(x) {
      forall f | f in Window(ledger, s, e) ensures InGap(trace, |r.trace|, f) {
        assert Gap(trace[|r.trace|]);
      }
    }
  }

  lemma StoppedAccounted(w: World, ledger: set<Fill>, r: Run, s: int, e: int) returns (cut: int)
    requires CancelSticks(w) && !Asks(w, r)
    ensures Accounted(w, ledger, r, Walked(w, r, s, e).0, Walked(w, r, s, e).1, s, e, cut)
  {
    cut := if e < s then s else e + 1;
    assert Window(ledger, cut, e) == {};
  }

  /** A newer half, and what the older half adds to it. */
  lemma AccountedJoins(
    w: World, ledger: set<Fill>, asked: Run, newer: Run, r: Run, r': Run, err: Option<string>,
    s: int, mid: int, e: int, newerCut: int, olderCut: int) returns (cut: int)
    requires s <= mid <= e && |r.trace| <= |asked.trace| && asked.out == r.out
    requires Grown(asked, newer) && Grown(newer, r')
    requires Accounted(w, ledger, asked, newer, None, mid, e, newerCut)
    requires newerCut > mid ==> Stopped(w, r') && r'.out == newer.out
    requires newerCut == mid ==> Accounted(w, ledger, newer, r', err, s, mid, olderCut)
    ensures Accounted(w, ledger, r, r', err, s, e, cut)
  {
    cut := if newerCut > mid then newerCut else if olderCut <= mid then olderCut else mid;
    WindowsJoin(ledger, olderCut, mid, e);
    forall f | f in Window(ledger, cut, e) ensures f in Elements(r'.out) || InGap(r'.trace, |r.trace|, f) {
      if f.time >= mid {
        assert f in Window(ledger, newerCut, e);
        if f !in Elements(newer.out) {
          GapStays(newer.trace, r'.trace, |r.trace|, |asked.trace|, f);
        }
      } else {
        assert f in Window(ledger, olderCut, mid);
        if f !in Elements(r'.out) {
          GapStays(r'.trace, r'.trace, |r.trace|, |newer.trace|, f);
        }
      }
    }
  }

  /** The error of a newer half ends the walk. */
  lemma AccountedFails(
    w: World, ledger: set<Fill>, asked: Run, r: Run, r': Run, err: Option<string>, s: int, mid: int, e: int, cut: int)
    requires s <= mid && |r.trace| <= |asked.trace| && asked.out == r.out && err.Some?
    requires Accounted(w, ledger, asked, r', err, mid, e, cut)
    ensures Accounted(w, ledger, r, r', err, s, e, cut)
  {
    forall f | f in Window(ledger, cut, e) ensures f in Elements(r'.out) || InGap(r'.trace, |r.trace|, f) {
      if f !in Elements(r'.out) {
        GapStays(r'.trace, r'.trace, |r.trace|, |asked.trace|, f);
      }
    }
  }

  /** Whatever the venue answers, and whichever requests fail. */
  lemma {:induction false} WalkAccounts(w: World, ledger: set<Fill>, r: Run, s: int, e: int) returns (cut: int)
    requires CancelSticks(w) && HonestTrace(ledger, Walked(w, r, s, e).0.trace)
    ensures Accounted(w, ledger, r, Walked(w, r, s, e).0, Walked(w, r, s, e).1, s, e, cut)
    decreases e - s
  {
    if Splits(w, r, s, e) {
      var mid, asked := s + (e - s) / 2, Asked(w, r, s, e);
      var newer, err := SplitHalves(w, r, s, e);
      SplitWalk(w, ledger, r, s, e);
      var newerCut := WalkAccounts(w, ledger, asked, mid, e);
      if err.Some? {
        AccountedFails(w, ledger, asked, r, newer, err, s, mid, e, newerCut);
        cut := newerCut;
      } else {
        var (r', err') := Walked(w, newer, s, mid);
        var olderCut := WalkAccounts(w, ledger, newer, s, mid);
        WalkGrows(w, asked, mid, e);
        WalkGrows(w, newer, s, mid);
        if Stopped(w, newer) {
          StoppedStays(w, newer, s, mid);
        }
        cut := AccountedJoins(w, ledger, asked, newer, r, r', err', s, mid, e, newerCut, olderCut);
      }
    } else if Asks(w, r) {
      AskedAccounted(w, ledger, r, s, e);
      cut := s;
    } else {
      cut := StoppedAccounted(w, ledger, r, s, e);
    }
  }

  /** While nothing is collected, truncation can only come from stopping, and an error leaves nothing behind. */
  ghost predicate EmptyOnFailure(w: World, r: Run, err: Option<string>) {
    && (r.truncated && r.out == [] ==> Stopped(w, r))
    && (err.Some? ==> r.out == [] && !r.truncated)
  }

  lemma LeafFailsEmpty(w: World, r: Run, s: int, e: int)
    requires !Splits(w, r, s, e) && !Stopped(w, r) && EmptyOnFailure(w, r, None)
    ensures var (r', err) := Walked(w, r, s, e);
      EmptyOnFailure(w, r', err)
  {
    if Asks(w, r) {
      var reply := w.reply(r.calls, s, e);
    }
  }

  lemma {:induction false} WalkFailsEmpty(w: World, r: Run, s: int, e: int)
    requires CancelSticks(w) && EmptyOnFailure(w, r, None)
    ensures var (r', err) := Walked(w, r, s, e);
      EmptyOnFailure(w, r', err)
    decreases e - s
  {
    if Stopped(w, r) {
      StoppedStays(w, r, s, e);
    } else if Splits(w, r, s, e) {
      var mid := s + (e - s) / 2;
      var newer, err := SplitHalves(w, r, s, e);
      WalkFailsEmpty(w, Asked(w, r, s, e), mid, e);
      if err.None? {
        WalkFailsEmpty(w, newer, s, mid);
      }
    } else {
      LeafFailsEmpty(w, r, s, e);
    }
  }

  // ---- when the flag is set ----

  /** A look that found the context cancelled. */
  ghost predicate CancelSeen(w: World, from: nat, to: nat) {
    exists i: nat :: from <= i < to && w.cancelled(i)
  }

  ghost predicate FloorFull(trace: seq<Exchange>, from: nat) {
    exists j :: from <= j < |trace| && FullFloor(trace[j])
  }

  /** A request that failed without ending the fetch; the one that ends it is the last. */
  ghost predicate FailurePassed(trace: seq<Exchange>, from: nat, err: Option<string>) {
    exists j :: from <= j < |trace| && trace[j].reply.Failed? && (err.None? || j < |trace| - 1)
  }

  /** What happened between r and r' that the flag reports. */
  ghost predicate Cut(w: World, r: Run, r': Run, err: Option<string>) {
    || (r'.budgetExceeded && !r.budgetExceeded)
    || CancelSeen(w, r.looks, r'.looks)
    || FloorFull(r'.trace, |r.trace|)
    || FailurePassed(r'.trace, |r.trace|, err)
  }

  lemma CancelSeenTwice(w: World, a: nat, b: nat, c: nat)
    requires a <= b <= c
    ensures CancelSeen(w, a, c) <==> CancelSeen(w, a, b) || CancelSeen(w, b, c)
  {
  }

  lemma FloorFullTwice(t: seq<Exchange>, t': seq<Exchange>, from: nat)
    requires t <= t' && from <= |t|
    ensures FloorFull(t', from) <==> FloorFull(t, from) || FloorFull(t', |t|)
  {
    assert forall j :: 0 <= j < |t| ==> t[j] == t'[j];
  }

  lemma FailurePassedTwice(t: seq<Exchange>, t': seq<Exchange>, from: nat, err: Option<string>)
    requires t <= t' && from <= |t| && (err.Some? ==> |t| < |t'|)
    ensures FailurePassed(t', from, err) <==> FailurePassed(t, from, None) || FailurePassed(t', |t|, err)
  {
    assert forall j :: 0 <= j < |t| ==> t[j] == t'[j];
  }

  lemma CutTwice(w: World, a: Run, b: Run, c: Run, err: Option<string>)
    requires Grown(a, b) && Grown(b, c) && (err.Some? ==> |b.trace| < |c.trace|)
    ensures Cut(w, a, c, err) <==> Cut(w, a, b, None) || Cut(w, b, c, err)
  {
    CancelSeenTwice(w, a.looks, b.looks, c.looks);
    FloorFullTwice(b.trace, c.trace, |a.trace|);
    FailurePassedTwice(b.trace, c.trace, |a.trace|, err);
  }

  /** A walk that reports an error made the request that failed. */
  lemma {:induction false} ErrorsAsk(w: World, r: Run, s: int, e: int)
    ensures Walked(w, r, s, e).1.Some? ==> |r.trace| < |Walked(w, r, s, e).0.trace|
    decreases e - s
  {
    if Splits(w, r, s, e) {
      var newer, err := SplitHalves(w, r, s, e);
      WalkGrows(w, Asked(w, r, s, e), s + (e - s) / 2, e);
      if err.None? {
        WalkGrows(w, newer, s, s + (e - s) / 2);
      }
    }
  }

  /** Nothing is cut by a look and a request that go on to split. */
  lemma SplittingCutsNothing(w: World, r: Run, s: int, e: int)
    requires Splits(w, r, s, e)
    ensures !Cut(w, r, Asked(w, r, s, e), None)
  {
    var asked := Asked(w, r, s, e);
    assert forall j :: |r.trace| <= j < |asked.trace| ==> asked.trace[j] == Exchange(s, e, w.reply(r.calls, s, e));
  }

  ghost predicate FlagSays(w: World, r: Run, r': Run, err: Option<string>) {
    r'.truncated <==> r.truncated || Cut(w, r, r', err)
  }

  lemma LeafFlags(w: World, r: Run, s: int, e: int)
    requires !Splits(w, r, s, e)
    ensures FlagSays(w, r, Walked(w, r, s, e).0, Walked(w, r, s, e).1)
  {
    var (r', err) := Walked(w, r, s, e);
    if !r.budgetExceeded {
      assert r'.looks == r.looks + 1 && (CancelSeen(w, r.looks, r'.looks) <==> w.cancelled(r.looks));
      if Asks(w, r) {
        var x := Exchange(s, e, w.reply(r.calls, s, e));
        assert r'.trace == r.trace + [x] && r'.trace[|r.trace|] == x;
        assert forall j :: |r.trace| <= j < |r'.trace| ==> r'.trace[j] == x;
      } else {
        assert r'.trace == r.trace;
      }
    }
  }

  lemma {:induction false} WalkFlags(w: World, r: Run, s: int, e: int)
    ensures FlagSays(w, r, Walked(w, r, s, e).0, Walked(w, r, s, e).1)
    decreases e - s
  {
    if Splits(w, r, s, e) {
      var mid, asked := s + (e - s) / 2, Asked(w, r, s, e);
      var newer, err := SplitHalves(w, r, s, e);
      AskedGrows(w, r, s, e);
      SplittingCutsNothing(w, r, s, e);
      WalkFlags(w, asked, mid, e);
      WalkGrows(w, asked, mid, e);
      ErrorsAsk(w, asked, mid, e);
      CutTwice(w, r, asked, newer, err);
      if err.None? {
        var (older, olderErr) := Walked(w, newer, s, mid);
        WalkFlags(w, newer, s, mid);
        WalkGrows(w, newer, s, mid);
        ErrorsAsk(w, newer, s, mid);
        GrownTwice(r, asked, newer);
        CutTwice(w, r, newer, older, olderErr);
      }
    } else {
      LeafFlags(w, r, s, e);
    }
  }

  /** The looks among the first n that did not find the context cancelled. Each but the last made a request. */
  function Uncancelled(w: World, n: nat): nat {
    if n == 0 then 0 else Uncancelled(w, n - 1) + if w.cancelled(n - 1) then 0 else 1
  }

  /** After n looks: the last one, not cancelled, found the deadline passed or 60 requests made. */
  predicate BudgetSpent(w: World, n: nat) {
    n > 0 && !w.cancelled(n - 1) && (w.late(n - 1) || Uncancelled(w, n - 1) >= 60)
  }

  /** The budget variables say of the looks and the clock what they should. */
  ghost predicate BudgetKept(w: World, r: Run) {
    && r.budgetExceeded == BudgetSpent(w, r.looks)
    && r.calls == Uncancelled(w, if r.budgetExceeded then r.looks - 1 else r.looks)
  }

  lemma AskedKeepsBudget(w: World, r: Run, s: int, e: int)
    requires BudgetKept(w, r) && Asks(w, r)
    ensures BudgetKept(w, Asked(w, r, s, e))
  {
  }

  lemma LeafKeepsBudget(w: World, r: Run, s: int, e: int)
    requires BudgetKept(w, r) && !Splits(w, r, s, e)
    ensures BudgetKept(w, Walked(w, r, s, e).0)
  {
    if Asks(w, r) {
      AskedKeepsBudget(w, r, s, e);
    }
  }

  lemma {:induction false} WalkKeepsBudget(w: World, r: Run, s: int, e: int)
    requires BudgetKept(w, r)
    ensures BudgetKept(w, Walked(w, r, s, e).0)
    decreases e - s
  {
    if Splits(w, r, s, e) {
      var mid, asked := s + (e - s) / 2, Asked(w, r, s, e);
      var newer, err := SplitHalves(w, r, s, e);
      AskedKeepsBudget(w, r, s, e);
      WalkKeepsBudget(w, asked, mid, e);
      if err.None? {
        WalkKeepsBudget(w, newer, s, mid);
      }
    } else {
      LeafKeepsBudget(w, r, s, e);
    }
  }

  // ---- how many requests ----

  ghost predicate NeverLate(w: World) {
    forall i: nat :: !w.late(i)
  }

  /** At most `most` requests; and when they fit the call budget, it is not what ends the walk. */
  ghost predicate CallsWithin(w: World, r: Run, r': Run, most: nat) {
    && r'.calls <= r.calls + most
    && (NeverLate(w) && r.calls + most <= MAX_FILLS_FETCH_CALLS ==> r'.budgetExceeded == r.budgetExceeded)
  }

  /** The two halves of a window of at most, or exactly, 2^d floor slices. */
  lemma HalfWindows(s: int, e: int, d: nat)
    requires e - s <= Pow2(d) * MIN_SLICE_MS && e - s > MIN_SLICE_MS
    ensures d > 0
    ensures var mid, half := s + (e - s) / 2, Pow2(d - 1) * MIN_SLICE_MS;
      && mid - s <= half && e - mid <= half && s < mid < e
      && (e - s == Pow2(d) * MIN_SLICE_MS ==> mid - s == e - mid == half)
  {
    assert d > 0;
    assert Pow2(d) * MIN_SLICE_MS == 2 * (Pow2(d - 1) * MIN_SLICE_MS);
  }

  lemma HalvesWithin(w: World, r: Run, asked: Run, newer: Run, r': Run, half: nat)
    requires asked.calls == r.calls + 1 && asked.budgetExceeded == r.budgetExceeded
    requires CallsWithin(w, asked, newer, half) && CallsWithin(w, newer, r', half)
    ensures CallsWithin(w, r, newer, 2 * half + 1) && CallsWithin(w, r, r', 2 * half + 1)
  {
  }

  lemma LeafCalls(w: World, r: Run, s: int, e: int, most: nat)
    requires !Splits(w, r, s, e) && most >= 1
    ensures CallsWithin(w, r, Walked(w, r, s, e).0, most)
  {
  }

  /** A window of at most 2^d floor slices costs at most 2^(d+1) - 1 requests, whatever the venue answers. */
  lemma {:induction false} WalkCalls(w: World, r: Run, s: int, e: int, d: nat)
    requires e - s <= Pow2(d) * MIN_SLICE_MS
    ensures CallsWithin(w, r, Walked(w, r, s, e).0, 2 * Pow2(d) - 1)
    decreases e - s
  {
    if Splits(w, r, s, e) {
      HalfWindows(s, e, d);
      var mid, asked := s + (e - s) / 2, Asked(w, r, s, e);
      var newer, err := SplitHalves(w, r, s, e);
      WalkCalls(w, asked, mid, e, d - 1);
      WalkCalls(w, newer, s, mid, d - 1);
      HalvesWithin(w, r, asked, newer, Walked(w, newer, s, mid).0, 2 * Pow2(d - 1) - 1);
    } else {
      LeafCalls(w, r, s, e, 2 * Pow2(d) - 1);
    }
  }

  ghost predicate FullReply(w: World, call: nat, s: int, e: int) {
    w.reply(call, s, e).Rows? && |w.reply(call, s, e).fills| >= MAX_FILLS_PER_RESPONSE
  }

  /** A venue whose every reply is full. */
  ghost predicate Saturated(w: World) {
    forall n: nat, s: int, e: int :: FullReply(w, n, s, e)
  }

  ghost predicate Undisturbed(w: World, look: nat) {
    !w.late(look) && !w.cancelled(look)
  }

  ghost predicate Uninterrupted(w: World) {
    forall i: nat :: Undisturbed(w, i)
  }

  /** Exactly `needed` requests, unless the call budget is smaller: then it is spent. */
  ghost predicate CallsReached(r: Run, r': Run, needed: nat) {
    && r'.budgetExceeded == (r.calls + needed > MAX_FILLS_FETCH_CALLS)
    && r'.calls == if r'.budgetExceeded then MAX_FILLS_FETCH_CALLS else r.calls + needed
  }

  lemma HalvesReached(r: Run, asked: Run, newer: Run, r': Run, half: nat)
    requires asked.calls == r.calls + 1
    requires CallsReached(asked, newer, half)
    requires if newer.budgetExceeded then r' == newer else CallsReached(newer, r', half)
    ensures CallsReached(r, r', 2 * half + 1)
  {
  }

  lemma SaturatedLeaf(w: World, r: Run, s: int, e: int)
    requires Saturated(w) && Uninterrupted(w) && !r.budgetExceeded && r.calls <= MAX_FILLS_FETCH_CALLS
    requires Asks(w, r) ==> e - s <= MIN_SLICE_MS
    ensures CallsReached(r, Walked(w, r, s, e).0, 1)
  {
    assert FullReply(w, r.calls, s, e) && Undisturbed(w, r.looks);
  }

  lemma SaturatedSplits(w: World, r: Run, s: int, e: int, d: nat)
    requires Saturated(w) && Asks(w, r) && d > 0 && e - s == Pow2(d) * MIN_SLICE_MS
    ensures Splits(w, r, s, e)
  {
    assert FullReply(w, r.calls, s, e);
    assert Pow2(d) >= 2;
  }

  lemma SpentWalkStops(w: World, r: Run, s: int, e: int)
    requires r.budgetExceeded
    ensures Walked(w, r, s, e).0 == r
  {
  }

  lemma SplitReached(w: World, r: Run, s: int, e: int, half: nat)
    requires Splits(w, r, s, e)
    requires var mid, asked := s + (e - s) / 2, Asked(w, r, s, e);
      var (newer, err) := Walked(w, asked, mid, e);
      && CallsReached(asked, newer, half) && err.None?
      && (newer.budgetExceeded || CallsReached(newer, Walked(w, newer, s, mid).0, half))
    ensures CallsReached(r, Walked(w, r, s, e).0, 2 * half + 1)
  {
    var mid := s + (e - s) / 2;
    var newer, err := SplitHalves(w, r, s, e);
    if newer.budgetExceeded {
      SpentWalkStops(w, newer, s, mid);
    }
    HalvesReached(r, Asked(w, r, s, e), newer, Walked(w, newer, s, mid).0, half);
  }

  lemma SpentBudgetStays(w: World, r: Run, s: int, e: int, needed: nat)
    requires Uninterrupted(w) && !r.budgetExceeded && r.calls == MAX_FILLS_FETCH_CALLS && needed > 0
    ensures CallsReached(r, Walked(w, r, s, e).0, needed)
  {
    assert Undisturbed(w, r.looks);
  }

  lemma LeafReached(w: World, r: Run, s: int, e: int, d: nat)
    requires Saturated(w) && Uninterrupted(w) && !r.budgetExceeded && r.calls <= MAX_FILLS_FETCH_CALLS
    requires e - s == Pow2(d) * MIN_SLICE_MS && (!Asks(w, r) || d == 0)
    ensures CallsReached(r, Walked(w, r, s, e).0, 2 * Pow2(d) - 1)
  {
    assert Undisturbed(w, r.looks);
    if !Asks(w, r) {
      SpentBudgetStays(w, r, s, e, 2 * Pow2(d) - 1);
    } else {
      SaturatedLeaf(w, r, s, e);
    }
  }

  /** The bound is reached, and the call budget cuts in exactly when it is the smaller of the two. */
  lemma {:induction false} WalkCallsReached(w: World, r: Run, s: int, e: int, d: nat)
    requires Saturated(w) && Uninterrupted(w) && !r.budgetExceeded && r.calls <= MAX_FILLS_FETCH_CALLS
    requires e - s == Pow2(d) * MIN_SLICE_MS
    ensures CallsReached(r, Walked(w, r, s, e).0, 2 * Pow2(d) - 1)
    decreases e - s
  {
    if !Asks(w, r) || d == 0 {
      LeafReached(w, r, s, e, d);
    } else {
      SaturatedSplits(w, r, s, e, d);
      HalfWindows(s, e, d);
      var mid, asked := s + (e - s) / 2, Asked(w, r, s, e);
      var newer := Walked(w, asked, mid, e).0;
      WalkCallsReached(w, asked, mid, e, d - 1);
      SaturatedNeverFails(w, asked, mid, e);
      if !newer.budgetExceeded {
        WalkCallsReached(w, newer, s, mid, d - 1);
      }
      SplitReached(w, r, s, e, 2 * Pow2(d - 1) - 1);
    }
  }

  lemma {:induction false} SaturatedNeverFails(w: World, r: Run, s: int, e: int)
    requires Saturated(w)
    ensures Walked(w, r, s, e).1.None?
    decreases e - s
  {
    if Splits(w, r, s, e) {
      var mid := s + (e - s) / 2;
      SaturatedNeverFails(w, Asked(w, r, s, e), mid, e);
      SaturatedNeverFails(w, Walked(w, Asked(w, r, s, e), mid, e).0, s, mid);
    } else if Asks(w, r) {
      assert FullReply(w, r.calls, s, e);
    }
  }

  // ---- main results ----

  /** The rows a request added to the collection: those of a page that was not split. */
  ghost predicate Brought(x: Exchange) {
    x.reply.Rows? && x.reply.fills != [] && (|x.reply.fills| < 2000 || x.hi - x.lo <= 3_600_000)
  }

  ghost predicate NothingBrought(trace: seq<Exchange>, from: nat, to: nat)
    requires to <= |trace|
  {
    forall i :: from <= i < to ==> !Brought(trace[i])
  }

  /** What the error of one stretch of a walk says: its last request failed with it, and nothing had been collected. */
  ghost predicate ErrorSays(r: Run, r': Run, err: Option<string>) {
    && |r.trace| <= |r'.trace| && r.trace <= r'.trace
    && (r.out == [] ==> (r'.out == [] <==> NothingBrought(r'.trace, |r.trace|, |r'.trace|)))
    && (err.Some? ==> r.out == [] && r'.out == [] && |r.trace| < |r'.trace|
                      && r'.trace[|r'.trace| - 1].reply == Failed(err.value))
    && (err.None? ==> forall j :: |r.trace| <= j < |r'.trace| && r'.trace[j].reply.Failed? ==>
                        r.out != [] || !NothingBrought(r'.trace, |r.trace|, j))
  }

  lemma NothingBroughtTwice(a: seq<Exchange>, b: seq<Exchange>, from: nat, to: nat)
    requires a <= b && from <= |a| <= to <= |b|
    ensures NothingBrought(b, from, to) <==> NothingBrought(a, from, |a|) && NothingBrought(b, |a|, to)
  {
    assert forall i :: 0 <= i < |a| ==> a[i] == b[i];
  }

  lemma ErrorSaysTwice(a: Run, b: Run, c: Run, err: Option<string>)
    requires ErrorSays(a, b, None) && ErrorSays(b, c, err) && a.out <= b.out && b.out <= c.out
    ensures ErrorSays(a, c, err)
  {
    NothingBroughtTwice(b.trace, c.trace, |a.trace|, |c.trace|);
    forall j | |a.trace| <= j < |c.trace| && c.trace[j].reply.Failed? && err.None?
      ensures a.out != [] || !NothingBrought(c.trace, |a.trace|, j)
    {
      if j < |b.trace| {
        assert b.trace[j] == c.trace[j];
        assert NothingBrought(c.trace, |a.trace|, j) ==> NothingBrought(b.trace, |a.trace|, j) by {
          assert forall i :: 0 <= i < |b.trace| ==> b.trace[i] == c.trace[i];
        }
      } else {
        NothingBroughtTwice(b.trace, c.trace, |a.trace|, j);
      }
    }
  }

  lemma LeafErrorSays(w: World, r: Run, s: int, e: int)
    requires !Splits(w, r, s, e)
    ensures ErrorSays(r, Walked(w, r, s, e).0, Walked(w, r, s, e).1)
  {
    var (r', err) := Walked(w, r, s, e);
    if Asks(w, r) {
      var x := Exchange(s, e, w.reply(r.calls, s, e));
      assert r'.trace == r.trace + [x] && r'.trace[|r.trace|] == x;
      assert NothingBrought(r'.trace, |r.trace|, |r'.trace|) <==> !Brought(x);
      assert NothingBrought(r'.trace, |r.trace|, |r.trace|);
    } else {
      assert r'.trace == r.trace && r'.out == r.out;
    }
  }

  lemma SplittingErrorSays(w: World, r: Run, s: int, e: int)
    requires Splits(w, r, s, e)
    ensures ErrorSays(r, Asked(w, r, s, e), None)
  {
    var asked := Asked(w, r, s, e);
    assert asked.trace[|r.trace|] == Exchange(s, e, w.reply(r.calls, s, e));
    assert NothingBrought(asked.trace, |r.trace|, |asked.trace|);
  }

  lemma {:induction false} WalkErrorSays(w: World, r: Run, s: int, e: int)
    ensures ErrorSays(r, Walked(w, r, s, e).0, Walked(w, r, s, e).1)
    decreases e - s
  {
    if Splits(w, r, s, e) {
      var mid, asked := s + (e - s) / 2, Asked(w, r, s, e);
      var newer, err := SplitHalves(w, r, s, e);
      SplittingErrorSays(w, r, s, e);
      WalkErrorSays(w, asked, mid, e);
      WalkGrows(w, asked, mid, e);
      ErrorSaysTwice(r, asked, newer, err);
      if err.None? {
        WalkErrorSays(w, newer, s, mid);
        WalkGrows(w, newer, s, mid);
        ErrorSaysTwice(r, newer, Walked(w, newer, s, mid).0, Walked(w, newer, s, mid).1);
      }
    } else {
      LeafErrorSays(w, r, s, e);
    }
  }

  /** Every fetch reports an error exactly when a request failed before any had brought a row; it is the error of that
      request, which was the last one. */
  lemma ErrorIff(w: World, startMs: int, endMs: int)
    ensures var trace, err := Requests(w, startMs, endMs), Fetched(w, startMs, endMs).err;
      && (err.Some? <==> exists j :: 0 <= j < |trace| && trace[j].reply.Failed? && NothingBrought(trace, 0, j))
      && (err.Some? ==> trace != [] && trace[|trace| - 1].reply == Failed(err.value))
  {
    WalkErrorSays(w, Start, startMs, endMs);
    var (end, err) := Walked(w, Start, startMs, endMs);
    if err.Some? {
      var last := |end.trace| - 1;
      assert NothingBrought(end.trace, 0, |end.trace|);
      assert end.trace[last].reply.Failed? && NothingBrought(end.trace, 0, last);
    }
  }

  /** Left alone, a fetch asks for the whole window, and goes on to its newer half exactly when 2000 rows or more came
      back for more than an hour. */
  lemma SplitIff(w: World, startMs: int, endMs: int)
    requires Uninterrupted(w)
    ensures var trace, reply := Requests(w, startMs, endMs), w.reply(0, startMs, endMs);
      && |trace| >= 1 && trace[0] == Exchange(startMs, endMs, reply)
      && (|trace| > 1 <==> reply.Rows? && |reply.fills| >= 2000 && endMs - startMs > 3_600_000)
      && (|trace| > 1 ==> trace[1].lo == startMs + (endMs - startMs) / 2 && trace[1].hi == endMs)
  {
    assert Undisturbed(w, 0) && Undisturbed(w, 1);
    if Splits(w, Start, startMs, endMs) {
      var mid, asked := startMs + (endMs - startMs) / 2, Asked(w, Start, startMs, endMs);
      var newer, err := SplitHalves(w, Start, startMs, endMs);
      FirstAsks(w, asked, mid, endMs);
      WalkGrows(w, newer, startMs, mid);
    }
  }

  lemma AskedComesFirst(w: World, r: Run, s: int, e: int)
    requires Asks(w, r)
    ensures Asked(w, r, s, e).trace <= Walked(w, r, s, e).0.trace
  {
    if Splits(w, r, s, e) {
      var newer, err := SplitHalves(w, r, s, e);
      WalkGrows(w, Asked(w, r, s, e), s + (e - s) / 2, e);
      if err.None? {
        WalkGrows(w, newer, s, s + (e - s) / 2);
      }
    }
  }

  lemma FirstAsks(w: World, r: Run, s: int, e: int)
    requires Asks(w, r)
    ensures var trace := Walked(w, r, s, e).0.trace;
      |trace| > |r.trace| && trace[|r.trace|] == Exchange(s, e, w.reply(r.calls, s, e)) && r.trace <= trace
  {
    var asked, trace := Asked(w, r, s, e).trace, Walked(w, r, s, e).0.trace;
    AskedComesFirst(w, r, s, e);
    assert asked[|r.trace|] == Exchange(s, e, w.reply(r.calls, s, e)) && asked <= trace;
    assert r.trace <= asked;
  }

  /** Every fetch: a list of distinct trades, oldest first, from at most 60 requests. */
  lemma FetchShape(w: World, startMs: int, endMs: int)
    ensures OneRowPerTrade(Fetched(w, startMs, endMs).fills)
    ensures OldestFirst(Fetched(w, startMs, endMs).fills)
    ensures |Requests(w, startMs, endMs)| <= 60
  {
    var out := Walked(w, Start, startMs, endMs).0.out;
    DedupedRows(out);
    SortedIsSorted(Deduped(out));
    SortedKeepsOneRowPerTrade(Deduped(out));
    WalkGrows(w, Start, startMs, endMs);
  }

  lemma FetchedMembers(out: seq<Fill>, f: Fill)
    ensures f in Sorted(Deduped(out)) ==> f in out
    ensures f in out ==> exists g :: g in Sorted(Deduped(out)) && SameTrade(g, f)
  {
    DedupedRows(out);
    SortedIsSorted(Deduped(out));
    if f in out {
      DedupedCovers(out, f);
    }
  }

  lemma FetchedElements(out: seq<Fill>)
    requires Keyed(Elements(out))
    ensures Elements(Sorted(Deduped(out))) == Elements(out)
  {
    forall f ensures f in Sorted(Deduped(out)) <==> f in out {
      FetchedMembers(out, f);
      if f in out {
        var g :| g in Sorted(Deduped(out)) && SameTrade(g, f);
        FetchedMembers(out, g);
      }
    }
  }

  /** Only rows of the window are returned, and an unflagged fetch returns a row for every trade in it. */
  lemma FetchIsSoundAndComplete(w: World, ledger: set<Fill>, startMs: int, endMs: int)
    requires HonestTrace(ledger, Requests(w, startMs, endMs))
    ensures var r := Fetched(w, startMs, endMs);
      && Elements(r.fills) <= Window(ledger, startMs, endMs)
      && (r.err.None? && !r.truncated ==>
            forall f :: f in Window(ledger, startMs, endMs) ==> exists g :: g in r.fills && SameTrade(g, f))
      && (r.err.None? && !r.truncated && Keyed(ledger) ==> Elements(r.fills) == Window(ledger, startMs, endMs))
  {
    var out := Walked(w, Start, startMs, endMs).0.out;
    WalkSound(w, ledger, Start, startMs, endMs);
    forall f {
      FetchedMembers(out, f);
    }
    if Keyed(ledger) {
      FetchedElements(out);
    }
  }

  /** Stopping early, between requests or during one, loses only the oldest part: the result is everything from some
      cut on. An error is reported only when that is nothing. */
  lemma TruncationLosesAPrefix(w: World, ledger: set<Fill>, startMs: int, endMs: int)
    requires CancelSticks(w) && Keyed(ledger)
    requires HonestTrace(ledger, Requests(w, startMs, endMs)) && Smooth(w, Requests(w, startMs, endMs))
    ensures Fetched(w, startMs, endMs).err.Some? ==> Fetched(w, startMs, endMs).fills == []
    ensures exists cut :: startMs <= cut && Elements(Fetched(w, startMs, endMs).fills) == Window(ledger, cut, endMs)
  {
    var cut := WalkKeepsSuffix(w, ledger, Start, startMs, endMs);
    FetchedElements(Walked(w, Start, startMs, endMs).0.out);
    assert Elements(Fetched(w, startMs, endMs).fills) == Window(ledger, cut, endMs);
  }

  /** Each trade has a row in the list or lies in the window of a request that failed or came back full at the floor. */
  ghost predicate FoundOrInGap(trades: set<Fill>, fills: seq<Fill>, trace: seq<Exchange>) {
    forall f :: f in trades ==> (exists g :: g in fills && SameTrade(g, f)) || InGap(trace, 0, f)
  }

  /** Every fetch, whatever fails: there is a cut such that no row before it is in the result, and each trade of the
      window from it on has a row there or lies in the window of a request that failed or came back full at the floor;
      and nothing lies before the cut unless a budget was spent, the context was cancelled or an error is reported. */
  lemma MissingRowsAreAccountedFor(w: World, ledger: set<Fill>, startMs: int, endMs: int) returns (cut: int)
    requires CancelSticks(w) && HonestTrace(ledger, Requests(w, startMs, endMs))
    ensures startMs <= cut
    ensures cut == startMs || Stopped(w, Walked(w, Start, startMs, endMs).0) || Fetched(w, startMs, endMs).err.Some?
    ensures Elements(Fetched(w, startMs, endMs).fills) <= Window(ledger, cut, endMs)
    ensures FoundOrInGap(Window(ledger, cut, endMs), Fetched(w, startMs, endMs).fills, Requests(w, startMs, endMs))
  {
    var out := Walked(w, Start, startMs, endMs).0.out;
    cut := WalkAccounts(w, ledger, Start, startMs, endMs);
    forall f | f in Fetched(w, startMs, endMs).fills ensures f in out {
      FetchedMembers(out, f);
    }
    forall f | f in Window(ledger, cut, endMs)
      ensures (exists g :: g in Fetched(w, startMs, endMs).fills && SameTrade(g, f))
        || InGap(Requests(w, startMs, endMs), 0, f)
    {
      FetchedMembers(out, f);
    }
  }

  /** The flag is set exactly when the last look found the deadline passed or 60 requests made, a look found the context
      cancelled, a slice at the floor came back full, or a request failed and the fetch went on. */
  lemma TruncatedIff(w: World, startMs: int, endMs: int)
    ensures var end := Walked(w, Start, startMs, endMs).0;
      Fetched(w, startMs, endMs).truncated <==>
        || BudgetSpent(w, end.looks)
        || CancelSeen(w, 0, end.looks)
        || FloorFull(Requests(w, startMs, endMs), 0)
        || FailurePassed(Requests(w, startMs, endMs), 0, Fetched(w, startMs, endMs).err)
  {
    WalkFlags(w, Start, startMs, endMs);
    WalkKeepsBudget(w, Start, startMs, endMs);
  }

  /** A fetch that reports an error returns no rows and no truncation flag. */
  lemma FailedFetchIsEmpty(w: World, startMs: int, endMs: int)
    requires CancelSticks(w) && Fetched(w, startMs, endMs).err.Some?
    ensures Fetched(w, startMs, endMs).fills == [] && !Fetched(w, startMs, endMs).truncated
  {
    WalkFailsEmpty(w, Start, startMs, endMs);
  }

  /** A window of at most 16 hours takes at most 31 requests. */
  lemma SixteenHoursFit(w: World, startMs: int, endMs: int)
    requires endMs - startMs <= 57_600_000
    ensures |Requests(w, startMs, endMs)| <= 31
    ensures NeverLate(w) ==> !Walked(w, Start, startMs, endMs).0.budgetExceeded
  {
    assert Pow2(4) == 2 * Pow2(3) == 4 * Pow2(2) == 8 * Pow2(1) == 16;
    WalkCalls(w, Start, startMs, endMs, 4);
    WalkGrows(w, Start, startMs, endMs);
  }

  /** The same bound for every power of two, and a venue that reaches it. */
  lemma CallBoundIsTight(w: World, startMs: int, endMs: int, d: nat)
    requires endMs - startMs <= Pow2(d) * 3_600_000
    ensures |Requests(w, startMs, endMs)| <= 2 * Pow2(d) - 1
    ensures Saturated(w) && Uninterrupted(w) && endMs - startMs == Pow2(d) * 3_600_000 ==>
      |Requests(w, startMs, endMs)| ==
        if 2 * Pow2(d) - 1 <= 60 then 2 * Pow2(d) - 1 else 60
  {
    WalkCalls(w, Start, startMs, endMs, d);
    WalkGrows(w, Start, startMs, endMs);
    if Saturated(w) && Uninterrupted(w) && endMs - startMs == Pow2(d) * 3_600_000 {
      WalkCallsReached(w, Start, startMs, endMs, d);
    }
  }

  /** Left alone, with a smooth venue, a window of at most 16 hours comes back whole and unflagged. */
  lemma ShortFetchIsWhole(w: World, ledger: set<Fill>, startMs: int, endMs: int)
    requires Uninterrupted(w) && Keyed(ledger) && endMs - startMs <= 57_600_000
    requires HonestTrace(ledger, Requests(w, startMs, endMs)) && Smooth(w, Requests(w, startMs, endMs))
    ensures var r := Fetched(w, startMs, endMs);
      r.err.None? && !r.truncated && Elements(r.fills) == Window(ledger, startMs, endMs)
  {
    forall i: nat ensures !w.late(i) && !w.cancelled(i) {
      assert Undisturbed(w, i);
    }
    SixteenHoursFit(w, startMs, endMs);
    var r := Walked(w, Start, startMs, endMs).0;
    assert Undisturbed(w, r.looks);
    var cut := WalkKeepsSuffix(w, ledger, Start, startMs, endMs);
    FetchIsSoundAndComplete(w, ledger, startMs, endMs);
  }

  /** Two unflagged fetches of one window return the same list, however the venue paged them. */
  lemma PagingDoesNotShow(v: World, w: World, ledger: set<Fill>, startMs: int, endMs: int)
    requires HonestTrace(ledger, Requests(v, startMs, endMs)) && HonestTrace(ledger, Requests(w, startMs, endMs))
    requires Keyed(ledger) && Untied(ledger)
    requires Fetched(v, startMs, endMs).err.None? && !Fetched(v, startMs, endMs).truncated
    requires Fetched(w, startMs, endMs).err.None? && !Fetched(w, startMs, endMs).truncated
    ensures Fetched(v, startMs, endMs).fills == Fetched(w, startMs, endMs).fills
  {
    FetchIsSoundAndComplete(v, ledger, startMs, endMs);
    FetchIsSoundAndComplete(w, ledger, startMs, endMs);
    FetchShape(v, startMs, endMs);
    FetchShape(w, startMs, endMs);
    SortedListUnique(Fetched(v, startMs, endMs).fills, Fetched(w, startMs, endMs).fills);
  }
}
