/** Rate limiting: the adaptive pacer's interval arithmetic and spacing, and the outbound-frame throttle. Times are
    nanoseconds on one monotonic clock. */
module Pacing {
  import opened Basics

  const SECOND: int := 1_000_000_000
  const STREAK_LENGTH: nat := 5

  function Min(a: int, b: int): int {
    if a < b then a else b
  }

  function Max(a: int, b: int): int {
    if a < b then b else a
  }

  // ---- the interval as a value ----

  datatype Pace = Pace(base: int, maxBackoff: int, current: int, streak: nat)

  function Fresh(base: int, max: int): Pace {
    Pace(Max(base, 0), if max <= 0 then 30 * SECOND else max, Max(base, 0), 0)
  }

  function BackedOff(p: Pace): Pace {
    var doubled := 2 * p.current;
    var stepped := if p.base == 0 && doubled < SECOND then SECOND else doubled;
    p.(current := Max(p.base, Min(stepped, p.maxBackoff)), streak := 0)
  }

  function Succeeded(p: Pace): Pace {
    if p.streak + 1 >= STREAK_LENGTH then p.(current := Max(p.base, p.current / 2), streak := 0)
    else p.(streak := p.streak + 1)
  }

  /** The time a timer of the remaining interval fires, or `now` when none is left. */
  function Due(last: Option<int>, interval: int, now: int): int {
    if last.None? then now else Max(now, last.value + interval)
  }

  // ---- the program ----

  class AdaptivePacer {
    var base: int
    var current: int
    var maxBackoff: int
    var streak: nat
    var last: Option<int>

    ghost function View(): Pace
      reads this
    {
      Pace(base, maxBackoff, current, streak)
    }

    constructor (base: int, max: int)
      ensures View() == Fresh(base, max) && last == None
    {
      var b, m := base, max;
      if m <= 0 {
        m := 30 * SECOND;
      }
      if b < 0 {
        b := 0;
      }
      this.base, current, maxBackoff, streak, last := b, b, m, 0, None;
    }

    /** `now` is the clock when the wait is computed, `done` when it is marked; a timer never fires early. */
    method Wait(now: int, done: int, cancelled: bool) returns (ok: bool)
      requires now <= done && (!cancelled ==> Due(last, current, now) <= done)
      modifies this`last
      ensures ok == !(cancelled && now < Due(old(last), current, now))
      ensures last == if ok then Some(done) else old(last)
      ensures ok && old(last).Some? ==> done - old(last).value >= current
    {
      if last.Some? {
        var wait := current - (now - last.value);
        if wait > 0 && cancelled {
          return false;
        }
      }
      last := Some(done);
      return true;
    }

    method Backoff()
      modifies this`current, this`streak
      ensures View() == BackedOff(old(View()))
    {
      current := current * 2;
      if base == 0 && current < SECOND {
        current := SECOND;
      }
      if current > maxBackoff {
        current := maxBackoff;
      }
      if current < base {
        current := base;
      }
      streak := 0;
    }

    method Success()
      modifies this`current, this`streak
      ensures View() == Succeeded(old(View()))
    {
      streak := streak + 1;
      if streak >= STREAK_LENGTH {
        streak := 0;
        current := current / 2;
        if current < base {
          current := base;
        }
      }
    }

    method Interval() returns (interval: int)
      ensures interval == current
    {
      return current;
    }
  }

  // ---- runs ----

  datatype Event = Backoff | Success | Wait(now: int, done: int, cancelled: bool)

  /** A wait that let its caller through: when, and the interval it had read. */
  datatype Pass = Pass(time: int, interval: int)

  datatype State = State(pace: Pace, last: Option<int>, passes: seq<Pass>)

  ghost predicate Possible(st: State, ev: Event) {
    ev.Wait? ==> ev.now <= ev.done && (!ev.cancelled ==> Due(st.last, st.pace.current, ev.now) <= ev.done)
  }

  ghost function Step(st: State, ev: Event): State {
    match ev
    case Backoff => st.(pace := BackedOff(st.pace))
    case Success => st.(pace := Succeeded(st.pace))
    case Wait(now, done, cancelled) =>
      if cancelled && now < Due(st.last, st.pace.current, now) then st
      else st.(last := Some(done), passes := st.passes + [Pass(done, st.pace.current)])
  }

  ghost function Run(base: int, max: int, evs: seq<Event>): State {
    if evs == [] then State(Fresh(base, max), None, [])
    else Step(Run(base, max, evs[..|evs| - 1]), evs[|evs| - 1])
  }

  ghost predicate PossibleRun(base: int, max: int, evs: seq<Event>) {
    evs != [] ==>
      (PossibleRun(base, max, evs[..|evs| - 1]) && Possible(Run(base, max, evs[..|evs| - 1]), evs[|evs| - 1]))
  }

  lemma {:induction false} PossibleSoFar(base: int, max: int, evs: seq<Event>, i: nat)
    requires PossibleRun(base, max, evs) && i < |evs|
    ensures PossibleRun(base, max, evs[..i]) && Possible(Run(base, max, evs[..i]), evs[i])
  {
    if i < |evs| - 1 {
      var init := evs[..|evs| - 1];
      PossibleSoFar(base, max, init, i);
      assert init[..i] == evs[..i];
    }
  }

  /** One pacer driven through a run, its interval read before every wait as a caller would. */
  method Replay(base: int, max: int, evs: seq<Event>) returns (passes: seq<Pass>, interval: int)
    requires PossibleRun(base, max, evs)
    ensures var st := Run(base, max, evs); passes == st.passes && interval == st.pace.current
  {
    var pacer := new AdaptivePacer(base, max);
    passes := [];
    assert evs[..0] == [];
    for i := 0 to |evs|
      invariant fresh(pacer)
      invariant State(pacer.View(), pacer.last, passes) == Run(base, max, evs[..i])
    {
      PossibleSoFar(base, max, evs, i);
      assert evs[..i + 1][..i] == evs[..i];
      match evs[i]
      case Backoff => pacer.Backoff();
      case Success => pacer.Success();
      case Wait(now, done, cancelled) =>
        var read := pacer.Interval();
        var ok := pacer.Wait(now, done, cancelled);
        if ok {
          passes := passes + [Pass(done, read)];
        }
    }
    assert evs[..|evs|] == evs;
    interval := pacer.Interval();
  }

  ghost predicate Bounded(p: Pace) {
    0 <= p.base <= p.current <= Max(p.base, p.maxBackoff) && p.maxBackoff > 0 && p.streak < STREAK_LENGTH
  }

  /** In every run the interval stays between the floor and the cap (or the floor, when that is above the cap). */
  lemma {:induction false} IntervalIsBounded(base: int, max: int, evs: seq<Event>)
    ensures var p := Run(base, max, evs).pace;
      Bounded(p) && p.base == Fresh(base, max).base && p.maxBackoff == Fresh(base, max).maxBackoff
    ensures var floor, cap := if base > 0 then base else 0, if max > 0 then max else 30_000_000_000;
      var interval := Run(base, max, evs).pace.current;
      && floor <= interval && (interval <= cap || interval == floor) && (evs == [] ==> interval == floor)
      && Run(base, max, evs).pace.base == floor && Run(base, max, evs).pace.maxBackoff == cap
  {
    if evs != [] {
      IntervalIsBounded(base, max, evs[..|evs| - 1]);
    }
  }

  /** Each pass comes at least the interval it read after the pass before, and no interval read is below the floor. */
  ghost predicate Paced(passes: seq<Pass>, floor: int) {
    && (forall i :: 0 <= i < |passes| ==> passes[i].interval >= floor)
    && (forall i :: 0 < i < |passes| ==> passes[i].time - passes[i - 1].time >= passes[i].interval)
  }

  /** One caller at a time, in every run: whatever backoffs, successes and cancelled waits happen in between. */
  lemma {:induction false} PassesArePaced(base: int, max: int, evs: seq<Event>)
    requires PossibleRun(base, max, evs)
    ensures var st := Run(base, max, evs);
      && Paced(st.passes, if base > 0 then base else 0)
      && st.last == if st.passes == [] then None else Some(st.passes[|st.passes| - 1].time)
  {
    if evs != [] {
      PassesArePaced(base, max, evs[..|evs| - 1]);
      IntervalIsBounded(base, max, evs[..|evs| - 1]);
    }
  }

  // ---- closed forms ----

  function Backoffs(p: Pace, k: nat): Pace {
    if k == 0 then p else BackedOff(Backoffs(p, k - 1))
  }

  function Successes(p: Pace, n: nat): Pace {
    if n == 0 then p else Succeeded(Successes(p, n - 1))
  }

  /** The interval after k backoffs of a fresh pacer. A zero floor steps to one second first; a floor above the cap
      never moves. */
  function BackoffInterval(p: Pace, k: nat): int {
    if k == 0 || p.base > p.maxBackoff then p.base
    else if p.base > 0 then Min(p.maxBackoff, p.base * Pow2(k))
    else Min(p.maxBackoff, 1_000_000_000 * Pow2(k - 1))
  }

  lemma {:induction false} BackoffsDouble(base: int, max: int, k: nat)
    ensures var p := Fresh(base, max);
      Backoffs(p, k) == p.(current := BackoffInterval(p, k))
  {
    var p := Fresh(base, max);
    if k > 0 {
      BackoffsDouble(base, max, k - 1);
      DoublesOnce(p, k - 1);
    }
  }

  lemma DoublesOnce(p: Pace, k: nat)
    requires p.base >= 0 && p.maxBackoff > 0
    ensures BackedOff(p.(current := BackoffInterval(p, k))).current == BackoffInterval(p, k + 1)
  {
    var unit, e := if p.base > 0 then p.base else SECOND, if p.base > 0 || k == 0 then k else k - 1;
    var x := unit * Pow2(e);
    assert x >= unit by {
      ProductAtLeast(unit, Pow2(e));
    }
    assert unit * Pow2(e + 1) == 2 * x;
    assert k == 0 && p.base > 0 ==> x == p.base;
  }

  lemma HalvedAgain(c: int, p: int)
    requires c >= 0 && p >= 1
    ensures c / p / 2 == c / (2 * p)
  {
    var q, r := c / p, c % p;
    var h, o := q / 2, q % 2;
    assert q == 2 * h + o;
    assert p * q == (2 * p) * h + p * o by {
      assert p * q == p * (2 * h + o);
    }
    assert 0 <= p * o <= p;
    DivideUnique(c, 2 * p, h, p * o + r);
  }

  /** After a backoff, n clean calls halve the interval once per full streak of five, down to the floor. */
  lemma {:induction false} SuccessesHalve(p: Pace, n: nat)
    requires Bounded(p) && p.streak == 0
    ensures Successes(p, n) == p.(current := Max(p.base, p.current / Pow2(n / 5)), streak := n % 5)
  {
    if n > 0 {
      SuccessesHalve(p, n - 1);
      if n % 5 == 0 {
        assert (n - 1) / 5 == n / 5 - 1;
        HalvedAgain(p.current, Pow2(n / 5 - 1));
      } else {
        assert (n - 1) / 5 == n / 5;
      }
    }
  }

  /** A backoff breaks the streak, however long it was: it takes five clean calls again to halve the interval. */
  lemma BackoffRestartsStreak(p: Pace, n: nat)
    requires Bounded(p)
    ensures Successes(BackedOff(p), n).current == Max(p.base, BackedOff(p).current / Pow2(n / 5))
  {
    BackoffsBounded(p, 1);
    assert Backoffs(p, 1) == BackedOff(Backoffs(p, 0)) == BackedOff(p);
    SuccessesHalve(BackedOff(p), n);
  }

  /** What k backoffs did, k full streaks undo: the interval is back at the floor. */
  lemma RecoveryUndoesBackoff(base: int, max: int, k: nat)
    requires Fresh(base, max).base > 0
    ensures Successes(Backoffs(Fresh(base, max), k), 5 * k) == Fresh(base, max)
  {
    var p := Fresh(base, max);
    var slow := Backoffs(p, k);
    BackoffsDouble(base, max, k);
    BackoffsBounded(p, k);
    SuccessesHalve(slow, 5 * k);
    assert slow.current <= p.base * Pow2(k) by {
      ProductAtLeast(p.base, Pow2(k));
      assert Pow2(0) == 1;
    }
    QuotientAtMost(slow.current, p.base, Pow2(k));
  }

  lemma QuotientAtMost(c: int, b: int, p: int)
    requires 0 <= c <= b * p && p >= 1
    ensures c / p <= b
  {
    var q := c / p;
    assert p * q + c % p == c;
    assert p * (q - b) == p * q - b * p;
    SmallMultiple(p, q - b);
  }

  lemma {:induction false} BackoffsBounded(p: Pace, k: nat)
    requires Bounded(p)
    ensures Bounded(Backoffs(p, k))
  {
    if k > 0 {
      BackoffsBounded(p, k - 1);
    }
  }

  // ---- the throttle ----

  const MAX_OUTBOUND_PER_SEC: nat := 10
  const FRAME_GAP: int := SECOND / MAX_OUTBOUND_PER_SEC

  /** One turn inside the lock: the clock on entry and when the permit is stamped. */
  datatype Turn = Turn(now: int, done: int)

  ghost predicate TurnPossible(lastSend: Option<int>, turn: Turn) {
    turn.now <= turn.done && Due(lastSend, FRAME_GAP, turn.now) <= turn.done
  }

  class Throttle {
    var lastSend: Option<int>

    constructor ()
      ensures lastSend == None
    {
      lastSend := None;
    }

    /** The lock is held for the whole call, the sleep included, so concurrent senders take turns. */
    method Permit(turn: Turn)
      requires TurnPossible(lastSend, turn)
      modifies this
      ensures lastSend == Some(turn.done)
      ensures old(lastSend).Some? ==> turn.done - old(lastSend).value >= 100_000_000
    {
      var earliest := turn.now;
      if lastSend.Some? {
        var wait := FRAME_GAP - (turn.now - lastSend.value);
        if wait > 0 {
          earliest := turn.now + wait;
        }
      }
      assert earliest <= turn.done;
      lastSend := Some(turn.done);
    }
  }

  /** The turns of any number of senders, in the order the lock was given. */
  ghost predicate TurnsPossible(turns: seq<Turn>) {
    forall i :: 0 <= i < |turns| ==> TurnPossible(if i == 0 then None else Some(turns[i - 1].done), turns[i])
  }

  function Permits(turns: seq<Turn>): seq<int> {
    seq(|turns|, i requires 0 <= i < |turns| => turns[i].done)
  }

  /** Every two neighbours are at least `gap` apart. */
  ghost predicate SpacedBy(times: seq<int>, gap: int) {
    forall i :: 0 < i < |times| ==> times[i] - times[i - 1] >= gap
  }

  lemma {:induction false} SpanAtLeast(times: seq<int>, gap: int, i: nat, j: nat)
    requires SpacedBy(times, gap) && i <= j < |times|
    ensures times[j] - times[i] >= (j - i) * gap
  {
    if i < j {
      SpanAtLeast(times, gap, i, j - 1);
      assert (j - i) * gap == (j - 1 - i) * gap + gap;
    }
  }

  /** k permits span at least (k - 1) tenths of a second, between any two of them. */
  lemma PermitsAreSpaced(turns: seq<Turn>, i: nat, j: nat)
    requires TurnsPossible(turns) && i <= j < |turns|
    ensures Permits(turns)[j] - Permits(turns)[i] >= (j - i) * 100_000_000
  {
    forall k | 0 < k < |turns| ensures turns[k].done - turns[k - 1].done >= FRAME_GAP {
      assert TurnPossible(Some(turns[k - 1].done), turns[k]);
    }
    SpanAtLeast(Permits(turns), FRAME_GAP, i, j);
  }

  /** The permits in the half-open second that starts at `start`. */
  function InSecond(permits: seq<int>, start: int): set<int> {
    set k | 0 <= k < |permits| && start <= permits[k] < start + 1_000_000_000
  }

  function Range(low: int, n: nat): set<int> {
    if n == 0 then {} else Range(low, n - 1) + {low + n - 1}
  }

  lemma {:induction false} RangeSize(low: int, n: nat)
    ensures |Range(low, n)| == n && forall k :: k in Range(low, n) <==> low <= k < low + n
  {
    if n > 0 {
      RangeSize(low, n - 1);
    }
  }

  /** The index of the first permit at or after `start`. */
  function FirstFrom(permits: seq<int>, start: int): (f: nat)
    ensures f <= |permits| && (f < |permits| ==> permits[f] >= start)
    ensures forall k :: 0 <= k < f ==> permits[k] < start
  {
    if permits == [] || permits[0] >= start then 0 else 1 + FirstFrom(permits[1..], start)
  }

  lemma FewGapsInASecond(gaps: int)
    requires gaps * FRAME_GAP < SECOND
    ensures gaps < MAX_OUTBOUND_PER_SEC
  {
    assert FRAME_GAP == 100_000_000;
  }

  /** No second, wherever it starts, sees more than ten permits. */
  lemma AtMostTenASecond(turns: seq<Turn>, start: int)
    requires TurnsPossible(turns)
    ensures |InSecond(Permits(turns), start)| <= 10
  {
    var inside, first := InSecond(Permits(turns), start), FirstFrom(Permits(turns), start);
    RangeSize(first, MAX_OUTBOUND_PER_SEC);
    forall k | k in inside ensures k in Range(first, MAX_OUTBOUND_PER_SEC) {
      PermitsAreSpaced(turns, first, k);
      FewGapsInASecond(k - first);
    }
    SubsetSize(inside, Range(first, MAX_OUTBOUND_PER_SEC));
  }

  /** Senders that come every tenth of a second from `start` on. */
  ghost predicate Steady(turns: seq<Turn>, start: int) {
    forall i :: 0 <= i < |turns| ==> turns[i].now == turns[i].done == start + 100_000_000 * i
  }

  lemma SteadyIsPossible(turns: seq<Turn>, start: int)
    requires Steady(turns, start)
    ensures TurnsPossible(turns)
  {
    assert FRAME_GAP == 100_000_000;
    forall i | 0 <= i < |turns| ensures TurnPossible(if i == 0 then None else Some(turns[i - 1].done), turns[i]) {
      assert turns[i].done == start + 100_000_000 * i;
      assert i > 0 ==> turns[i - 1].done == start + 100_000_000 * (i - 1);
    }
  }

  /** Ten is reached. */
  lemma TenASecondIsReached(turns: seq<Turn>, start: int)
    requires |turns| == 10 && Steady(turns, start)
    ensures TurnsPossible(turns) && |InSecond(Permits(turns), start)| == 10
  {
    SteadyIsPossible(turns, start);
    RangeSize(0, 10);
    assert forall k :: 0 <= k < 10 ==> start <= Permits(turns)[k] < start + SECOND;
    assert InSecond(Permits(turns), start) == Range(0, 10);
  }
}
