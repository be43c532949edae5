/** Store-on-change against the freshness test: when a venue that is read all the time counts as stale. */
module FundingFreshness {
  import opened Basics
  import opened Arbitrage
  import opened FundingLog

  /** The k-th observation of an instrument is stored: the first sighting, a rate that changed or does not parse, or
      the heartbeat. A row whose text is empty reads as none. */
  ghost predicate Kept(parse: Parser, obs: seq<Row>, k: nat)
    requires k < |obs|
  {
    || k == 0
    || !SameNumber(parse, obs[k - 1].rate, obs[k].rate)
    || (var (rate, at) := LastRate(Log(parse, obs[..k])); rate == "" || obs[k].at >= at + 3_600_000_000_000)
  }

  lemma IncreasingPrefix(obs: seq<Row>, k: nat)
    requires Increasing(obs) && k <= |obs|
    ensures Increasing(obs[..k])
  {
  }

  /** The newest row stands for the observation seen last. */
  ghost predicate Repeats(parse: Parser, newest: Row, seen: Row) {
    newest == seen || SameNumber(parse, newest.rate, seen.rate)
  }

  lemma NewestRepeats(parse: Parser, obs: seq<Row>) returns (newest: Row)
    requires obs != [] && Increasing(obs)
    ensures Latest(Log(parse, obs)) == Some(newest) && Repeats(parse, newest, obs[|obs| - 1])
  {
    var log := Log(parse, obs);
    LogFollows(parse, obs);
    LatestIsLast(log);
    newest := log[|log| - 1];
  }

  lemma SameRateAsNewest(parse: Parser, newest: Row, prev: Row, rate: string)
    requires Repeats(parse, newest, prev)
    ensures SameNumber(parse, newest.rate, rate) <==> SameNumber(parse, prev.rate, rate)
  {
  }

  lemma StoredAtTheEnd(rows: seq<Row>, seen: Row)
    requires forall r :: Latest(rows) == Some(r) ==> r.at <= seen.at
    ensures Latest(rows + [seen]) == Some(seen)
  {
    assert (rows + [seen])[..|rows|] == rows;
  }

  lemma NewestIsEarlier(parse: Parser, obs: seq<Row>, newest: Row)
    requires obs != [] && Increasing(obs) && Latest(Log(parse, obs)) == Some(newest)
    ensures newest.at <= obs[|obs| - 1].at
  {
    LogFollows(parse, obs);
    LatestIsLast(Log(parse, obs));
  }

  lemma NewestAfter(parse: Parser, log: seq<Row>, newest: Row, prev: Row, seen: Row)
    requires Latest(log) == Some(newest) && Repeats(parse, newest, prev) && newest.at <= seen.at
    ensures Latest(Stored(parse, log, seen)) ==
      if || !SameNumber(parse, prev.rate, seen.rate) || newest.rate == "" || seen.at >= newest.at + 3_600_000_000_000
      then Some(seen) else Some(newest)
  {
    SameRateAsNewest(parse, newest, prev, seen.rate);
    StoredAtTheEnd(log, seen);
  }

  /** One observation further, the newest row is that observation exactly when it was kept. */
  lemma NewestStep(parse: Parser, obs: seq<Row>)
    requires obs != [] && Increasing(obs)
    ensures Latest(Log(parse, obs)) ==
      if Kept(parse, obs, |obs| - 1) then Some(obs[|obs| - 1]) else Latest(Log(parse, obs[..|obs| - 1]))
  {
    var n := |obs| - 1;
    if n == 0 {
      FirstIsNewest(parse, obs);
    } else {
      var newest := NewestSoFar(parse, obs);
      NewestAfter(parse, Log(parse, obs[..n]), newest, obs[n - 1], obs[n]);
      assert LastRate(Log(parse, obs[..n])) == (newest.rate, newest.at);
    }
  }

  lemma NewestSoFar(parse: Parser, obs: seq<Row>) returns (newest: Row)
    requires |obs| > 1 && Increasing(obs)
    ensures var n := |obs| - 1;
      && Latest(Log(parse, obs[..n])) == Some(newest) && Repeats(parse, newest, obs[n - 1]) && newest.at <= obs[n].at
  {
    var n := |obs| - 1;
    IncreasingPrefix(obs, n);
    newest := NewestRepeats(parse, obs[..n]);
    NewestIsEarlier(parse, obs[..n], newest);
  }

  lemma FirstIsNewest(parse: Parser, obs: seq<Row>)
    requires |obs| == 1
    ensures Latest(Log(parse, obs)) == Some(obs[0])
  {
    assert obs[..0] == [] && Log(parse, obs[..0]) == [];
    StoredAtTheEnd([], obs[0]);
  }

  /** The last observation kept, with none kept after it. */
  ghost predicate LastKept(parse: Parser, obs: seq<Row>, k: nat) {
    k < |obs| && Kept(parse, obs, k) && forall j :: k < j < |obs| ==> !Kept(parse, obs, j)
  }

  lemma KeptInPrefix(parse: Parser, obs: seq<Row>, n: nat, k: nat)
    requires k < n <= |obs|
    ensures Kept(parse, obs[..n], k) <==> Kept(parse, obs, k)
  {
    assert obs[..n][..k] == obs[..k];
  }

  /** What a reader finds is the last observation kept. */
  lemma {:induction false} NewestIsLastKept(parse: Parser, obs: seq<Row>) returns (k: nat)
    requires obs != [] && Increasing(obs)
    ensures LastKept(parse, obs, k) && Latest(Log(parse, obs)) == Some(obs[k])
  {
    var n := |obs| - 1;
    NewestStep(parse, obs);
    if Kept(parse, obs, n) {
      k := n;
    } else {
      IncreasingPrefix(obs, n);
      k := NewestIsLastKept(parse, obs[..n]);
      LastKeptStays(parse, obs, k);
    }
  }

  lemma LastKeptStays(parse: Parser, obs: seq<Row>, k: nat)
    requires obs != [] && LastKept(parse, obs[..|obs| - 1], k) && !Kept(parse, obs, |obs| - 1)
    ensures LastKept(parse, obs, k)
  {
    var n := |obs| - 1;
    KeptInPrefix(parse, obs, n, k);
    forall j | k < j < n ensures !Kept(parse, obs, j) {
      KeptInPrefix(parse, obs, n, j);
    }
  }

  /** What the repository returns for an instrument whose observations the collector stored. */
  ghost predicate LatestFunding(parse: Parser, obs: seq<Row>, f: Option<FundingRecord>) {
    match Latest(Log(parse, obs))
    case None => f.None?
    case Some(row) => f.Some? && f.value.fundingRate == row.rate && f.value.observedAt == row.at
  }

  /** Some observation of the last fifteen minutes was stored. */
  ghost predicate RecentlyKept(parse: Parser, obs: seq<Row>, now: int) {
    exists k :: 0 <= k < |obs| && now - obs[k].at <= 900_000_000_000 && Kept(parse, obs, k)
  }

  /** Being read is not enough: a record is fresh exactly when an observation of the last fifteen minutes was stored. */
  lemma FreshIffRecentlyKept(parse: Parser, obs: seq<Row>, f: Option<FundingRecord>, now: int)
    requires Increasing(obs) && LatestFunding(parse, obs, f)
    ensures f.Some? && !IsStale(f.value, now) <==> RecentlyKept(parse, obs, now)
  {
    if obs == [] {
      assert Log(parse, obs) == [];
    } else {
      var k := NewestIsLastKept(parse, obs);
      if RecentlyKept(parse, obs, now) {
        var j :| 0 <= j < |obs| && now - obs[j].at <= 900_000_000_000 && Kept(parse, obs, j);
        assert j <= k;
      }
    }
  }

  /** Collector and service together: without stale data asked for, a token is built exactly when both venues stored an
      observation within the last fifteen minutes. */
  lemma TokenIffBothRecentlyKept(
    parse: Parser, id: Uuid, vA: VenueInstrument, vB: VenueInstrument, obsA: seq<Row>, obsB: seq<Row>,
    fA: Option<FundingRecord>, fB: Option<FundingRecord>, now: int)
    requires Increasing(obsA) && Increasing(obsB) && Usable(fA) && Usable(fB)
    requires LatestFunding(parse, obsA, fA) && LatestFunding(parse, obsB, fB)
    ensures BuildArbitrageToken(id, vA, vB, fA, fB, now, false).Some?
      <==> RecentlyKept(parse, obsA, now) && RecentlyKept(parse, obsB, now)
  {
    FreshIffRecentlyKept(parse, obsA, fA, now);
    FreshIffRecentlyKept(parse, obsB, fB, now);
  }

  /** The rate has not changed since the k-th observation, which was stored, and the heartbeat has not come. */
  ghost predicate SteadySince(parse: Parser, obs: seq<Row>, k: nat) {
    && k < |obs| && Kept(parse, obs, k) && obs[k].rate != "" && obs[|obs| - 1].at < obs[k].at + 3_600_000_000_000
    && forall j :: k < j < |obs| ==> SameNumber(parse, obs[j - 1].rate, obs[j].rate)
  }

  lemma SteadyPrefix(parse: Parser, obs: seq<Row>, n: nat, k: nat)
    requires Increasing(obs) && SteadySince(parse, obs, k) && k < n <= |obs|
    ensures Increasing(obs[..n]) && SteadySince(parse, obs[..n], k)
  {
    KeptInPrefix(parse, obs, n, k);
    assert n < |obs| ==> obs[n - 1].at < obs[|obs| - 1].at;
  }

  lemma {:induction false} SteadyKeepsNothing(parse: Parser, obs: seq<Row>, k: nat)
    requires Increasing(obs) && SteadySince(parse, obs, k)
    ensures Latest(Log(parse, obs)) == Some(obs[k])
  {
    var n := |obs| - 1;
    NewestStep(parse, obs);
    if k < n {
      SteadyPrefix(parse, obs, n, k);
      SteadyKeepsNothing(parse, obs[..n], k);
    }
  }

  /** However often a venue with a steady rate is read, from fifteen minutes after the last stored row its record is
      stale, until the heartbeat an hour after that row. */
  lemma SteadyGoesStale(parse: Parser, obs: seq<Row>, k: nat, f: Option<FundingRecord>, now: int)
    requires Increasing(obs) && SteadySince(parse, obs, k) && LatestFunding(parse, obs, f)
    ensures f.Some? && (IsStale(f.value, now) <==> now - obs[k].at > 900_000_000_000)
  {
    SteadyKeepsNothing(parse, obs, k);
  }

  lemma TwoReadings(parse: Parser, first: Row, second: Row)
    requires first.rate != "" && SameNumber(parse, first.rate, second.rate)
    requires first.at < second.at < first.at + 3_600_000_000_000
    ensures Increasing([first, second]) && SteadySince(parse, [first, second], 0)
  {
    assert Kept(parse, [first, second], 0);
  }

  const MINUTE: int := 60_000_000_000

  /** Read at minute 0 and at minute 16 with the same rate, and stale at that very moment. */
  lemma SteadyVenueIsStale(parse: Parser, rate: string, f: Option<FundingRecord>)
    requires rate != "" && parse(rate).Some?
    requires LatestFunding(parse, [Row(rate, 0), Row(rate, 16 * MINUTE)], f)
    ensures f.Some? && IsStale(f.value, 16 * MINUTE)
  {
    TwoReadings(parse, Row(rate, 0), Row(rate, 16 * MINUTE));
    SteadyGoesStale(parse, [Row(rate, 0), Row(rate, 16 * MINUTE)], 0, f, 16 * MINUTE);
  }
}
