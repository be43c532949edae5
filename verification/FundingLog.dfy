/** Store-on-change: funding observations kept as a compressed log that still answers every lookup. */
module FundingLog {
  import opened Basics

  /** Nanoseconds, as in the program's durations. */
  const FUNDING_HEARTBEAT: int := 3_600_000_000_000

  /** A reading of one venue instrument, and the row stored for it. */
  datatype Row = Row(rate: string, at: int)

  /** Text to number; None stands for a rate that does not parse, which compares unequal to everything. */
  type Parser = string -> Option<real>

  predicate SameRate(parse: Parser, a: string, b: string) {
    parse(a).Some? && parse(a) == parse(b)
  }

  predicate ShouldStoreFunding(
    parse: Parser, hasLast: bool, lastRate: string, newRate: string, lastAt: int, now: int)
  {
    !hasLast || !SameRate(parse, lastRate, newRate) || now >= lastAt + FUNDING_HEARTBEAT
  }

  /** The row a query ordered by time, newest first, returns; the later insertion among equals. */
  function Latest(rows: seq<Row>): Option<Row> {
    if rows == [] then None
    else
      var earlier := Latest(rows[..|rows| - 1]);
      var last := rows[|rows| - 1];
      if earlier.Some? && earlier.value.at > last.at then earlier else Some(last)
  }

  function LastRate(rows: seq<Row>): (string, int) {
    match Latest(rows)
    case None => ("", 0)
    case Some(row) => (row.rate, row.at)
  }

  function Stored(parse: Parser, rows: seq<Row>, obs: Row): seq<Row> {
    var (lastRate, lastAt) := LastRate(rows);
    if ShouldStoreFunding(parse, lastRate != "", lastRate, obs.rate, lastAt, obs.at) then rows + [obs] else rows
  }

  /** The log after observing everything in order. */
  function Log(parse: Parser, obs: seq<Row>): seq<Row> {
    if obs == [] then [] else Stored(parse, Log(parse, obs[..|obs| - 1]), obs[|obs| - 1])
  }

  /** The log after observing more, on top of rows already stored. */
  function Extended(parse: Parser, rows: seq<Row>, obs: seq<Row>): seq<Row> {
    if obs == [] then rows else Stored(parse, Extended(parse, rows, obs[..|obs| - 1]), obs[|obs| - 1])
  }

  lemma LogAdds(parse: Parser, obs: seq<Row>, next: Row, log: seq<Row>)
    requires log == Log(parse, obs)
    ensures Log(parse, obs + [next]) == Stored(parse, log, next)
  {
    assert (obs + [next])[..|obs|] == obs;
  }

  lemma ExtendedAdds(parse: Parser, rows: seq<Row>, obs: seq<Row>, next: Row, log: seq<Row>)
    requires log == Extended(parse, rows, obs)
    ensures Extended(parse, rows, obs + [next]) == Stored(parse, log, next)
  {
    assert (obs + [next])[..|obs|] == obs;
  }

  /** Observing b in a second cycle gives the log of one cycle over both. */
  ghost predicate Composes(parse: Parser, a: seq<Row>, b: seq<Row>) {
    Extended(parse, Log(parse, a), b) == Log(parse, a + b)
  }

  lemma ComposesNothing(parse: Parser, a: seq<Row>)
    ensures Composes(parse, a, [])
  {
    assert a + [] == a;
  }

  lemma Appended(a: seq<Row>, b: seq<Row>, next: Row)
    ensures a + (b + [next]) == a + b + [next]
  {
  }

  lemma ComposesOneMore(parse: Parser, a: seq<Row>, b: seq<Row>, next: Row)
    requires Composes(parse, a, b)
    ensures Composes(parse, a, b + [next])
  {
    ExtendedAdds(parse, Log(parse, a), b, next, Log(parse, a + b));
    LogAdds(parse, a + b, next, Log(parse, a + b));
    Appended(a, b, next);
  }

  /** Collection cycles compose: the log does not depend on how the observations were batched. */
  lemma {:induction false} CyclesCompose(parse: Parser, a: seq<Row>, b: seq<Row>)
    ensures Composes(parse, a, b)
  {
    if b == [] {
      ComposesNothing(parse, a);
    } else {
      var init, next := b[..|b| - 1], b[|b| - 1];
      assert b == init + [next];
      CyclesCompose(parse, a, init);
      ComposesOneMore(parse, a, init, next);
    }
  }

  // ---- the program ----

  type Instrument = (string, string)

  datatype Reading = Reading(key: Instrument, row: Row)

  /** The readings of one instrument, in order. */
  ghost function Of(batch: seq<Reading>, key: Instrument): seq<Row> {
    if batch == [] then []
    else
      var last := batch[|batch| - 1];
      Of(batch[..|batch| - 1], key) + if last.key == key then [last.row] else []
  }

  function RowsOf(table: map<Instrument, seq<Row>>, key: Instrument): seq<Row> {
    if key in table then table[key] else []
  }

  class Collector {
    /** The funding table, one append-only sequence per venue and instrument. */
    var fundingRates: map<Instrument, seq<Row>>

    constructor ()
      ensures fundingRates == map[]
    {
      fundingRates := map[];
    }

    /** Scans for the newest row of one instrument; the rate is empty when there is none. */
    method LastFundingRate(key: Instrument) returns (rate: string, at: int)
      ensures (rate, at) == LastRate(RowsOf(fundingRates, key))
    {
      var rows := RowsOf(fundingRates, key);
      var latest: Option<Row> := None;
      for i := 0 to |rows|
        invariant latest == Latest(rows[..i])
      {
        assert rows[..i + 1][..i] == rows[..i];
        if latest.None? || latest.value.at <= rows[i].at {
          latest := Some(rows[i]);
        }
      }
      assert rows[..|rows|] == rows;
      if latest.None? {
        return "", 0;
      }
      return latest.value.rate, latest.value.at;
    }

    /** The store decision: a failed lookup or a failed insert stores nothing. */
    method StoreFunding(
      parse: Parser, key: Instrument, fundingRate: string, observedAt: int, lookupOk: bool, insertOk: bool)
      returns (stored: bool)
      modifies this
      ensures var rows := old(RowsOf(fundingRates, key));
        var after := if lookupOk && insertOk then Stored(parse, rows, Row(fundingRate, observedAt)) else rows;
        && RowsOf(fundingRates, key) == after
        && stored == (after != rows)
      ensures forall other :: other != key ==> RowsOf(fundingRates, other) == RowsOf(old(fundingRates), other)
    {
      if !lookupOk {
        return false;
      }
      var lastRate, lastAt := LastFundingRate(key);
      if !ShouldStoreFunding(parse, lastRate != "", lastRate, fundingRate, lastAt, observedAt) {
        return false;
      }
      if !insertOk {
        return false;
      }
      fundingRates := fundingRates[key := RowsOf(fundingRates, key) + [Row(fundingRate, observedAt)]];
      return true;
    }

    /** One collection cycle over a venue's readings, with the database reachable. */
    method Collect(parse: Parser, batch: seq<Reading>)
      modifies this
      ensures forall key :: RowsOf(fundingRates, key) == Extended(parse, RowsOf(old(fundingRates), key), Of(batch, key))
    {
      for i := 0 to |batch|
        invariant forall key ::
          RowsOf(fundingRates, key) == Extended(parse, RowsOf(old(fundingRates), key), Of(batch[..i], key))
      {
        var r := batch[i];
        assert batch[..i + 1][..i] == batch[..i];
        assert forall key :: key != r.key ==> Of(batch[..i + 1], key) == Of(batch[..i], key);
        ghost var seen := Of(batch[..i], r.key);
        assert Of(batch[..i + 1], r.key) == seen + [r.row] && (seen + [r.row])[..|seen|] == seen;
        var ok := StoreFunding(parse, r.key, r.row.rate, r.row.at, true, true);
      }
      assert batch[..|batch|] == batch;
    }
  }

  // ---- the compressed log agrees with the full one ----

  ghost predicate Increasing(obs: seq<Row>) {
    forall i, j :: 0 <= i < j < |obs| ==> obs[i].at < obs[j].at
  }

  /** What a reader sees at time t: the rate of the newest row not after t. */
  ghost function RateAt(rows: seq<Row>, t: int): Option<string> {
    if rows == [] then None
    else if rows[|rows| - 1].at <= t then Some(rows[|rows| - 1].rate)
    else RateAt(rows[..|rows| - 1], t)
  }

  /** Both texts parse, and to the same number. */
  ghost predicate SameNumber(parse: Parser, a: string, b: string) {
    parse(a).Some? && parse(b).Some? && parse(a).value == parse(b).value
  }

  /** Two readings no reader can tell apart: the same text, or text of the same number. */
  ghost predicate Agree(parse: Parser, a: Option<string>, b: Option<string>) {
    a == b || (a.Some? && b.Some? && SameNumber(parse, a.value, b.value))
  }

  lemma {:induction false} LatestIsLast(rows: seq<Row>)
    requires rows != [] && Increasing(rows)
    ensures Latest(rows) == Some(rows[|rows| - 1])
  {
    var init := rows[..|rows| - 1];
    if init != [] {
      LatestIsLast(init);
    }
  }

  /** The log is increasing, holds only observations, and its last row repeats the rate last seen, with less than
      an hour's delay. */
  ghost predicate Follows(parse: Parser, log: seq<Row>, obs: seq<Row>) {
    && Increasing(log) && (forall r :: r in log ==> r in obs)
    && (obs != [] ==>
          && log != []
          && var last, seen := log[|log| - 1], obs[|obs| - 1];
          && seen.at - 3_600_000_000_000 < last.at <= seen.at
          && (last == seen || SameNumber(parse, last.rate, seen.rate)))
  }

  lemma EarlierRows(log: seq<Row>, obs: seq<Row>)
    requires obs != [] && Increasing(obs) && forall r :: r in log ==> r in obs[..|obs| - 1]
    ensures forall i :: 0 <= i < |log| ==> log[i].at < obs[|obs| - 1].at && log[i] in obs
  {
    forall i | 0 <= i < |log| ensures log[i].at < obs[|obs| - 1].at && log[i] in obs {
      assert log[i] in log;
      var k :| 0 <= k < |obs| - 1 && obs[..|obs| - 1][k] == log[i];
      assert obs[k] == log[i];
    }
  }

  lemma FollowsStored(parse: Parser, log: seq<Row>, obs: seq<Row>)
    requires obs != [] && Increasing(log)
    requires forall i :: 0 <= i < |log| ==> log[i].at < obs[|obs| - 1].at && log[i] in obs
    ensures Follows(parse, log + [obs[|obs| - 1]], obs)
  {
  }

  lemma FollowsSkipped(parse: Parser, log: seq<Row>, seen: Row)
    requires Stored(parse, log, seen) == log
    requires log != [] ==> Latest(log) == Some(log[|log| - 1]) && log[|log| - 1].at < seen.at
    ensures log != [] && seen.at - 3_600_000_000_000 < log[|log| - 1].at
    ensures SameNumber(parse, log[|log| - 1].rate, seen.rate)
  {
    assert log != log + [seen];
  }

  lemma StoredFollows(parse: Parser, log: seq<Row>, obs: seq<Row>)
    requires obs != [] && Increasing(obs) && Follows(parse, log, obs[..|obs| - 1])
    ensures Follows(parse, Stored(parse, log, obs[|obs| - 1]), obs)
  {
    var seen := obs[|obs| - 1];
    EarlierRows(log, obs);
    FollowsStored(parse, log, obs);
    if log != [] {
      LatestIsLast(log);
    }
    if Stored(parse, log, seen) == log {
      FollowsSkipped(parse, log, seen);
    } else {
      assert Stored(parse, log, seen) == log + [seen];
    }
  }

  lemma {:induction false} LogFollows(parse: Parser, obs: seq<Row>)
    requires Increasing(obs)
    ensures Follows(parse, Log(parse, obs), obs)
  {
    if obs != [] {
      LogFollows(parse, obs[..|obs| - 1]);
      StoredFollows(parse, Log(parse, obs[..|obs| - 1]), obs);
    }
  }

  /** Nothing is lost: at every time the compressed log shows the same rate as the full one. */
  lemma {:induction false} LookupsAgree(parse: Parser, obs: seq<Row>, t: int)
    requires Increasing(obs)
    ensures Agree(parse, RateAt(Log(parse, obs), t), RateAt(obs, t))
  {
    if obs != [] {
      LogFollows(parse, obs);
      if t < obs[|obs| - 1].at {
        var init := obs[..|obs| - 1];
        LookupsAgree(parse, init, t);
        var log := Log(parse, init);
        assert (log + [obs[|obs| - 1]])[..|log|] == log;
      }
    }
  }

  /** How often consecutive observations differ. */
  ghost function Changes(parse: Parser, obs: seq<Row>): nat {
    if |obs| <= 1 then 0
    else
      Changes(parse, obs[..|obs| - 1])
      + if SameNumber(parse, obs[|obs| - 2].rate, obs[|obs| - 1].rate) then 0 else 1
  }

  ghost predicate Parseable(parse: Parser, obs: seq<Row>) {
    forall i :: 0 <= i < |obs| ==> obs[i].rate != "" && parse(obs[i].rate).Some?
  }

  /** Every stored row beyond the first answers a change or moves the log an hour forward. */
  ghost predicate RowsPaidFor(log: seq<Row>, changes: nat, start: int) {
    log != [] && (|log| - 1 - changes) * 3_600_000_000_000 <= log[|log| - 1].at - start
  }

  lemma {:induction false} LogSizeByLastRow(parse: Parser, obs: seq<Row>)
    requires obs != [] && Increasing(obs) && Parseable(parse, obs)
    ensures RowsPaidFor(Log(parse, obs), Changes(parse, obs), obs[0].at)
  {
    var init := obs[..|obs| - 1];
    if init == [] {
      FirstRowIsFree(parse, obs);
    } else {
      LogSizeByLastRow(parse, init);
      LogFollows(parse, init);
      NextRowIsPaidFor(parse, obs, Log(parse, init));
    }
  }

  lemma FirstRowIsFree(parse: Parser, obs: seq<Row>)
    requires |obs| == 1
    ensures RowsPaidFor(Log(parse, obs), Changes(parse, obs), obs[0].at)
  {
    assert Log(parse, obs[..0]) == [];
  }

  lemma NextRowIsPaidFor(parse: Parser, obs: seq<Row>, log: seq<Row>)
    requires |obs| > 1 && Increasing(obs) && Parseable(parse, obs) && Follows(parse, log, obs[..|obs| - 1])
    requires RowsPaidFor(log, Changes(parse, obs[..|obs| - 1]), obs[0].at)
    ensures RowsPaidFor(Stored(parse, log, obs[|obs| - 1]), Changes(parse, obs), obs[0].at)
  {
    LatestIsLast(log);
    assert log[|log| - 1] in obs[..|obs| - 1];
    StoreOnlyWhenDue(parse, log, obs[|obs| - 2], obs[|obs| - 1]);
  }

  lemma StoreOnlyWhenDue(parse: Parser, log: seq<Row>, prev: Row, seen: Row)
    requires log != [] && Latest(log) == Some(log[|log| - 1])
    requires var last := log[|log| - 1];
      && last.rate != "" && (last == prev || SameNumber(parse, last.rate, prev.rate))
      && parse(prev.rate).Some? && last.at <= seen.at
    ensures Stored(parse, log, seen) == log || Stored(parse, log, seen) == log + [seen]
    ensures Stored(parse, log, seen) != log && SameNumber(parse, prev.rate, seen.rate)
      ==> log[|log| - 1].at + 3_600_000_000_000 <= seen.at
  {
  }

  /** How much is kept: the first row, one per change of rate, and one per elapsed hour. */
  lemma LogSize(parse: Parser, obs: seq<Row>)
    requires obs != [] && Increasing(obs) && Parseable(parse, obs)
    ensures |Log(parse, obs)|
      <= 1 + Changes(parse, obs) + (obs[|obs| - 1].at - obs[0].at) / 3_600_000_000_000
  {
    LogSizeByLastRow(parse, obs);
    LogFollows(parse, obs);
  }
}
