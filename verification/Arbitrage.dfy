/** The funding-arbitrage token of one instrument on two venues, and its economics. */
module Arbitrage {
  import opened Basics
  import opened DecimalText

  /** Venue and instrument ids are 36-character texts. */
  type Uuid = s: string | |s| == 36 witness "00000000-0000-0000-0000-000000000000"

  /** 15 minutes in nanoseconds. */
  const STALE_THRESHOLD: int := 900_000_000_000

  datatype VenueInstrument = VenueInstrument(
    venueId: Uuid, venueCode: string, venueName: string, instrumentId: Uuid, baseAsset: string, venueSymbol: string)

  datatype FundingRecord = FundingRecord(
    observedAt: int, fundingRate: string, intervalSeconds: int,
    markPrice: string, indexPrice: string, openInterest: string)

  /** What a token repeats from one venue. */
  datatype Side = Side(symbol: string, fundingRate: string, intervalSeconds: int, observedAt: int, oi: string)

  datatype Token = Token(
    instrumentId: Uuid, symbol: string, a: Side, b: Side, longVenueId: Uuid, shortVenueId: Uuid,
    rate1hPercent: Option<real>, rate8hPercent: Option<real>, aprPercent: Option<real>,
    priceSpreadPercent: Option<real>, fundingAvailable: bool, isStale: bool)

  /** The interval the rate is divided by is not zero. */
  predicate Usable(f: Option<FundingRecord>) {
    f.Some? ==> f.value.intervalSeconds != 0
  }

  function Hourly(f: FundingRecord): real
    requires f.intervalSeconds != 0
  {
    Denoted(f.fundingRate) * 3600.0 / f.intervalSeconds as real
  }

  function Abs(x: real): real {
    if x < 0.0 then -x else x
  }

  function Min(x: real, y: real): real {
    if x < y then x else y
  }

  function PriceSpread(markA: real, markB: real): Option<real> {
    if markA > 0.0 && markB > 0.0 then Some(Abs(markA - markB) / Min(markA, markB) * 100.0) else None
  }

  predicate IsStale(f: FundingRecord, now: int) {
    now - f.observedAt > STALE_THRESHOLD
  }

  function SideOf(v: VenueInstrument, f: FundingRecord): Side {
    Side(v.venueSymbol, f.fundingRate, f.intervalSeconds, f.observedAt, f.openInterest)
  }

  /** The token from the two hourly rates: long the venue with the lower one, short the other. */
  function TokenFrom(
    instrumentId: Uuid, vA: VenueInstrument, vB: VenueInstrument, fA: FundingRecord, fB: FundingRecord,
    hourlyA: real, hourlyB: real, spread: Option<real>, stale: bool): Token
  {
    var aIsLong := hourlyA < hourlyB;
    var netHourly := if aIsLong then hourlyB - hourlyA else hourlyA - hourlyB;
    Token(
      instrumentId, vA.baseAsset + "-PERP", SideOf(vA, fA), SideOf(vB, fB),
      if aIsLong then vA.venueId else vB.venueId,
      if aIsLong then vB.venueId else vA.venueId,
      Some(netHourly * 100.0), Some(netHourly * 8.0 * 100.0), Some(netHourly * 24.0 * 365.0 * 100.0),
      spread, true, stale)
  }

  /** None when funding is missing on a venue, or is stale and stale data was not asked for. */
  function BuildArbitrageToken(
    instrumentId: Uuid, vA: VenueInstrument, vB: VenueInstrument,
    fundingA: Option<FundingRecord>, fundingB: Option<FundingRecord>, now: int, includeStale: bool): Option<Token>
    requires Usable(fundingA) && Usable(fundingB)
  {
    if fundingA.None? || fundingB.None? then None
    else
      var fA, fB := fundingA.value, fundingB.value;
      var stale := IsStale(fA, now) || IsStale(fB, now);
      if stale && !includeStale then None
      else
        Some(TokenFrom(
          instrumentId, vA, vB, fA, fB, Hourly(fA), Hourly(fB),
          PriceSpread(Denoted(fA.markPrice), Denoted(fB.markPrice)), stale))
  }

  // ---- properties ----

  lemma SpreadIsSymmetric(a: real, b: real)
    ensures PriceSpread(a, b) == PriceSpread(b, a)
  {
    assert Abs(a - b) == Abs(b - a) && Min(a, b) == Min(b, a);
  }

  lemma QuotientSign(x: real, y: real)
    requires x >= 0.0 && y > 0.0
    ensures x / y * 100.0 >= 0.0
  {
    assert x / y >= 0.0;
  }

  lemma SpreadIsNonNegative(a: real, b: real)
    ensures PriceSpread(a, b).Some? ==> PriceSpread(a, b).value >= 0.0
  {
    if a > 0.0 && b > 0.0 {
      QuotientSign(Abs(a - b), Min(a, b));
    }
  }

  lemma ScaleOver(m: real, d: real)
    requires m > 0.0
    ensures m * (1.0 + d / m * 100.0 / 100.0) == m + d
  {
    var q := d / m;
    assert m * q == d;
    assert m * (1.0 + q) == m + m * q;
  }

  /** A spread of s percent puts the higher price s percent above the lower; it is missing exactly when a price
      is not positive. */
  lemma SpreadIsPercentAboveLower(a: real, b: real)
    ensures PriceSpread(a, b).Some? <==> a > 0.0 && b > 0.0
    ensures PriceSpread(a, b).Some? ==>
      (if a < b then b else a) == Min(a, b) * (1.0 + PriceSpread(a, b).value / 100.0)
  {
    if a > 0.0 && b > 0.0 {
      ScaleOver(Min(a, b), Abs(a - b));
    }
  }

  /** The part of a token that does not say which venue was called A. */
  datatype Economics = Economics(
    rate1hPercent: Option<real>, rate8hPercent: Option<real>, aprPercent: Option<real>,
    priceSpreadPercent: Option<real>, fundingAvailable: bool, isStale: bool)

  function EconomicsOf(t: Token): Economics {
    Economics(t.rate1hPercent, t.rate8hPercent, t.aprPercent, t.priceSpreadPercent, t.fundingAvailable, t.isStale)
  }

  /** The same token seen from the other side; long and short agree exactly when the hourly rates differ. */
  ghost predicate Mirrors(t: Token, u: Token, hourlyA: real, hourlyB: real) {
    && EconomicsOf(t) == EconomicsOf(u)
    && t.a == u.b && t.b == u.a
    && ((t.longVenueId == u.longVenueId && t.shortVenueId == u.shortVenueId) <==> hourlyA != hourlyB)
  }

  lemma TokensFromMirror(
    id: Uuid, vA: VenueInstrument, vB: VenueInstrument, fA: FundingRecord, fB: FundingRecord,
    hourlyA: real, hourlyB: real, spread: Option<real>, stale: bool)
    requires vA.venueId != vB.venueId
    ensures Mirrors(
      TokenFrom(id, vA, vB, fA, fB, hourlyA, hourlyB, spread, stale),
      TokenFrom(id, vB, vA, fB, fA, hourlyB, hourlyA, spread, stale), hourlyA, hourlyB)
  {
  }

  /** Swapping the venues changes no economics, and names the same long and short venue exactly when the
      hourly rates differ. */
  lemma OrientationFree(
    id: Uuid, vA: VenueInstrument, vB: VenueInstrument,
    fA: Option<FundingRecord>, fB: Option<FundingRecord>, now: int, includeStale: bool)
    requires Usable(fA) && Usable(fB) && vA.venueId != vB.venueId
    ensures var t := BuildArbitrageToken(id, vA, vB, fA, fB, now, includeStale);
      var u := BuildArbitrageToken(id, vB, vA, fB, fA, now, includeStale);
      && t.Some? == u.Some?
      && (t.Some? ==> Mirrors(t.value, u.value, Hourly(fA.value), Hourly(fB.value)))
  {
    if fA.Some? && fB.Some? {
      var markA, markB := Denoted(fA.value.markPrice), Denoted(fB.value.markPrice);
      SpreadIsSymmetric(markA, markB);
      TokensFromMirror(id, vA, vB, fA.value, fB.value, Hourly(fA.value), Hourly(fB.value),
                       PriceSpread(markA, markB), IsStale(fA.value, now) || IsStale(fB.value, now));
    }
  }

  /** What holds of every token the service builds. */
  ghost predicate Built(t: Token) {
    && t.rate1hPercent.Some? && t.rate1hPercent.value >= 0.0
    && t.rate8hPercent == Some(t.rate1hPercent.value * 8.0)
    && t.aprPercent == Some(t.rate1hPercent.value * 8760.0)
    && (t.priceSpreadPercent.Some? ==> t.priceSpreadPercent.value >= 0.0)
  }

  lemma TokensFromAreBuilt(
    id: Uuid, vA: VenueInstrument, vB: VenueInstrument, fA: FundingRecord, fB: FundingRecord,
    hourlyA: real, hourlyB: real, spread: Option<real>, stale: bool)
    requires spread.Some? ==> spread.value >= 0.0
    ensures Built(TokenFrom(id, vA, vB, fA, fB, hourlyA, hourlyB, spread, stale))
  {
  }

  /** Every rate and spread built is non-negative, and the 8-hour and yearly figures are the hourly one over
      longer spans. */
  lemma BuiltTokens(
    id: Uuid, vA: VenueInstrument, vB: VenueInstrument,
    fA: Option<FundingRecord>, fB: Option<FundingRecord>, now: int, includeStale: bool)
    requires Usable(fA) && Usable(fB)
    ensures var t := BuildArbitrageToken(id, vA, vB, fA, fB, now, includeStale); t.Some? ==> Built(t.value)
  {
    if fA.Some? && fB.Some? {
      var markA, markB := Denoted(fA.value.markPrice), Denoted(fB.value.markPrice);
      SpreadIsNonNegative(markA, markB);
      TokensFromAreBuilt(id, vA, vB, fA.value, fB.value, Hourly(fA.value), Hourly(fB.value),
                         PriceSpread(markA, markB), IsStale(fA.value, now) || IsStale(fB.value, now));
    }
  }

  lemma OverInterval(rate: real, interval: real) returns (hourly: real)
    requires interval > 0.0
    ensures hourly == rate * 3600.0 / interval && hourly * interval == 3600.0 * rate
  {
    hourly := rate * 3600.0 / interval;
  }

  /** x per p seconds against y per q seconds. */
  lemma CrossMultiplied(x: real, p: real, y: real, q: real, hx: real, hy: real)
    requires p > 0.0 && q > 0.0 && hx * p == 3600.0 * x && hy * q == 3600.0 * y
    ensures (hy - hx) * (p * q) == 3600.0 * (y * p - x * q)
    ensures hx < hy <==> x * q < y * p
  {
    assert hy * (p * q) == (hy * q) * p == 3600.0 * y * p;
    assert hx * (p * q) == (hx * p) * q == 3600.0 * x * q;
    var d, m := hy - hx, p * q;
    assert m > 0.0 && d * m == hy * m - hx * m;
    assert d > 0.0 ==> d * m > 0.0;
    assert d <= 0.0 ==> d * m <= 0.0;
  }

  lemma Hundredfold(net: real, m: real, d: real)
    requires net * m == 3600.0 * d
    ensures net * 100.0 * m == 360000.0 * d
  {
    assert net * 100.0 * m == 100.0 * (net * m);
  }

  lemma LongIsLower(
    id: Uuid, vA: VenueInstrument, vB: VenueInstrument, fA: FundingRecord, fB: FundingRecord,
    hourlyA: real, hourlyB: real, spread: Option<real>, stale: bool)
    requires vA.venueId != vB.venueId
    ensures var t := TokenFrom(id, vA, vB, fA, fB, hourlyA, hourlyB, spread, stale);
      && (t.longVenueId, t.shortVenueId)
         == (if hourlyA < hourlyB then (vA.venueId, vB.venueId) else (vB.venueId, vA.venueId))
      && t.rate1hPercent == Some((if hourlyA < hourlyB then hourlyB - hourlyA else hourlyA - hourlyB) * 100.0)
  {
  }

  lemma NetInNumbers(x: real, p: real, y: real, q: real, hx: real, hy: real)
    requires p > 0.0 && q > 0.0 && hx * p == 3600.0 * x && hy * q == 3600.0 * y
    ensures hx < hy <==> x * q < y * p
    ensures (if hx < hy then hy - hx else hx - hy) * 100.0 * (p * q)
      == 360000.0 * (if x * q < y * p then y * p - x * q else x * q - y * p)
  {
    CrossMultiplied(x, p, y, q, hx, hy);
    Hundredfold(hy - hx, p * q, y * p - x * q);
    assert (hx - hy) * (p * q) == -((hy - hx) * (p * q));
    Hundredfold(hx - hy, p * q, x * q - y * p);
  }

  /** With rates of x per p seconds on venue a and y per q seconds on venue b: long the one that pays less per second,
      short the other. */
  ghost function LongAndShort(a: Uuid, b: Uuid, x: real, p: real, y: real, q: real): (Uuid, Uuid) {
    if x * q < y * p then (a, b) else (b, a)
  }

  /** The two rates are this far apart: the difference in percent per hour, times p and q. */
  ghost function Distance(x: real, p: real, y: real, q: real): real {
    360000.0 * Abs(x * q - y * p)
  }

  ghost function TimesBoth(rate: real, p: real, q: real): real {
    rate * (p * q)
  }

  lemma NetFromStored(x: real, p: real, y: real, q: real)
    requires p > 0.0 && q > 0.0
    ensures var hx, hy := x * 3600.0 / p, y * 3600.0 / q;
      && (hx < hy <==> x * q < y * p)
      && TimesBoth((if hx < hy then hy - hx else hx - hy) * 100.0, p, q) == Distance(x, p, y, q)
  {
    var hx := OverInterval(x, p);
    var hy := OverInterval(y, q);
    NetInNumbers(x, p, y, q, hx, hy);
  }

  lemma TokensFromStored(
    id: Uuid, vA: VenueInstrument, vB: VenueInstrument, fA: FundingRecord, fB: FundingRecord,
    spread: Option<real>, stale: bool, x: real, p: real, y: real, q: real)
    requires p > 0.0 && q > 0.0 && vA.venueId != vB.venueId
    ensures var t := TokenFrom(id, vA, vB, fA, fB, x * 3600.0 / p, y * 3600.0 / q, spread, stale);
      && (t.longVenueId, t.shortVenueId) == LongAndShort(vA.venueId, vB.venueId, x, p, y, q)
      && t.rate1hPercent.Some? && TimesBoth(t.rate1hPercent.value, p, q) == Distance(x, p, y, q)
  {
    NetFromStored(x, p, y, q);
    LongIsLower(id, vA, vB, fA, fB, x * 3600.0 / p, y * 3600.0 / q, spread, stale);
  }

  /** Every token, in terms of the rates and intervals as they were stored. */
  lemma TokenInNumbers(
    id: Uuid, vA: VenueInstrument, vB: VenueInstrument,
    fA: FundingRecord, fB: FundingRecord, now: int, includeStale: bool, t: Token)
    requires fA.intervalSeconds > 0 && fB.intervalSeconds > 0 && vA.venueId != vB.venueId
    requires BuildArbitrageToken(id, vA, vB, Some(fA), Some(fB), now, includeStale) == Some(t)
    ensures var x, p := Denoted(fA.fundingRate), fA.intervalSeconds as real;
      var y, q := Denoted(fB.fundingRate), fB.intervalSeconds as real;
      && (t.longVenueId, t.shortVenueId) == LongAndShort(vA.venueId, vB.venueId, x, p, y, q)
      && t.rate1hPercent.Some? && TimesBoth(t.rate1hPercent.value, p, q) == Distance(x, p, y, q)
  {
    var spread := PriceSpread(Denoted(fA.markPrice), Denoted(fB.markPrice));
    TokensFromStored(
      id, vA, vB, fA, fB, spread, IsStale(fA, now) || IsStale(fB, now),
      Denoted(fA.fundingRate), fA.intervalSeconds as real, Denoted(fB.fundingRate), fB.intervalSeconds as real);
  }

  /** What a token repeats: side a from venue A and its record, side b from venue B and its record, the asset as its
      symbol, whether either record is stale, and the spread of the two mark prices. */
  lemma TokenRepeats(
    id: Uuid, vA: VenueInstrument, vB: VenueInstrument,
    fA: Option<FundingRecord>, fB: Option<FundingRecord>, now: int, includeStale: bool)
    requires Usable(fA) && Usable(fB) && BuildArbitrageToken(id, vA, vB, fA, fB, now, includeStale).Some?
    ensures var t := BuildArbitrageToken(id, vA, vB, fA, fB, now, includeStale).value;
      && fA.Some? && fB.Some?
      && t.instrumentId == id && t.symbol == vA.baseAsset + "-PERP" && t.fundingAvailable
      && t.a.symbol == vA.venueSymbol && t.a.fundingRate == fA.value.fundingRate
      && t.a.intervalSeconds == fA.value.intervalSeconds && t.a.observedAt == fA.value.observedAt
      && t.a.oi == fA.value.openInterest
      && t.b.symbol == vB.venueSymbol && t.b.fundingRate == fB.value.fundingRate
      && t.b.intervalSeconds == fB.value.intervalSeconds && t.b.observedAt == fB.value.observedAt
      && t.b.oi == fB.value.openInterest
      && (t.isStale <==> now - fA.value.observedAt > 900_000_000_000 || now - fB.value.observedAt > 900_000_000_000)
      && t.priceSpreadPercent == PriceSpread(Denoted(fA.value.markPrice), Denoted(fB.value.markPrice))
  {
  }

  /** The rate advertised is the short venue's hourly rate less the long venue's. */
  ghost predicate NetIsShort(t: Token, a: Uuid, b: Uuid, hourlyA: real, hourlyB: real) {
    && {t.longVenueId, t.shortVenueId} == {a, b}
    && var long := if t.longVenueId == a then hourlyA else hourlyB;
    && var short := if t.shortVenueId == a then hourlyA else hourlyB;
    && t.rate1hPercent == Some((short - long) * 100.0) && short >= long
  }

  lemma TokensFromNetShort(
    id: Uuid, vA: VenueInstrument, vB: VenueInstrument, fA: FundingRecord, fB: FundingRecord,
    hourlyA: real, hourlyB: real, spread: Option<real>, stale: bool)
    requires vA.venueId != vB.venueId
    ensures NetIsShort(
      TokenFrom(id, vA, vB, fA, fB, hourlyA, hourlyB, spread, stale), vA.venueId, vB.venueId, hourlyA, hourlyB)
  {
  }

  /** A token is built exactly when both venues have funding that is recent or asked for all the same; its net rate
      is then short minus long, and never negative. */
  lemma NetIsShortMinusLong(
    id: Uuid, vA: VenueInstrument, vB: VenueInstrument,
    fA: Option<FundingRecord>, fB: Option<FundingRecord>, now: int, includeStale: bool)
    requires Usable(fA) && Usable(fB) && vA.venueId != vB.venueId
    ensures var t := BuildArbitrageToken(id, vA, vB, fA, fB, now, includeStale);
      && (t.Some? <==>
            fA.Some? && fB.Some?
            && (includeStale
                || (now - fA.value.observedAt <= 900_000_000_000 && now - fB.value.observedAt <= 900_000_000_000)))
      && (t.Some? ==> NetIsShort(t.value, vA.venueId, vB.venueId, Hourly(fA.value), Hourly(fB.value)))
  {
    if fA.Some? && fB.Some? {
      TokensFromNetShort(id, vA, vB, fA.value, fB.value, Hourly(fA.value), Hourly(fB.value),
                         PriceSpread(Denoted(fA.value.markPrice), Denoted(fB.value.markPrice)),
                         IsStale(fA.value, now) || IsStale(fB.value, now));
    }
  }
}
