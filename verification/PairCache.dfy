/** The per-pair token cache: a text-keyed map that behaves as a map from unordered venue pairs. */
module PairCache {
  import opened Basics
  import opened Arbitrage

  /** Nanoseconds. */
  const DEFAULT_TTL: int := 30_000_000_000
  const MAX_STALE_DURATION: int := 120_000_000_000

  datatype CachedPair = CachedPair(tokens: seq<Token>, updatedAt: int)

  // ---- keys ----

  /** Lexicographic order of texts. */
  predicate LexLess(a: string, b: string) {
    b != "" && (a == "" || a[0] < b[0] || (a[0] == b[0] && LexLess(a[1..], b[1..])))
  }

  lemma {:induction false} LexTotal(a: string, b: string)
    ensures a == b || LexLess(a, b) || LexLess(b, a)
    ensures !(LexLess(a, b) && LexLess(b, a))
  {
    if a != "" && b != "" {
      LexTotal(a[1..], b[1..]);
      assert a == [a[0]] + a[1..] && b == [b[0]] + b[1..];
    }
  }

  function MakeKey(venueA: Uuid, venueB: Uuid): string {
    if LexLess(venueB, venueA) then venueB + ":" + venueA else venueA + ":" + venueB
  }

  lemma KeyParts(a: Uuid, b: Uuid)
    ensures |MakeKey(a, b)| == 73
    ensures {MakeKey(a, b)[..36], MakeKey(a, b)[37..]} == {a, b}
    ensures !LexLess(MakeKey(a, b)[37..], MakeKey(a, b)[..36])
  {
    LexTotal(a, b);
    assert (a + ":" + b)[..36] == a && (a + ":" + b)[37..] == b;
    assert (b + ":" + a)[..36] == b && (b + ":" + a)[37..] == a;
  }

  /** Keys are equal exactly for the same unordered pair. */
  lemma KeyIdentifiesPair(a: Uuid, b: Uuid, c: Uuid, d: Uuid)
    ensures MakeKey(a, b) == MakeKey(c, d) <==> {a, b} == {c, d}
  {
    KeyParts(a, b);
    KeyParts(c, d);
    LexTotal(a, b);
    if {a, b} == {c, d} {
      assert (a == c && b == d) || (a == d && b == c);
    }
  }

  // ---- the cache ----

  predicate IsKey(k: string) {
    |k| == 73 && var a: Uuid := k[..36]; var b: Uuid := k[37..]; k == MakeKey(a, b)
  }

  lemma MadeKeysAreKeys(a: Uuid, b: Uuid)
    ensures IsKey(MakeKey(a, b))
  {
    KeyParts(a, b);
    var x: Uuid, y: Uuid := MakeKey(a, b)[..36], MakeKey(a, b)[37..];
    KeyIdentifiesPair(x, y, a, b);
  }

  ghost function Entry(data: map<string, CachedPair>, a: Uuid, b: Uuid): Option<CachedPair> {
    if MakeKey(a, b) in data then Some(data[MakeKey(a, b)]) else None
  }

  predicate Mentions(k: string, venue: Uuid) {
    |k| > 36 && (k[..36] == venue || k[37..] == venue)
  }

  lemma MentionsIff(a: Uuid, b: Uuid, venue: Uuid)
    ensures Mentions(MakeKey(a, b), venue) <==> venue in {a, b}
  {
    KeyParts(a, b);
    assert venue in {MakeKey(a, b)[..36], MakeKey(a, b)[37..]} <==> venue in {a, b};
  }

  /** An entry is handed out while fresh by the first clock reading, or usable by the second. */
  predicate Served(entry: Option<CachedPair>, ttl: int, first: int, second: int) {
    && entry.Some?
    && (first - entry.value.updatedAt <= ttl || second - entry.value.updatedAt <= MAX_STALE_DURATION)
  }

  /** Nothing older than the longer of the two limits is ever handed out. */
  lemma ServedIsRecent(entry: Option<CachedPair>, ttl: int, first: int, second: int)
    requires Served(entry, ttl, first, second) && first <= second
    ensures first - entry.value.updatedAt <= if ttl > 120_000_000_000 then ttl else 120_000_000_000
  {
  }

  /** The cache seen as a map from unordered pairs. */
  ghost predicate SetsOnly(
    before: map<string, CachedPair>, after: map<string, CachedPair>, a: Uuid, b: Uuid, entry: CachedPair)
  {
    forall c: Uuid, d: Uuid :: Entry(after, c, d) == (if {c, d} == {a, b} then Some(entry) else Entry(before, c, d))
  }

  ghost predicate RemovesOnly(before: map<string, CachedPair>, after: map<string, CachedPair>, venue: Uuid) {
    forall c: Uuid, d: Uuid :: Entry(after, c, d) == (if venue in {c, d} then None else Entry(before, c, d))
  }

  class Cache {
    var data: map<string, CachedPair>
    const ttl: int

    ghost predicate Valid()
      reads this
    {
      forall k :: k in data ==> IsKey(k)
    }

    constructor (ttl: int)
      ensures Valid() && data == map[]
      ensures this.ttl == if ttl == 0 then 30_000_000_000 else ttl
    {
      this.ttl := if ttl == 0 then DEFAULT_TTL else ttl;
      data := map[];
    }

    /** The clock is read once for each of the two age checks. */
    method Get(venueA: Uuid, venueB: Uuid, first: int, second: int) returns (tokens: seq<Token>, ok: bool)
      ensures ok <==> Served(Entry(data, venueA, venueB), ttl, first, second)
      ensures ok <==>
        && Entry(data, venueA, venueB).Some?
        && var written := Entry(data, venueA, venueB).value.updatedAt;
        first - written <= ttl || second - written <= 120_000_000_000
      ensures tokens == if ok then Entry(data, venueA, venueB).value.tokens else []
    {
      var key := MakeKey(venueA, venueB);
      if key !in data {
        return [], false;
      }
      var cached := data[key];
      if first - cached.updatedAt <= ttl {
        return cached.tokens, true;
      }
      if second - cached.updatedAt <= MAX_STALE_DURATION {
        return cached.tokens, true;
      }
      return [], false;
    }

    method Set(venueA: Uuid, venueB: Uuid, tokens: seq<Token>, now: int)
      requires Valid()
      modifies this
      ensures Valid()
      ensures SetsOnly(old(data), data, venueA, venueB, CachedPair(tokens, now))
      ensures data - {MakeKey(venueA, venueB)} == old(data) - {MakeKey(venueA, venueB)}
    {
      var key := MakeKey(venueA, venueB);
      MadeKeysAreKeys(venueA, venueB);
      data := data[key := CachedPair(tokens, now)];
      forall c: Uuid, d: Uuid ensures MakeKey(c, d) == key <==> {c, d} == {venueA, venueB} {
        KeyIdentifiesPair(c, d, venueA, venueB);
      }
    }

    /** Removes exactly the pairs that contain the venue. */
    method Invalidate(venue: Uuid)
      requires Valid()
      modifies this
      ensures Valid()
      ensures RemovesOnly(old(data), data, venue)
    {
      var left := data.Keys;
      while left != {}
        invariant left <= data.Keys <= old(data).Keys
        invariant forall k :: k in data ==> data[k] == old(data)[k]
        invariant forall k :: k in old(data) ==> (k in data <==> k in left || !Mentions(k, venue))
        decreases |left|
      {
        var key :| key in left;
        left := left - {key};
        if |key| > 36 {
          var a, b := key[..36], key[37..];
          if a == venue || b == venue {
            data := data - {key};
          }
        }
      }
      forall c: Uuid, d: Uuid ensures Mentions(MakeKey(c, d), venue) <==> venue in {c, d} {
        MentionsIff(c, d, venue);
      }
    }
  }
}
