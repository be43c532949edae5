/** The admin-configured perp-dex list: validation, its stored text form, and the cached setting. */
module PerpDexes {
  import opened Basics
  import opened Text

  const MAX_PERP_DEXES: nat := 1000
  const CACHE_TTL: int := 300_000_000_000

  /** Decoding a JSON array of strings; a failed decode is None. */
  type Decoder = string -> Option<seq<string>>

  function Join(names: seq<string>): string {
    if names == [] then "" else if |names| == 1 then names[0] else names[0] + "," + Join(names[1..])
  }

  function Split(s: string): (parts: seq<string>)
    ensures |parts| >= 1
    ensures forall p :: p in parts ==> ',' !in p
  {
    if s == "" then [""]
    else
      var rest := Split(s[1..]);
      if s[0] == ',' then [""] + rest else [[s[0]] + rest[0]] + rest[1..]
  }

  /** Every entry trimmed, in order. */
  function Trimmed(names: seq<string>): (r: seq<string>)
    ensures |r| == |names| && forall i :: 0 <= i < |names| ==> r[i] == TrimSpace(names[i])
  {
    if names == [] then [] else [TrimSpace(names[0])] + Trimmed(names[1..])
  }

  /** Every entry trimmed, the empty ones dropped. */
  function Kept(names: seq<string>): seq<string> {
    if names == [] then []
    else
      Kept(names[..|names| - 1])
      + if TrimSpace(names[|names| - 1]) == "" then [] else [TrimSpace(names[|names| - 1])]
  }

  predicate ReadsAsJson(raw: string, decode: Decoder) {
    raw != "" && raw[0] == '[' && decode(raw).Some?
  }

  function Parsed(raw: string, decode: Decoder): seq<string> {
    var text := TrimSpace(raw);
    if text == "" then []
    else if ReadsAsJson(text, decode) then Kept(decode(text).value)
    else Kept(Split(text))
  }

  ghost predicate Distinct(names: seq<string>) {
    forall i, j :: 0 <= i < j < |names| ==> names[i] != names[j]
  }

  ghost predicate Clean(names: seq<string>) {
    "" !in names && Distinct(names)
  }

  /** At most a thousand names, none of them blank, no two the same once trimmed. */
  ghost predicate Valid(names: seq<string>) {
    |names| <= 1000 && Clean(Trimmed(names))
  }

  ghost predicate CommaFree(names: seq<string>) {
    forall n :: n in names ==> ',' !in n
  }

  // ---- the program ----

  method KeepTrimmed(names: seq<string>) returns (out: seq<string>)
    ensures out == Kept(names)
  {
    out := [];
    for i := 0 to |names|
      invariant out == Kept(names[..i])
    {
      assert names[..i + 1][..i] == names[..i];
      var d := TrimSpace(names[i]);
      if d != "" {
        out := out + [d];
      }
    }
    assert names[..|names|] == names;
  }

  method ParsePerpDexes(raw: string, decode: Decoder) returns (out: seq<string>)
    ensures out == Parsed(raw, decode)
  {
    var text := TrimSpace(raw);
    if text == "" {
      return [];
    }
    if text[0] == '[' {
      var arr := decode(text);
      if arr.Some? {
        out := KeepTrimmed(arr.value);
        return;
      }
    }
    out := KeepTrimmed(Split(text));
  }

  lemma CleanExtends(init: seq<string>, name: string)
    ensures Clean(init + [name]) <==> Clean(init) && name != "" && name !in init
  {
    var longer := init + [name];
    assert forall i :: 0 <= i < |init| ==> longer[i] == init[i];
    assert longer[|init|] == name;
    if Clean(longer) {
      forall i, j | 0 <= i < j < |init| ensures init[i] != init[j] {
        assert longer[i] != longer[j];
      }
      assert forall i :: 0 <= i < |init| ==> longer[i] != longer[|init|];
      assert forall i :: 0 <= i < |init| ==> init[i] in longer;
    }
  }

  lemma {:induction false} CleanPrefix(names: seq<string>, n: nat)
    requires n <= |names|
    ensures Clean(names) ==> Clean(names[..n])
    decreases |names| - n
  {
    if n == |names| {
      assert names[..n] == names;
    } else {
      CleanPrefix(names, n + 1);
      assert names[..n + 1] == names[..n] + [names[n]];
      CleanExtends(names[..n], names[n]);
    }
  }

  /** The trimmed names up to i: what the loop has seen when all of them were clean. */
  ghost function Before(names: seq<string>, i: nat): seq<string>
    requires i <= |names|
  {
    Trimmed(names)[..i]
  }

  lemma CleanStep(t: seq<string>, i: nat)
    requires i < |t|
    ensures t[..i + 1] == t[..i] + [t[i]]
    ensures Clean(t[..i + 1]) <==> Clean(t[..i]) && t[i] != "" && t[i] !in t[..i]
    ensures Clean(t) ==> Clean(t[..i + 1])
  {
    assert t[..i + 1] == t[..i] + [t[i]];
    CleanExtends(t[..i], t[i]);
    CleanPrefix(t, i + 1);
  }

  method Validate(names: seq<string>) returns (ok: bool)
    ensures ok <==> Valid(names)
  {
    if |names| > MAX_PERP_DEXES {
      return false;
    }
    var seen: set<string> := {};
    for i := 0 to |names|
      invariant forall n :: n in seen <==> n in Before(names, i)
      invariant Clean(Before(names, i))
    {
      var d := TrimSpace(names[i]);
      CleanStep(Trimmed(names), i);
      if d == "" || d in seen {
        return false;
      }
      seen := seen + {d};
    }
    assert Before(names, |names|) == Trimmed(names);
    return true;
  }

  ghost predicate AllKnown(names: seq<string>, known: Option<Option<seq<string>>>) {
    known.Some? && known.value.Some? ==> forall n :: n in names ==> TrimSpace(n) in Trimmed(known.value.value)
  }

  datatype Outcome = Stored | Invalid | FetchFailed | Unknown | WriteFailed

  /** The stored row and the cache in front of it. */
  class Settings {
    var row: Option<string>
    var cacheVal: seq<string>
    var cacheAt: Option<int>

    constructor (row: Option<string>)
      ensures this.row == row && cacheAt == None
    {
      this.row, cacheVal, cacheAt := row, ["xyz"], None;
    }

    /** `known` is the exchange's own list, when a fetcher is attached: None inside when the fetch failed. */
    method SetPerpDexes(names: seq<string>, known: Option<Option<seq<string>>>, writes: bool) returns (outcome: Outcome)
      modifies this
      ensures outcome == Invalid <==> !Valid(names)
      ensures outcome == FetchFailed <==> Valid(names) && known == Some(None)
      ensures outcome == Unknown <==> Valid(names) && known != Some(None) && !AllKnown(names, known)
      ensures outcome == WriteFailed <==> Valid(names) && known != Some(None) && AllKnown(names, known) && !writes
      ensures outcome == Stored ==> row == Some(Join(names)) && cacheAt == None
      ensures outcome != Stored ==> row == old(row) && cacheAt == old(cacheAt)
      ensures cacheVal == old(cacheVal)
    {
      var valid := Validate(names);
      if !valid {
        return Invalid;
      }
      if known.Some? {
        if known.value.None? {
          return FetchFailed;
        }
        for i := 0 to |names|
          invariant forall n :: n in names[..i] ==> TrimSpace(n) in Trimmed(known.value.value)
        {
          if TrimSpace(names[i]) !in Trimmed(known.value.value) {
            return Unknown;
          }
        }
        assert names[..|names|] == names;
      }
      if !writes {
        return WriteFailed;
      }
      row, cacheAt := Some(Join(names)), None;
      return Stored;
    }

    /** A missing row or a failed read falls back to the default list, which is cached like any other answer. */
    method GetPerpDexes(now: int, readFails: bool, decode: Decoder) returns (names: seq<string>)
      modifies this
      ensures row == old(row)
      ensures var hit := old(cacheAt).Some? && now - old(cacheAt).value < 300_000_000_000;
        && cacheAt == (if hit then old(cacheAt) else Some(now))
        && names == cacheVal
        && cacheVal == (if hit then old(cacheVal)
                        else if readFails || row.None? then ["xyz"] else Parsed(row.value, decode))
    {
      if cacheAt.Some? && now - cacheAt.value < CACHE_TTL {
        return cacheVal;
      }
      if readFails || row.None? {
        cacheVal, cacheAt := ["xyz"], Some(now);
        return cacheVal;
      }
      names := ParsePerpDexes(row.value, decode);
      cacheVal, cacheAt := names, Some(now);
    }
  }

  // ---- trimmed text ----

  lemma TrimSpaceKeepsComma(s: string)
    ensures ',' in TrimSpace(s) <==> ',' in s
  {
    var u, v := TrimSpaceTakes(s);
  }

  lemma TrimSpaceOnce(s: string)
    ensures TrimSpace(TrimSpace(s)) == TrimSpace(s)
  {
    var u, v := TrimSpaceTakes(s);
    TrimSpaceSkips(u, TrimSpace(s), v);
    TrimSpaceSkips(u, TrimSpace(s) + v, v);
    assert s == u + (TrimSpace(s) + v);
  }

  // ---- splitting ----

  /** A comma-free text in front belongs to the first part. */
  lemma {:induction false} SplitAfter(a: string, s: string)
    requires ',' !in a
    ensures Split(a + s) == [a + Split(s)[0]] + Split(s)[1..]
  {
    if a == "" {
      assert a + s == s && a + Split(s)[0] == Split(s)[0];
    } else {
      assert (a + s)[1..] == a[1..] + s;
      SplitAfter(a[1..], s);
      assert [a[0]] + (a[1..] + Split(s)[0]) == a + Split(s)[0];
    }
  }

  function WithLast(parts: seq<string>, v: string): seq<string>
    requires parts != []
  {
    parts[..|parts| - 1] + [parts[|parts| - 1] + v]
  }

  lemma WithLastAfterFirst(c: char, parts: seq<string>, v: string)
    requires parts != []
    ensures WithLast([""] + parts, v) == [""] + WithLast(parts, v)
    ensures WithLast([[c] + parts[0]] + parts[1..], v) == [[c] + WithLast(parts, v)[0]] + WithLast(parts, v)[1..]
  {
    if |parts| == 1 {
      assert [c] + (parts[0] + v) == [c] + parts[0] + v;
    }
  }

  /** A comma-free text behind belongs to the last part. */
  lemma {:induction false} SplitBefore(s: string, v: string)
    requires ',' !in v
    ensures Split(s + v) == WithLast(Split(s), v)
  {
    if s == "" {
      assert s + v == v == v + "" == "" + v;
      SplitAfter(v, "");
      assert Split("") == [""];
    } else {
      assert (s + v)[1..] == s[1..] + v && (s + v)[0] == s[0];
      SplitBefore(s[1..], v);
      WithLastAfterFirst(s[0], Split(s[1..]), v);
    }
  }

  lemma {:induction false} SplitUndoesJoin(names: seq<string>)
    requires names != [] && CommaFree(names)
    ensures Split(Join(names)) == names
  {
    SplitAfter(names[0], "");
    assert names[0] + "" == names[0];
    if |names| > 1 {
      var rest := names[1..];
      SplitUndoesJoin(rest);
      assert names[0] + "," + Join(rest) == names[0] + ("," + Join(rest));
      SplitAfter(names[0], "," + Join(rest));
      assert ("," + Join(rest))[1..] == Join(rest);
      assert Split("," + Join(rest)) == [""] + rest;
    }
  }

  // ---- trimming before splitting does not show ----

  lemma {:induction false} KeptByTrimmed(a: seq<string>, b: seq<string>)
    requires |a| == |b| && forall i :: 0 <= i < |a| ==> TrimSpace(a[i]) == TrimSpace(b[i])
    ensures Kept(a) == Kept(b)
  {
    if a != [] {
      KeptByTrimmed(a[..|a| - 1], b[..|b| - 1]);
    }
  }

  lemma KeptAfterSpace(u: string, s: string)
    requires AllSpace(u)
    ensures Kept(Split(u + s)) == Kept(Split(s))
  {
    SplitAfter(u, s);
    TrimSpaceSkips(u, Split(s)[0], "");
    KeptByTrimmed(Split(u + s), Split(s));
  }

  lemma KeptBeforeSpace(s: string, v: string)
    requires AllSpace(v)
    ensures Kept(Split(s + v)) == Kept(Split(s))
  {
    SplitBefore(s, v);
    KeptWithLast(Split(s), v);
  }

  lemma KeptWithLast(parts: seq<string>, v: string)
    requires parts != [] && AllSpace(v)
    ensures Kept(WithLast(parts, v)) == Kept(parts)
  {
    var n := |parts| - 1;
    assert WithLast(parts, v)[..n] == parts[..n];
    TrimSpaceSkips("", parts[n], v);
  }

  lemma KeptSplitTrimmed(s: string)
    ensures Kept(Split(TrimSpace(s))) == Kept(Split(s))
  {
    var u, v := TrimSpaceTakes(s);
    KeptBeforeSpace(u + TrimSpace(s), v);
    KeptAfterSpace(u, TrimSpace(s));
  }

  lemma TrimmedAdds(names: seq<string>, name: string)
    ensures Trimmed(names + [name]) == Trimmed(names) + [TrimSpace(name)]
  {
  }

  lemma {:induction false} KeptNonEmpty(names: seq<string>)
    requires forall i :: 0 <= i < |names| ==> TrimSpace(names[i]) != ""
    ensures Kept(names) == Trimmed(names)
  {
    if names != [] {
      var init, name := names[..|names| - 1], names[|names| - 1];
      KeptNonEmpty(init);
      TrimmedAdds(init, name);
      assert names == init + [name];
    }
  }

  lemma {:induction false} KeptCommaFree(names: seq<string>)
    requires CommaFree(names)
    ensures CommaFree(Kept(names))
  {
    if names != [] {
      KeptCommaFree(names[..|names| - 1]);
      TrimSpaceKeepsComma(names[|names| - 1]);
    }
  }

  // ---- counting what is not space ----

  function NonSpace(s: string): nat {
    if s == "" then 0 else (if IsSpace(s[0]) then 0 else 1) + NonSpace(s[1..])
  }

  lemma {:induction false} NonSpaceAdds(a: string, b: string)
    ensures NonSpace(a + b) == NonSpace(a) + NonSpace(b)
  {
    if a == "" {
      assert a + b == b;
    } else {
      assert (a + b)[1..] == a[1..] + b;
      NonSpaceAdds(a[1..], b);
    }
  }

  lemma {:induction false} SpaceCountsNothing(s: string)
    requires AllSpace(s)
    ensures NonSpace(s) == 0
  {
    if s != "" {
      SpaceCountsNothing(s[1..]);
    }
  }

  lemma NonSpaceTrimmed(s: string)
    ensures NonSpace(TrimSpace(s)) == NonSpace(s)
  {
    var u, v := TrimSpaceTakes(s);
    NonSpaceAdds(u + TrimSpace(s), v);
    NonSpaceAdds(u, TrimSpace(s));
    SpaceCountsNothing(u);
    SpaceCountsNothing(v);
  }

  lemma {:induction false} NonSpaceJoined(names: seq<string>)
    ensures NonSpace(Join(Trimmed(names))) == NonSpace(Join(names))
  {
    if names != [] {
      NonSpaceTrimmed(names[0]);
      if |names| > 1 {
        NonSpaceJoined(names[1..]);
        var t := Trimmed(names);
        assert t[1..] == Trimmed(names[1..]);
        NonSpaceAdds(names[0] + ",", Join(names[1..]));
        NonSpaceAdds(names[0], ",");
        NonSpaceAdds(t[0] + ",", Join(t[1..]));
        NonSpaceAdds(t[0], ",");
      }
    }
  }

  // ---- the round trip ----

  /** True of JSON: an array of strings is written with brackets, quotes and one comma between two entries, and each
      character of an entry takes at least one character, so the entries joined are shorter than the text. */
  ghost predicate Shrinks(decode: Decoder) {
    forall text :: decode(text).Some? ==> NonSpace(Join(Kept(decode(text).value))) < NonSpace(text)
  }

  lemma ParsedAsList(raw: string, decode: Decoder)
    requires !ReadsAsJson(TrimSpace(raw), decode)
    ensures Parsed(raw, decode) == Kept(Split(raw))
  {
    KeptSplitTrimmed(raw);
    if TrimSpace(raw) == "" {
      assert Kept(Split("")) == Kept([""]) == [];
    }
  }

  lemma ReadBack(names: seq<string>, decode: Decoder)
    requires CommaFree(names) && forall i :: 0 <= i < |names| ==> TrimSpace(names[i]) != ""
    requires !ReadsAsJson(TrimSpace(Join(names)), decode)
    ensures Parsed(Join(names), decode) == Trimmed(names)
  {
    ParsedAsList(Join(names), decode);
    KeptNonEmpty(names);
    if names != [] {
      SplitUndoesJoin(names);
    }
  }

  lemma CommaFreeTrimmed(names: seq<string>)
    ensures CommaFree(Trimmed(names)) <==> CommaFree(names)
  {
    forall i | 0 <= i < |names| ensures ',' in Trimmed(names)[i] <==> ',' in names[i] {
      TrimSpaceKeepsComma(names[i]);
    }
    if CommaFree(Trimmed(names)) {
      forall n | n in names ensures ',' !in n {
        var i :| 0 <= i < |names| && names[i] == n;
        assert Trimmed(names)[i] in Trimmed(names);
      }
    }
  }

  lemma JsonNeverReadsBack(names: seq<string>, decode: Decoder)
    requires Shrinks(decode) && ReadsAsJson(TrimSpace(Join(names)), decode)
    ensures Parsed(Join(names), decode) != Trimmed(names)
  {
    NonSpaceJoined(names);
    NonSpaceTrimmed(Join(names));
  }

  lemma ListReadsBackIff(names: seq<string>, decode: Decoder)
    requires Clean(Trimmed(names)) && !ReadsAsJson(TrimSpace(Join(names)), decode)
    ensures Parsed(Join(names), decode) == Trimmed(names) <==> CommaFree(names)
  {
    if CommaFree(names) {
      assert forall i :: 0 <= i < |names| ==> Trimmed(names)[i] in Trimmed(names);
      ReadBack(names, decode);
    } else {
      ParsedAsList(Join(names), decode);
      CommaFreeTrimmed(names);
      KeptCommaFree(Split(Join(names)));
    }
  }

  /** For every validated list: what is stored reads back as the trimmed names exactly when no name holds a comma and
      the stored text is not itself a JSON array. What then comes back is again a valid list. */
  lemma RoundTripIff(names: seq<string>, decode: Decoder)
    requires Valid(names) && Shrinks(decode)
    ensures Parsed(Join(names), decode) == Trimmed(names)
      <==> CommaFree(names) && !ReadsAsJson(TrimSpace(Join(names)), decode)
    ensures Parsed(Join(names), decode) == Trimmed(names) ==> Valid(Parsed(Join(names), decode))
  {
    if ReadsAsJson(TrimSpace(Join(names)), decode) {
      JsonNeverReadsBack(names, decode);
    } else {
      ListReadsBackIff(names, decode);
    }
    TrimmedOnce(names);
  }

  lemma TrimmedOnce(names: seq<string>)
    ensures Trimmed(Trimmed(names)) == Trimmed(names)
  {
    forall i | 0 <= i < |names| ensures Trimmed(Trimmed(names))[i] == Trimmed(names)[i] {
      TrimSpaceOnce(names[i]);
    }
  }

  /** A name without space at its ends and without a comma, not the start of a JSON array. */
  predicate Plain(name: string) {
    name != "" && !IsSpace(name[0]) && !IsSpace(name[|name| - 1]) && ',' !in name && name[0] != '['
  }

  lemma TrimOfSolid(s: string)
    requires s != "" && !IsSpace(s[0]) && !IsSpace(s[|s| - 1])
    ensures TrimSpace(s) == s
  {
  }

  /** A comma smuggles in names the validation never saw: [a "," b, a] is a valid list and reads back as [a, b, a]. */
  lemma CommaCanDuplicate(a: string, b: string, decode: Decoder)
    requires Plain(a) && Plain(b)
    ensures Valid([a + "," + b, a]) && Parsed(Join([a + "," + b, a]), decode) == [a, b, a]
  {
    var both, three := a + "," + b, [a, b, a];
    TrimOfSolid(a);
    TrimOfSolid(b);
    TrimOfSolid(both);
    assert |both| > |a|;
    assert Trimmed([both, a]) == [both, a];
    assert Trimmed(three) == three;
    JoinOfThree(a, b);
    TrimOfSolid((a + "," + b + ",") + a);
    ReadBack(three, decode);
  }

  lemma JoinOfThree(a: string, b: string)
    ensures Join([a, b, a]) == Join([a + "," + b, a]) == a + "," + b + "," + a
  {
    assert [a, b, a][1..] == [b, a] && [b, a][1..] == [a] && [a + "," + b, a][1..] == [a];
    assert a + "," + (b + "," + a) == a + "," + b + "," + a;
  }
}
