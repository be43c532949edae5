/** The hand-written decimal parser: what text denotes, and that parsing undoes fixed-point printing. */
module DecimalText {
  import opened Text

  /** The weight of the k-th fractional digit. */
  function Place(k: nat): real {
    if k == 0 then 1.0 else Place(k - 1) * 0.1
  }

  /** What a digit is worth k places after the point: its value divided by ten k times. */
  function Weighted(c: char, k: nat): real
    requires IsDigit(c)
  {
    if k == 0 then DigitValue(c) as real else Weighted(c, k - 1) * 0.1
  }

  /** The number below one written by fractional digits. */
  function FracValue(s: string): real
    requires AllDigits(s)
  {
    if s == "" then 0.0 else FracValue(s[..|s| - 1]) + Weighted(s[|s| - 1], |s|)
  }

  /** The number written as integer digits and fractional digits. */
  function Decimal(ip: string, fp: string): real
    requires AllDigits(ip) && AllDigits(fp)
  {
    NatValue(ip) as real + FracValue(fp)
  }

  /** Where the digits starting at i end. */
  function RunEnd(s: string, i: nat): (e: nat)
    requires i <= |s|
    ensures i <= e <= |s| && AllDigits(s[i..e]) && (e < |s| ==> !IsDigit(s[e]))
    decreases |s| - i
  {
    if i < |s| && IsDigit(s[i]) then
      var e := RunEnd(s, i + 1);
      assert s[i..e] == [s[i]] + s[i + 1..e];
      e
    else i
  }

  function OnlyDigits(s: string): (ds: string)
    ensures AllDigits(ds) && |ds| <= |s|
  {
    if s == "" then ""
    else OnlyDigits(s[..|s| - 1]) + if IsDigit(s[|s| - 1]) then [s[|s| - 1]] else ""
  }

  function SignLength(s: string): nat {
    if s != "" && (s[0] == '-' || s[0] == '+') then 1 else 0
  }

  /** From position i: the digits before the point, the digits after it, and how far the text was read:
      to its end once a point is seen (other characters after it are passed over), else to the first non-digit. */
  function SplitFrom(s: string, i: nat): (r: (string, string, nat))
    requires i <= |s|
    ensures AllDigits(r.0) && AllDigits(r.1) && r.2 <= |s|
  {
    var e := RunEnd(s, i);
    if e < |s| && s[e] == '.' then (s[i..e], OnlyDigits(s[e + 1..]), |s|) else (s[i..e], "", e)
  }

  function Split(s: string): (r: (string, string, nat))
    ensures AllDigits(r.0) && AllDigits(r.1) && r.2 <= |s|
  {
    SplitFrom(s, SignLength(s))
  }

  function Denoted(s: string): real {
    var (ip, fp, _) := Split(s);
    if s != "" && s[0] == '-' then -Decimal(ip, fp) else Decimal(ip, fp)
  }

  lemma NatValueAppend(ds: string, c: char)
    requires AllDigits(ds) && IsDigit(c)
    ensures AllDigits(ds + [c]) && NatValue(ds + [c]) == 10 * NatValue(ds) + DigitValue(c)
  {
    assert (ds + [c])[..|ds|] == ds;
  }

  lemma Reassociate(d: real, p: real)
    ensures d * (p * 0.1) == d * p * 0.1
  {
  }

  lemma {:induction false} WeightedIsProduct(c: char, k: nat, place: real)
    requires IsDigit(c) && place == Place(k)
    ensures DigitValue(c) as real * place == Weighted(c, k)
  {
    if k > 0 {
      WeightedIsProduct(c, k - 1, Place(k - 1));
      Reassociate(DigitValue(c) as real, Place(k - 1));
    }
  }

  lemma FracValueAppend(ds: string, c: char)
    requires AllDigits(ds) && IsDigit(c)
    ensures AllDigits(ds + [c])
    ensures FracValue(ds + [c]) == FracValue(ds) + Weighted(c, |ds| + 1)
  {
    assert (ds + [c])[..|ds|] == ds;
  }

  /** The inner loop: adds the digits after the point, passing over everything else. */
  method ReadFraction(s: string, from: nat, whole: real, ghost ip: string) returns (result: real, i: nat)
    requires from <= |s| && AllDigits(ip) && whole == Decimal(ip, "")
    ensures result == Decimal(ip, OnlyDigits(s[from..])) && i == |s|
  {
    result, i := whole, from;
    var decimalPlace := 0.1;
    ghost var rest := s[from..];
    assert rest[..0] == "" && Place(1) == 0.1;
    while i < |s|
      invariant from <= i <= |s|
      invariant result == Decimal(ip, OnlyDigits(rest[..i - from]))
      invariant decimalPlace == Place(|OnlyDigits(rest[..i - from])| + 1)
    {
      ghost var ds := OnlyDigits(rest[..i - from]);
      assert rest[..i - from + 1][..i - from] == rest[..i - from];
      assert OnlyDigits(rest[..i - from + 1]) == if IsDigit(s[i]) then ds + [s[i]] else ds;
      if IsDigit(s[i]) {
        FracValueAppend(ds, s[i]);
        WeightedIsProduct(s[i], |ds| + 1, decimalPlace);
        result := result + DigitValue(s[i]) as real * decimalPlace;
        decimalPlace := decimalPlace * 0.1;
      }
      i := i + 1;
    }
    assert rest[..|rest|] == rest;
  }

  lemma RunNext(s: string, start: nat, i: nat)
    requires start <= i < |s| && AllDigits(s[start..i]) && IsDigit(s[i])
    ensures AllDigits(s[start..i + 1])
    ensures NatValue(s[start..i + 1]) as real == NatValue(s[start..i]) as real * 10.0 + DigitValue(s[i]) as real
  {
    NatValueAppend(s[start..i], s[i]);
    assert s[start..i + 1] == s[start..i] + [s[i]];
  }

  /** The outer loop. */
  method ReadUnsigned(s: string, start: nat) returns (result: real, i: nat)
    requires start <= |s|
    ensures result == Decimal(SplitFrom(s, start).0, SplitFrom(s, start).1) && i == SplitFrom(s, start).2
  {
    result, i := 0.0, start;
    ghost var end := RunEnd(s, start);
    while i < |s|
      invariant start <= i <= end <= |s| && RunEnd(s, i) == end
      invariant AllDigits(s[start..i]) && result == NatValue(s[start..i]) as real
    {
      if IsDigit(s[i]) {
        RunNext(s, start, i);
        result := result * 10.0 + DigitValue(s[i]) as real;
        i := i + 1;
      } else if s[i] == '.' {
        i := i + 1;
        result, i := ReadFraction(s, i, result, s[start..end]);
        return;
      } else {
        break;
      }
    }
  }

  /** Returns the value and the number of characters read. */
  method ParseFloat(s: string) returns (f: real, n: nat)
    ensures f == Denoted(s) && n == Split(s).2
  {
    if |s| == 0 {
      return 0.0, 0;
    }
    var sign, i := 1.0, 0;
    if s[0] == '-' {
      sign, i := -1.0, 1;
    } else if s[0] == '+' {
      i := 1;
    }
    var result;
    result, n := ReadUnsigned(s, i);
    f := result * sign;
  }

  // ---- exactness ----

  lemma {:induction false} OnlyDigitsOfDigits(s: string)
    requires AllDigits(s)
    ensures OnlyDigits(s) == s
  {
    if s != "" {
      OnlyDigitsOfDigits(s[..|s| - 1]);
    }
  }

  lemma {:induction false} RunEndAt(s: string, i: nat, e: nat)
    requires i <= e <= |s| && AllDigits(s[i..e]) && (e < |s| ==> !IsDigit(s[e]))
    ensures RunEnd(s, i) == e
    decreases e - i
  {
    if i < e {
      assert IsDigit(s[i..e][0]);
      assert s[i + 1..e] == s[i..e][1..];
      RunEndAt(s, i + 1, e);
    }
  }

  lemma SignedRun(s: string, sign: string, ip: string, tail: string)
    requires s == sign + ip + tail && sign in {"", "+", "-"} && AllDigits(ip)
    requires tail != "" ==> !IsDigit(tail[0]) && tail[0] != '+' && tail[0] != '-'
    ensures SignLength(s) == |sign| && (s != "" && s[0] == '-' <==> sign == "-")
    ensures RunEnd(s, |sign|) == |sign| + |ip|
    ensures s[|sign|..|sign| + |ip|] == ip && s[|sign| + |ip|..] == tail
  {
    var e := |sign| + |ip|;
    assert s[|sign|..e] == ip && s[e..] == tail;
    assert e < |s| ==> s[e] == s[e..][0];
    RunEndAt(s, |sign|, e);
  }

  /** Decimal text with an optional sign and an optional point is read in full and exactly. */
  lemma DecimalsAreExact(sign: string, ip: string, point: bool, fp: string)
    requires sign in {"", "+", "-"} && AllDigits(ip) && AllDigits(fp) && (!point ==> fp == "")
    ensures var s := sign + ip + (if point then "." + fp else "");
      && Split(s).2 == |s|
      && Denoted(s) == if sign == "-" then -Decimal(ip, fp) else Decimal(ip, fp)
  {
    var tail := if point then "." + fp else "";
    var s := sign + ip + tail;
    var e := |sign| + |ip|;
    SignedRun(s, sign, ip, tail);
    assert e < |s| ==> s[e] == s[e..][0] && s[e + 1..] == s[e..][1..];
    if point {
      assert tail[1..] == fp;
      OnlyDigitsOfDigits(fp);
      assert Split(s) == (ip, fp, |s|);
    } else {
      assert Split(s) == (ip, fp, |s|);
    }
  }

  // ---- printing ----

  function Pow10(k: nat): (p: nat)
    ensures p >= 1
  {
    if k == 0 then 1 else 10 * Pow10(k - 1)
  }

  lemma {:induction false} WeightedScales(c: char, k: nat)
    requires IsDigit(c)
    ensures Weighted(c, k) * Pow10(k) as real == DigitValue(c) as real
  {
    if k > 0 {
      WeightedScales(c, k - 1);
      ScaleBoth(Weighted(c, k - 1), Pow10(k - 1) as real);
    }
  }

  lemma ScaleBoth(w: real, p: real)
    ensures w * 0.1 * (10.0 * p) == w * p
  {
  }

  lemma RatioStep(f: real, w: real, q: real, n: real, d: real)
    requires f * q == n && w * (10.0 * q) == d
    ensures (f + w) * (10.0 * q) == 10.0 * n + d
  {
    assert (f + w) * (10.0 * q) == 10.0 * (f * q) + w * (10.0 * q);
  }

  /** x is the fraction n / p. */
  ghost predicate IsFraction(x: real, n: int, p: nat) {
    x * p as real == n as real
  }

  /** Fractional digits denote their number over a power of ten. */
  lemma {:induction false} FracIsRatio(s: string)
    requires AllDigits(s)
    ensures IsFraction(FracValue(s), NatValue(s), Pow10(|s|))
  {
    if s != "" {
      var init, last, q := s[..|s| - 1], s[|s| - 1], Pow10(|s| - 1) as real;
      FracIsRatio(init);
      WeightedScales(last, |s|);
      assert Pow10(|s|) as real == 10.0 * q;
      RatioStep(FracValue(init), Weighted(last, |s|), q, NatValue(init) as real, DigitValue(last) as real);
    }
  }

  /** n with leading zeros up to k digits. */
  function Padded(n: nat, k: nat): string
    requires n < Pow10(k)
    decreases k
  {
    if k == 0 then "" else Padded(n / 10, k - 1) + [DigitChar(n % 10)]
  }

  /** Quotient and remainder by repeated subtraction. */
  function DivMod(n: nat, p: nat): (r: (nat, nat))
    requires p > 0
    ensures n == r.0 * p + r.1 && r.1 < p
  {
    if n < p then (0, n)
    else
      var (q, r) := DivMod(n - p, p);
      assert (q + 1) * p == q * p + p;
      (q + 1, r)
  }

  /** Fixed-point printing of m / 10^k with k fractional digits. */
  function FixedPoint(m: int, k: nat): string {
    var (q, r) := DivMod(if m < 0 then -m else m, Pow10(k));
    (if m < 0 then "-" else "") + Digits(q) + if k == 0 then "" else "." + Padded(r, k)
  }

  lemma {:induction false} PaddedDenotes(n: nat, k: nat)
    requires n < Pow10(k)
    ensures AllDigits(Padded(n, k)) && |Padded(n, k)| == k && NatValue(Padded(n, k)) == n
    decreases k
  {
    if k > 0 {
      PaddedDenotes(n / 10, k - 1);
      NatValueAppend(Padded(n / 10, k - 1), DigitChar(n % 10));
    }
  }

  lemma CastProduct(a: int, b: int)
    ensures (a * b) as real == a as real * b as real
  {
  }

  lemma Recombine(n: nat, p: nat, f: real)
    requires p > 0 && IsFraction(f, DivMod(n, p).1, p)
    ensures IsFraction(DivMod(n, p).0 as real + f, n, p)
    ensures IsFraction(-(DivMod(n, p).0 as real + f), -(n as int), p)
  {
    var (q, r) := DivMod(n, p);
    CastProduct(q, p);
    var x, y := q as real, p as real;
    assert (x + f) * y == x * y + f * y;
    assert -(x + f) * y == -((x + f) * y);
  }

  lemma PaddedFraction(r: nat, k: nat)
    requires r < Pow10(k)
    ensures AllDigits(Padded(r, k)) && IsFraction(FracValue(Padded(r, k)), r, Pow10(k))
  {
    PaddedDenotes(r, k);
    FracIsRatio(Padded(r, k));
  }

  lemma PrintedText(m: int, k: nat, n: nat)
    requires n == if m < 0 then -m else m
    ensures AllDigits(Padded(DivMod(n, Pow10(k)).1, k))
    ensures var s := FixedPoint(m, k);
      var x := DivMod(n, Pow10(k)).0 as real + FracValue(Padded(DivMod(n, Pow10(k)).1, k));
      Split(s).2 == |s| && Denoted(s) == if m < 0 then -x else x
  {
    var (q, r) := DivMod(n, Pow10(k));
    DigitsDenote(q);
    PaddedDenotes(r, k);
    DecimalsAreExact(if m < 0 then "-" else "", Digits(q), k > 0, Padded(r, k));
    if k == 0 {
      assert Padded(r, k) == "";
    }
  }

  /** Parsing undoes fixed-point printing: the text of m / 10^k is read in full and denotes exactly m / 10^k. */
  lemma ParseUndoesPrint(m: int, k: nat)
    ensures IsFraction(Denoted(FixedPoint(m, k)), m, Pow10(k))
    ensures Split(FixedPoint(m, k)).2 == |FixedPoint(m, k)|
  {
    var n := if m < 0 then -m else m;
    PrintedText(m, k, n);
    var r := DivMod(n, Pow10(k)).1;
    PaddedFraction(r, k);
    SignedFraction(m, n, Pow10(k), FracValue(Padded(r, k)), Denoted(FixedPoint(m, k)));
  }

  lemma SignedFraction(m: int, n: nat, p: nat, f: real, x: real)
    requires n == (if m < 0 then -m else m) && p > 0 && IsFraction(f, DivMod(n, p).1, p)
    requires x == if m < 0 then -(DivMod(n, p).0 as real + f) else DivMod(n, p).0 as real + f
    ensures IsFraction(x, m, p)
  {
    Recombine(n, p, f);
  }

  lemma {:induction false} OnlyDigitsConcat(a: string, b: string)
    ensures OnlyDigits(a + b) == OnlyDigits(a) + OnlyDigits(b)
  {
    if b == "" {
      assert a + b == a;
    } else {
      assert (a + b)[..|a + b| - 1] == a + b[..|b| - 1];
      OnlyDigitsConcat(a, b[..|b| - 1]);
    }
  }

  lemma {:induction false} OnlyDigitsOfNone(s: string)
    requires forall i :: 0 <= i < |s| ==> !IsDigit(s[i])
    ensures OnlyDigits(s) == ""
  {
    if s != "" {
      OnlyDigitsOfNone(s[..|s| - 1]);
    }
  }

  function Signed(sign: string, x: real): real {
    if sign == "-" then -x else x
  }

  lemma SplitAtPoint(s: string, sign: string, ip: string, rest: string)
    requires sign in {"", "+", "-"} && AllDigits(ip) && s == sign + ip + ("." + rest)
    ensures Split(s) == (ip, OnlyDigits(rest), |s|) && Denoted(s) == Signed(sign, Decimal(ip, OnlyDigits(rest)))
  {
    var e := |sign| + |ip|;
    SignedRun(s, sign, ip, "." + rest);
    assert s[e] == s[e..][0] && s[e + 1..] == s[e..][1..] == rest;
  }

  /** After a point nothing stops the reading: text such as an exponent mark is passed over and the digits behind it are
      taken for fractional ones. */
  lemma DigitsBehindMarksAreFractional(sign: string, ip: string, fp: string, mark: string, ex: string)
    requires sign in {"", "+", "-"} && AllDigits(ip) && AllDigits(fp) && AllDigits(ex)
    requires forall i :: 0 <= i < |mark| ==> !IsDigit(mark[i])
    ensures AllDigits(fp + ex)
    ensures var s := sign + ip + ("." + (fp + mark + ex));
      Split(s) == (ip, fp + ex, |s|) && Denoted(s) == Signed(sign, Decimal(ip, fp + ex))
  {
    var rest := fp + mark + ex;
    OnlyDigitsOfDigits(fp);
    OnlyDigitsOfDigits(ex);
    OnlyDigitsOfNone(mark);
    OnlyDigitsConcat(fp, mark);
    OnlyDigitsConcat(fp + mark, ex);
    assert OnlyDigits(rest) == fp + ex;
    SplitAtPoint(sign + ip + ("." + rest), sign, ip, rest);
  }

  /** Without a point the reading stops at the first character that is neither. */
  lemma MarksEndIntegers(sign: string, ip: string, tail: string)
    requires sign in {"", "+", "-"} && AllDigits(ip)
    requires tail != "" && !IsDigit(tail[0]) && tail[0] != '+' && tail[0] != '-' && tail[0] != '.'
    ensures var s := sign + ip + tail;
      Split(s) == (ip, "", |sign| + |ip|) && Denoted(s) == Signed(sign, Decimal(ip, ""))
  {
    var s := sign + ip + tail;
    SignedRun(s, sign, ip, tail);
    assert s[|sign| + |ip|] == s[|sign| + |ip|..][0];
  }

  // ---- scientific notation ----

  /** x times ten, n times over. */
  function ScaledUp(x: real, n: nat): real {
    if n == 0 then x else 10.0 * ScaledUp(x, n - 1)
  }

  /** x over ten, n times over. */
  function ScaledDown(x: real, n: nat): real {
    if n == 0 then x else ScaledDown(x, n - 1) * 0.1
  }

  function Scaled(x: real, down: bool, n: nat): real {
    if down then ScaledDown(x, n) else ScaledUp(x, n)
  }

  /** The text of a number in scientific notation. */
  function ScientificText(
    sign: string, ip: string, point: bool, fp: string, mark: string, esign: string, ex: string): string
  {
    sign + ip + ((if point then "." + fp else "") + mark + esign + ex)
  }

  /** The number that text stands for. */
  function ScientificValue(sign: string, ip: string, fp: string, esign: string, ex: string): real
    requires AllDigits(ip) && AllDigits(fp) && AllDigits(ex)
  {
    Signed(sign, Scaled(Decimal(ip, fp), esign == "-", NatValue(ex)))
  }

  lemma {:induction false} ScalingMoves(x: real, n: nat)
    requires x >= 0.0
    ensures n > 0 ==> ScaledUp(x, n) >= 10.0 * x && 0.0 <= ScaledDown(x, n) <= x * 0.1
    ensures x == 0.0 ==> ScaledUp(x, n) == ScaledDown(x, n) == 0.0
  {
    if n > 0 {
      ScalingMoves(x, n - 1);
    }
  }

  lemma ScalingFixesIff(x: real, down: bool, n: nat)
    requires x >= 0.0
    ensures Scaled(x, down, n) == x <==> n == 0 || x == 0.0
  {
    ScalingMoves(x, n);
  }

  /** No scaling makes up for a bit added below the unit of x. */
  lemma ScalingNeverAdds(x: real, down: bool, n: nat, bit: real, unit: real)
    requires n > 0 && 0.0 < bit < unit && (x == 0.0 || x >= unit)
    ensures Scaled(x, down, n) != x + bit
  {
    ScalingMoves(x, n);
  }

  lemma {:induction false} PlaceBounds(k: nat)
    ensures 0.0 < Place(k) <= 1.0
  {
    if k > 0 {
      PlaceBounds(k - 1);
    }
  }

  lemma {:induction false} WeightedBounds(c: char, k: nat)
    requires IsDigit(c)
    ensures 0.0 <= Weighted(c, k) <= 9.0 * Place(k)
    ensures DigitValue(c) == 0 ==> Weighted(c, k) == 0.0
    ensures DigitValue(c) > 0 ==> Weighted(c, k) >= Place(k) > 0.0
  {
    if k > 0 {
      WeightedBounds(c, k - 1);
    }
  }

  /** A decimal is zero or at least one unit of its last place. */
  lemma {:induction false} FracUnit(s: string)
    requires AllDigits(s)
    ensures FracValue(s) == 0.0 || FracValue(s) >= Place(|s|)
  {
    PlaceBounds(|s|);
    if s != "" {
      FracUnit(s[..|s| - 1]);
      WeightedBounds(s[|s| - 1], |s|);
    }
  }

  /** What more digits add stays below the unit of the last place, and is nothing only if they are all zero. */
  lemma {:induction false} FracExtends(fp: string, ex: string)
    requires AllDigits(fp) && AllDigits(ex)
    ensures AllDigits(fp + ex)
    ensures 0.0 <= FracValue(fp + ex) - FracValue(fp) <= Place(|fp|) - Place(|fp| + |ex|)
    ensures FracValue(fp + ex) == FracValue(fp) <==> NatValue(ex) == 0
  {
    if ex == "" {
      assert fp + ex == fp;
    } else {
      var init, last := ex[..|ex| - 1], ex[|ex| - 1];
      FracExtends(fp, init);
      FracValueAppend(fp + init, last);
      WeightedBounds(last, |fp + init| + 1);
      assert fp + ex == fp + init + [last];
    }
  }

  lemma PointExponentIff(ip: string, fp: string, down: bool, ex: string)
    requires AllDigits(ip) && AllDigits(fp) && AllDigits(ex)
    ensures AllDigits(fp + ex)
    ensures Decimal(ip, fp + ex) == Scaled(Decimal(ip, fp), down, NatValue(ex)) <==> NatValue(ex) == 0
  {
    FracExtends(fp, ex);
    if NatValue(ex) > 0 {
      FracUnit(fp);
      PlaceBounds(|fp|);
      PlaceBounds(|fp| + |ex|);
      ScalingNeverAdds(Decimal(ip, fp), down, NatValue(ex), FracValue(fp + ex) - FracValue(fp), Place(|fp|));
    }
  }

  lemma PointTextDenotes(sign: string, ip: string, fp: string, mark: string, esign: string, ex: string)
    requires sign in {"", "+", "-"} && AllDigits(ip) && AllDigits(fp) && AllDigits(ex)
    requires mark in {"e", "E"} && esign in {"", "+", "-"}
    ensures AllDigits(fp + ex)
    ensures Denoted(ScientificText(sign, ip, true, fp, mark, esign, ex)) == Signed(sign, Decimal(ip, fp + ex))
  {
    assert ("." + fp) + mark + esign + ex == "." + (fp + (mark + esign) + ex);
    DigitsBehindMarksAreFractional(sign, ip, fp, mark + esign, ex);
  }

  lemma IntegerTextDenotes(sign: string, ip: string, mark: string, esign: string, ex: string)
    requires sign in {"", "+", "-"} && AllDigits(ip) && mark in {"e", "E"}
    ensures Denoted(ScientificText(sign, ip, false, "", mark, esign, ex)) == Signed(sign, Decimal(ip, ""))
  {
    MarksEndIntegers(sign, ip, "" + mark + esign + ex);
  }

  lemma SignedEqual(sign: string, x: real, y: real)
    ensures Signed(sign, x) == Signed(sign, y) <==> x == y
  {
  }

  /** Scientific notation is read right exactly when the exponent is zero, or there is no point and the mantissa is
      zero. */
  lemma ExponentReadIff(sign: string, ip: string, point: bool, fp: string, mark: string, esign: string, ex: string)
    requires sign in {"", "+", "-"} && AllDigits(ip) && AllDigits(fp) && (!point ==> fp == "")
    requires mark in {"e", "E"} && esign in {"", "+", "-"} && ex != "" && AllDigits(ex)
    ensures Denoted(ScientificText(sign, ip, point, fp, mark, esign, ex)) == ScientificValue(sign, ip, fp, esign, ex)
      <==> NatValue(ex) == 0 || (!point && NatValue(ip) == 0)
  {
    var scaled := Scaled(Decimal(ip, fp), esign == "-", NatValue(ex));
    if point {
      PointTextDenotes(sign, ip, fp, mark, esign, ex);
      PointExponentIff(ip, fp, esign == "-", ex);
      SignedEqual(sign, Decimal(ip, fp + ex), scaled);
    } else {
      IntegerTextDenotes(sign, ip, mark, esign, ex);
      ScalingFixesIff(Decimal(ip, ""), esign == "-", NatValue(ex));
      SignedEqual(sign, Decimal(ip, ""), scaled);
    }
  }

  /** "1.5e-7" denotes 1.57... */
  lemma PointExample()
    ensures Denoted("1.5e-7") == 1.57 && ScientificValue("", "1", "5", "-", "7") == 0.00000015
  {
    assert "1.5e-7" == "" + "1" + ("." + ("5" + "e-" + "7"));
    DigitsBehindMarksAreFractional("", "1", "5", "e-", "7");
    DigitExamples();
    Shift7(1.5);
  }

  /** ...and "2e-7" denotes 2, read from one character... */
  lemma IntegerExample()
    ensures Denoted("2e-7") == 2.0 && Split("2e-7").2 == 1 && ScientificValue("", "2", "", "-", "7") == 0.0000002
  {
    assert "2e-7" == "" + "2" + "e-7";
    MarksEndIntegers("", "2", "e-7");
    DigitExamples();
    Shift7(2.0);
  }

  /** ...while "1.5e0" is read right. */
  lemma ZeroExponentExample()
    ensures Denoted("1.5e0") == 1.5
  {
    assert "1.5e0" == "" + "1" + ("." + ("5" + "e" + "0"));
    DigitsBehindMarksAreFractional("", "1", "5", "e", "0");
    DigitExamples();
  }

  lemma Shift7(x: real)
    ensures ScaledDown(x, 7) == x * 0.0000001
  {
    assert ScaledDown(x, 1) == x * 0.1;
    assert ScaledDown(x, 2) == x * 0.01;
    assert ScaledDown(x, 3) == x * 0.001;
    assert ScaledDown(x, 4) == x * 0.0001;
    assert ScaledDown(x, 5) == x * 0.00001;
    assert ScaledDown(x, 6) == x * 0.000001;
  }

  lemma DigitExamples()
    ensures NatValue("1") == 1 && NatValue("2") == 2 && NatValue("7") == 7
    ensures FracValue("5") == 0.5 && FracValue("5" + "7") == 0.57 && FracValue("5" + "0") == 0.5
  {
    assert Weighted('5', 1) == Weighted('5', 0) * 0.1 && Weighted('7', 1) == Weighted('7', 0) * 0.1;
    assert Weighted('7', 2) == Weighted('7', 1) * 0.1 && Weighted('0', 1) == Weighted('0', 2) == 0.0;
    assert "5"[..0] == "";
    FracValueAppend("5", '7');
    FracValueAppend("5", '0');
    assert "5" + ['7'] == "57" == "5" + "7" && "5" + ['0'] == "50" == "5" + "0";
  }
}
