/** Strings as the program uses them: trimming, ASCII lower-casing and decimal integers. */
module Text {

  /** The characters Go's unicode.IsSpace accepts. */
  predicate IsSpace(c: char) {
    || '\t' <= c <= '\r' || c == ' ' || c == '\U{0085}' || c == '\U{00A0}' || c == '\U{1680}'
    || '\U{2000}' <= c <= '\U{200A}' || c == '\U{2028}' || c == '\U{2029}'
    || c == '\U{202F}' || c == '\U{205F}' || c == '\U{3000}'
  }

  function TrimLeft(s: string): string {
    if s != "" && IsSpace(s[0]) then TrimLeft(s[1..]) else s
  }

  function TrimRight(s: string): string {
    if s != "" && IsSpace(s[|s| - 1]) then TrimRight(s[..|s| - 1]) else s
  }

  function TrimSpace(s: string): string {
    TrimRight(TrimLeft(s))
  }

  function LowerChar(c: char): char {
    if 'A' <= c <= 'Z' then (c as int + 32) as char else c
  }

  function ToLower(s: string): string {
    seq(|s|, i requires 0 <= i < |s| => LowerChar(s[i]))
  }

  // ---- trimming ----

  predicate AllSpace(s: string) {
    forall i :: 0 <= i < |s| ==> IsSpace(s[i])
  }

  lemma {:induction false} TrimLeftSkips(u: string, s: string)
    requires AllSpace(u)
    ensures TrimLeft(u + s) == TrimLeft(s)
  {
    if u == "" {
      assert u + s == s;
    } else {
      assert (u + s)[1..] == u[1..] + s;
      TrimLeftSkips(u[1..], s);
    }
  }

  lemma {:induction false} TrimRightSkips(s: string, u: string)
    requires AllSpace(u)
    ensures TrimRight(s + u) == TrimRight(s)
  {
    if u == "" {
      assert s + u == s;
    } else {
      assert (s + u)[..|s + u| - 1] == s + u[..|u| - 1];
      TrimRightSkips(s, u[..|u| - 1]);
    }
  }

  lemma SpaceBefore(c: char, u: string)
    requires IsSpace(c) && AllSpace(u)
    ensures AllSpace([c] + u)
  {
  }

  lemma {:induction false} TrimLeftTakes(s: string) returns (u: string)
    ensures AllSpace(u) && s == u + TrimLeft(s)
    ensures TrimLeft(s) != "" ==> !IsSpace(TrimLeft(s)[0])
  {
    if s != "" && IsSpace(s[0]) {
      var v := TrimLeftTakes(s[1..]);
      u := [s[0]] + v;
      SpaceBefore(s[0], v);
      assert s == [s[0]] + s[1..];
    } else {
      u := "";
    }
  }

  lemma {:induction false} TrimRightTakes(s: string) returns (u: string)
    ensures AllSpace(u) && s == TrimRight(s) + u
    ensures TrimRight(s) != "" ==> !IsSpace(TrimRight(s)[|TrimRight(s)| - 1])
  {
    if s != "" && IsSpace(s[|s| - 1]) {
      var v := TrimRightTakes(s[..|s| - 1]);
      u := v + [s[|s| - 1]];
      assert s == s[..|s| - 1] + [s[|s| - 1]];
    } else {
      u := "";
    }
  }

  /** Trimming takes off space at both ends, and leaves none there. */
  lemma TrimSpaceTakes(s: string) returns (u: string, v: string)
    ensures AllSpace(u) && AllSpace(v) && s == u + TrimSpace(s) + v
    ensures TrimSpace(s) != "" ==> !IsSpace(TrimSpace(s)[0]) && !IsSpace(TrimSpace(s)[|TrimSpace(s)| - 1])
  {
    u := TrimLeftTakes(s);
    v := TrimRightTakes(TrimLeft(s));
    assert TrimLeft(s) == TrimSpace(s) + v;
    assert u + (TrimSpace(s) + v) == u + TrimSpace(s) + v;
    if TrimSpace(s) != "" {
      assert TrimSpace(s)[0] == TrimLeft(s)[0];
    }
  }

  lemma TrimSpaceSkips(u: string, s: string, v: string)
    requires AllSpace(u) && AllSpace(v)
    ensures TrimSpace(u + s) == TrimSpace(s) == TrimSpace(s + v)
  {
    TrimLeftSkips(u, s);
    var w := TrimLeftTakes(s);
    if TrimLeft(s) == "" {
      assert AllSpace(s + v);
      TrimLeftSkips(s + v, "");
      assert (s + v) + "" == s + v;
    } else {
      assert s + v == w + (TrimLeft(s) + v);
      TrimLeftSkips(w, TrimLeft(s) + v);
      TrimRightSkips(TrimLeft(s), v);
    }
  }

  /** The blank and the five controls from tab to carriage return, and the spaces beyond ASCII, by their numbers. */
  lemma SpacesAre(c: char)
    ensures IsSpace(c) <==>
      var n := c as int;
      9 <= n <= 13 || 8192 <= n <= 8202 || n in {32, 133, 160, 5760, 8232, 8233, 8239, 8287, 12288}
  {
  }

  /** Equal but for the case of ASCII letters. */
  ghost predicate SameButCase(a: string, b: string) {
    && |a| == |b|
    && forall i :: 0 <= i < |a| ==>
         || a[i] == b[i]
         || ('A' <= a[i] <= 'Z' && b[i] as int == a[i] as int + 32)
         || ('A' <= b[i] <= 'Z' && a[i] as int == b[i] as int + 32)
  }

  lemma LowerAlike(a: string, b: string)
    ensures ToLower(a) == ToLower(b) <==> SameButCase(a, b)
  {
    if ToLower(a) == ToLower(b) {
      assert |ToLower(a)| == |a| && |ToLower(b)| == |b|;
      forall i | 0 <= i < |a| ensures LowerChar(a[i]) == LowerChar(b[i]) {
        assert ToLower(a)[i] == ToLower(b)[i];
      }
    }
  }

  // ---- decimal integers ----

  predicate IsDigit(c: char) {
    '0' <= c <= '9'
  }

  ghost predicate AllDigits(s: string) {
    forall i :: 0 <= i < |s| ==> IsDigit(s[i])
  }

  function DigitChar(d: nat): char
    requires d < 10
  {
    ('0' as int + d) as char
  }

  function DigitValue(c: char): nat
    requires IsDigit(c)
  {
    c as int - '0' as int
  }

  function Digits(n: nat): string {
    if n < 10 then [DigitChar(n)] else Digits(n / 10) + [DigitChar(n % 10)]
  }

  /** The number a digit string denotes; the empty string denotes zero. */
  function NatValue(s: string): nat
    requires AllDigits(s)
  {
    if s == "" then 0 else 10 * NatValue(s[..|s| - 1]) + DigitValue(s[|s| - 1])
  }

  function FormatInt(v: int): string {
    if v < 0 then "-" + Digits(-v) else Digits(v)
  }

  lemma {:induction false} DigitsDenote(n: nat)
    ensures Digits(n) != "" && AllDigits(Digits(n)) && NatValue(Digits(n)) == n
  {
    if n >= 10 {
      DigitsDenote(n / 10);
      assert Digits(n)[..|Digits(n)| - 1] == Digits(n / 10);
    }
  }

  lemma FormatIntInjective(a: int, b: int)
    requires FormatInt(a) == FormatInt(b)
    ensures a == b
  {
    DigitsDenote(if a < 0 then -a else a);
    DigitsDenote(if b < 0 then -b else b);
    assert (a < 0) == (FormatInt(a)[0] == '-') == (b < 0);
    if a < 0 {
      assert FormatInt(a)[1..] == Digits(-a) && FormatInt(b)[1..] == Digits(-b);
    }
  }

  lemma FormatIntChars(v: int)
    ensures forall i :: 0 <= i < |FormatInt(v)| ==> IsDigit(FormatInt(v)[i]) || FormatInt(v)[i] == '-'
  {
    DigitsDenote(if v < 0 then -v else v);
  }
}
