/** Canonical version-4 UUID strings (sdk/go/transaction.go, validateUUIDOrEmpty). */
module Uuid {
  import opened Prelude

  const HEX := "0123456789abcdef"
  const GROUPS := [8, 4, 4, 4, 12]

  predicate IsHex(c: char) { '0' <= c <= '9' || 'a' <= c <= 'f' }

  /** The regular expression: groups of lowercase hex digits of the given sizes, joined by dashes, and nothing more. */
  predicate MatchGroups(s: string, groups: seq<nat>)
    requires groups != []
    decreases |groups|
  {
    && groups[0] <= |s|
    && (forall i :: 0 <= i < groups[0] ==> IsHex(s[i]))
    && var rest := s[groups[0]..];
       if |groups| == 1 then rest == ""
       else rest != "" && rest[0] == '-' && MatchGroups(rest[1..], groups[1..])
  }

  /** True when validateUUIDOrEmpty returns nil. */
  predicate ValidUuidOrEmpty(id: string) {
    id == "" ||
    (MatchGroups(id, GROUPS) && |id| > 19
     && id[14] == '4' && (id[19] == '8' || id[19] == '9' || id[19] == 'a' || id[19] == 'b'))
  }

  // --------------------------------------------------- 128-bit values and their print

  function Pow16(n: nat): (p: nat)
    ensures p > 0
  {
    if n == 0 then 1 else 16 * Pow16(n - 1)
  }

  const VALUES := 0x1_0000_0000_0000_0000_0000_0000_0000_0000

  /** The n low hex digits of v, most significant first. */
  function Hex(v: nat, n: nat): (s: string)
    ensures |s| == n
  {
    if n == 0 then "" else Hex(v / 16, n - 1) + [HEX[v % 16]]
  }

  /** Section 3 of RFC 4122: time_low, time_mid, time_hi, clock_seq and node, in lowercase hex, dashed. */
  function Dashed(digits: string): (s: string)
    requires |digits| == 32
    ensures |s| == 36
  {
    digits[..8] + "-" + digits[8..12] + "-" + digits[12..16] + "-" + digits[16..20] + "-" + digits[20..]
  }

  function Print(v: nat): string { Dashed(Hex(v, 32)) }

  /** Section 4.1.3: the four most significant bits of time_hi_and_version. */
  function Version(v: nat): nat { v / Pow16(19) % 16 }

  /** Section 4.1.1: the two most significant bits of clock_seq_hi_and_reserved. */
  function Variant(v: nat): nat { v / Pow16(15) % 16 / 4 }

  ghost predicate IsV4(v: nat) { v < VALUES && Version(v) == 4 && Variant(v) == 2 }

  function DigitOf(c: char): (d: nat)
    requires IsHex(c)
    ensures d < 16 && HEX[d] == c
  {
    if c <= '9' then (c - '0') as int else (c - 'a') as int + 10
  }

  /** Reads hex digits, most significant first. */
  function Parse(s: string): nat
    requires forall i :: 0 <= i < |s| ==> IsHex(s[i])
  {
    if s == "" then 0 else 16 * Parse(s[..|s| - 1]) + DigitOf(s[|s| - 1])
  }

  predicate CanonicalForm(id: string) {
    && |id| == 36 && id[8] == '-' && id[13] == '-' && id[18] == '-' && id[23] == '-'
    && forall i :: 0 <= i < 36 && i !in {8, 13, 18, 23} ==> IsHex(id[i])
  }

  function Undashed(id: string): (digits: string)
    requires CanonicalForm(id)
    ensures |digits| == 32 && forall i :: 0 <= i < 32 ==> IsHex(digits[i])
  {
    id[..8] + id[9..13] + id[14..18] + id[19..23] + id[24..]
  }

  function ParseId(id: string): nat
    requires CanonicalForm(id)
  {
    Parse(Undashed(id))
  }

  // ----------------------------------------------------------------------- lemmas

  lemma {:induction false} HexDigits(v: nat, n: nat)
    ensures forall i :: 0 <= i < n ==> IsHex(Hex(v, n)[i])
  {
    if n > 0 {
      HexDigits(v / 16, n - 1);
    }
  }

  lemma {:induction false} ParseInvertsHex(v: nat, n: nat)
    requires v < Pow16(n)
    ensures forall i :: 0 <= i < n ==> IsHex(Hex(v, n)[i])
    ensures Parse(Hex(v, n)) == v
  {
    HexDigits(v, n);
    if n > 0 {
      ParseInvertsHex(v / 16, n - 1);
      assert Hex(v, n)[..n - 1] == Hex(v / 16, n - 1);
      DigitIsInjective(DigitOf(HEX[v % 16]), v % 16);
    }
  }

  lemma DigitIsInjective(d: nat, e: nat)
    requires d < 16 && e < 16 && HEX[d] == HEX[e]
    ensures d == e
  {
  }

  lemma HexStep(high: nat, low: nat, n: nat)
    requires low < 16
    ensures Hex(16 * high + low, n + 1) == Hex(high, n) + [HEX[low]]
  {
    var v := 16 * high + low;
    assert v / 16 == high && v % 16 == low;
    assert Hex(v, n + 1) == Hex(v / 16, n) + [HEX[v % 16]];
  }

  lemma {:induction false} HexInvertsParse(s: string)
    requires forall i :: 0 <= i < |s| ==> IsHex(s[i])
    ensures Parse(s) < Pow16(|s|) && Hex(Parse(s), |s|) == s
  {
    if s != "" {
      var n := |s| - 1;
      var high, low := Parse(s[..n]), DigitOf(s[n]);
      HexInvertsParse(s[..n]);
      HexStep(high, low, n);
      assert Parse(s) == 16 * high + low && HEX[low] == s[n];
      assert s == s[..n] + [s[n]];
    }
  }

  /** Digit k of the print, counted from the right, is v / 16^k % 16. */
  lemma {:induction false} HexAt(v: nat, n: nat, k: nat)
    requires k < n
    ensures Hex(v, n)[n - 1 - k] == HEX[v / Pow16(k) % 16]
  {
    if k > 0 {
      HexAt(v / 16, n - 1, k - 1);
      DivideTwice(v, 16, Pow16(k - 1));
      assert Pow16(k) == 16 * Pow16(k - 1);
    }
  }

  lemma DivideTwice(v: nat, a: nat, b: nat)
    requires a > 0 && b > 0
    ensures a * b > 0 && v / (a * b) == v / a / b
  {
    var q, r := v / a, v % a;
    var p, t := q / b, q % b;
    Remainder(v, a);
    Remainder(q, b);
    Regroup(a, b, p, t);
    LowPart(a, b, t, r);
    QuotientIs(v, a * b, p, a * t + r);
  }

  lemma Remainder(v: nat, d: nat)
    requires d > 0
    ensures v == d * (v / d) + v % d && 0 <= v % d < d
  {
  }

  lemma Regroup(a: nat, b: nat, p: nat, r: nat)
    ensures a * (b * p + r) == (a * b) * p + a * r
  {
  }

  lemma LowPart(a: nat, b: nat, r: nat, s: nat)
    requires r < b && s < a
    ensures a * r + s < a * b
  {
    assert a * r <= a * (b - 1);
  }

  lemma QuotientIs(v: nat, d: nat, p: nat, low: nat)
    requires d > 0 && v == d * p + low && low < d
    ensures v / d == p
  {
    assert v == d * (v / d) + v % d;
    MultipleBounds(d, p - v / d);
    assert d * (p - v / d) == v % d - low;
  }

  /** The regular expression is the 36-character dashed form. */
  lemma GroupsAreCanonical(id: string)
    ensures MatchGroups(id, GROUPS) <==> CanonicalForm(id)
  {
    var g1, g2, g3, g4 := GROUPS[1..], GROUPS[1..][1..], GROUPS[1..][1..][1..], GROUPS[1..][1..][1..][1..];
    assert g1 == [4, 4, 4, 12] && g2 == [4, 4, 12] && g3 == [4, 12] && g4 == [12];
    if |id| >= 36 {
      var s1, s2, s3, s4 := id[9..], id[14..], id[19..], id[24..];
      assert id[8..][1..] == s1 && s1[4..][1..] == s2 && s2[4..][1..] == s3 && s3[4..][1..] == s4;
      GroupStep(id, GROUPS, 8);
      GroupStep(s1, g1, 4);
      GroupStep(s2, g2, 4);
      GroupStep(s3, g3, 4);
      assert MatchGroups(s4, g4) <==> |s4| == 12 && forall i :: 0 <= i < 12 ==> IsHex(s4[i]);
      if MatchGroups(id, GROUPS) {
        assert forall i :: 9 <= i < 13 ==> id[i] == s1[i - 9];
        assert forall i :: 14 <= i < 18 ==> id[i] == s2[i - 14];
        assert forall i :: 19 <= i < 23 ==> id[i] == s3[i - 19];
        assert forall i :: 24 <= i < 36 ==> id[i] == s4[i - 24];
      }
    } else {
      GroupsNeedLength(id, GROUPS);
      assert Needed(GROUPS) == 36 by {
        assert Needed(g4) == 12 && Needed(g3) == 17 && Needed(g2) == 22 && Needed(g1) == 27;
      }
    }
  }

  lemma GroupStep(s: string, groups: seq<nat>, n: nat)
    requires |groups| > 1 && groups[0] == n && |s| > n
    ensures MatchGroups(s, groups)
       <==> (forall i :: 0 <= i < n ==> IsHex(s[i])) && s[n] == '-' && MatchGroups(s[n..][1..], groups[1..])
  {
  }

  ghost function Needed(groups: seq<nat>): nat
    requires groups != []
  {
    if |groups| == 1 then groups[0] else groups[0] + 1 + Needed(groups[1..])
  }

  lemma {:induction false} GroupsNeedLength(s: string, groups: seq<nat>)
    requires groups != []
    ensures MatchGroups(s, groups) ==> |s| == Needed(groups)
    decreases |groups|
  {
    if |groups| > 1 && groups[0] <= |s| && s[groups[0]..] != "" {
      GroupsNeedLength(s[groups[0]..][1..], groups[1..]);
    }
  }

  lemma DashedIsCanonical(digits: string)
    requires |digits| == 32 && forall i :: 0 <= i < 32 ==> IsHex(digits[i])
    ensures CanonicalForm(Dashed(digits)) && Undashed(Dashed(digits)) == digits
    ensures Dashed(digits)[14] == digits[12] && Dashed(digits)[19] == digits[16]
  {
    var s := Dashed(digits);
    assert s[..8] == digits[..8] && s[9..13] == digits[8..12] && s[14..18] == digits[12..16];
    assert s[19..23] == digits[16..20] && s[24..] == digits[20..];
    forall i | 0 <= i < 36 && i !in {8, 13, 18, 23} ensures IsHex(s[i]) {
      if i < 8 { assert s[i] == digits[i]; }
      else if i < 13 { assert s[i] == s[9..13][i - 9]; }
      else if i < 18 { assert s[i] == s[14..18][i - 14]; }
      else if i < 23 { assert s[i] == s[19..23][i - 19]; }
      else { assert s[i] == s[24..][i - 24]; }
    }
  }

  lemma UndashedInverse(id: string)
    requires CanonicalForm(id)
    ensures Dashed(Undashed(id)) == id
    ensures id[14] == Undashed(id)[12] && id[19] == Undashed(id)[16]
  {
    var d := Undashed(id);
    assert d[..8] == id[..8] && d[8..12] == id[9..13] && d[12..16] == id[14..18] && d[16..20] == id[19..23] && d[20..] == id[24..];
    assert id == id[..8] + "-" + id[9..13] + "-" + id[14..18] + "-" + id[19..23] + "-" + id[24..];
  }

  lemma PowIs128()
    ensures Pow16(32) == VALUES
  {
    assert Pow16(8) == 0x1_0000_0000;
    assert Pow16(16) == 0x1_0000_0000_0000_0000 by { assert Pow16(12) == 0x1_0000_0000_0000; }
    assert Pow16(24) == 0x1_0000_0000_0000_0000_0000_0000 by { assert Pow16(20) == 0x1_0000_0000_0000_0000_0000; }
    assert Pow16(28) == 0x1_0000_0000_0000_0000_0000_0000_0000;
  }

  lemma VersionDigits(v: nat)
    ensures Hex(v, 32)[12] == '4' <==> Version(v) == 4
    ensures Hex(v, 32)[16] in {'8', '9', 'a', 'b'} <==> Variant(v) == 2
  {
    HexAt(v, 32, 19);
    HexAt(v, 32, 15);
    NibbleFacts(v / Pow16(19) % 16);
    NibbleFacts(v / Pow16(15) % 16);
  }

  lemma NibbleFacts(d: nat)
    requires d < 16
    ensures HEX[d] == '4' <==> d == 4
    ensures HEX[d] in {'8', '9', 'a', 'b'} <==> d / 4 == 2
  {
  }

  /** Printing a version-4 value gives an accepted id, and parsing that id gives the value back. */
  lemma PrintIsAccepted(v: nat)
    requires IsV4(v)
    ensures Print(v) != "" && ValidUuidOrEmpty(Print(v)) && CanonicalForm(Print(v)) && ParseId(Print(v)) == v
  {
    PowIs128();
    ParseInvertsHex(v, 32);
    DashedIsCanonical(Hex(v, 32));
    GroupsAreCanonical(Print(v));
    VersionDigits(v);
  }

  /** An accepted non-empty id is the print of the version-4 value it parses to. */
  lemma AcceptedIsPrint(id: string)
    requires id != "" && ValidUuidOrEmpty(id)
    ensures CanonicalForm(id) && IsV4(ParseId(id)) && Print(ParseId(id)) == id
  {
    GroupsAreCanonical(id);
    UndashedInverse(id);
    PowIs128();
    HexInvertsParse(Undashed(id));
    VersionDigits(ParseId(id));
  }

  /** The validator accepts exactly the canonical prints of version-4 UUIDs. */
  lemma AcceptsExactlyPrints(id: string)
    ensures ValidUuidOrEmpty(id) <==> id == "" || exists v :: IsV4(v) && Print(v) == id
  {
    if id != "" && ValidUuidOrEmpty(id) {
      AcceptedIsPrint(id);
    }
    if v :| IsV4(v) && Print(v) == id {
      PrintIsAccepted(v);
    }
  }

  /** So no UUID has two accepted spellings. */
  lemma OneSpellingPerUuid(a: string, b: string)
    requires a != "" && b != "" && ValidUuidOrEmpty(a) && ValidUuidOrEmpty(b)
    ensures CanonicalForm(a) && CanonicalForm(b) && (ParseId(a) == ParseId(b) <==> a == b)
  {
    AcceptedIsPrint(a);
    AcceptedIsPrint(b);
  }
}
