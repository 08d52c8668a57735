/** String operations the pages use: `toLowerCase`, `includes` and ordinal comparison
    (the model of `localeCompare` on fixed-width ISO dates). */
module Text {

  /** Lower-casing of one character (ASCII letters only). */
  function LowerChar(c: char): char {
    if 'A' <= c <= 'Z' then (c as int + 32) as char else c
  }

  /** `s.toLowerCase()`, character by character. */
  function Lower(s: string): (r: string)
    ensures |r| == |s|
  {
    seq(|s|, i requires 0 <= i < |s| => LowerChar(s[i]))
  }

  /** Lower-casing twice is lower-casing once. */
  lemma LowerIdempotent(s: string)
    ensures Lower(Lower(s)) == Lower(s)
  {
  }

  /** `sub[j..]` matches `s` from offset `i + j` on. */
  predicate MatchAt(s: string, sub: string, i: nat, j: nat)
    requires i + |sub| <= |s| && j <= |sub|
    decreases |sub| - j
  {
    j == |sub| || (s[i + j] == sub[j] && MatchAt(s, sub, i, j + 1))
  }

  /** `sub` occurs in `s` at some offset `>= i`. */
  predicate ContainsFrom(s: string, sub: string, i: nat)
    decreases |s| - i
  {
    i + |sub| <= |s| && (MatchAt(s, sub, i, 0) || ContainsFrom(s, sub, i + 1))
  }

  /** `s.includes(sub)`. */
  predicate Contains(s: string, sub: string) {
    ContainsFrom(s, sub, 0)
  }

  /** The reference meaning of `includes`: an occurrence at offset `i`. */
  ghost predicate OccursAt(s: string, sub: string, i: int) {
    0 <= i && i + |sub| <= |s| && s[i..i + |sub|] == sub
  }

  lemma {:induction false} MatchAtIff(s: string, sub: string, i: nat, j: nat)
    requires i + |sub| <= |s| && j <= |sub|
    ensures MatchAt(s, sub, i, j) <==> s[i + j..i + |sub|] == sub[j..]
    decreases |sub| - j
  {
    if j < |sub| {
      MatchAtIff(s, sub, i, j + 1);
      assert s[i + j..i + |sub|] == [s[i + j]] + s[i + j + 1..i + |sub|];
      assert sub[j..] == [sub[j]] + sub[j + 1..];
    }
  }

  lemma {:induction false} ContainsFromIff(s: string, sub: string, i: nat)
    ensures ContainsFrom(s, sub, i) <==> exists k :: i <= k && OccursAt(s, sub, k)
    decreases |s| - i
  {
    if i + |sub| <= |s| {
      MatchAtIff(s, sub, i, 0);
      ContainsFromIff(s, sub, i + 1);
      if OccursAt(s, sub, i) {
        assert i <= i && OccursAt(s, sub, i);
      }
      if exists k :: i <= k && OccursAt(s, sub, k) {
        var k :| i <= k && OccursAt(s, sub, k);
        assert k == i || (i + 1 <= k && OccursAt(s, sub, k));
      }
    }
  }

  /** `includes` holds exactly when there is an occurrence at some offset. */
  lemma ContainsIff(s: string, sub: string)
    ensures Contains(s, sub) <==> exists k :: OccursAt(s, sub, k)
  {
    ContainsFromIff(s, sub, 0);
  }

  /** Every string includes the empty string, so an empty search box matches everything. */
  lemma ContainsEmpty(s: string)
    ensures Contains(s, "")
  {
  }

  /** Ordinal (code-point) comparison of `a` and `b` from offset `i` on, the two agreeing before it. */
  predicate StrLeFrom(a: string, b: string, i: nat)
    decreases |a| - i
  {
    if |a| <= i then true
    else if |b| <= i then false
    else if a[i] != b[i] then a[i] < b[i]
    else StrLeFrom(a, b, i + 1)
  }

  /** Ordinal (code-point) comparison `a <= b`. */
  predicate StrLe(a: string, b: string) {
    StrLeFrom(a, b, 0)
  }

  /** Strict ordinal comparison `a < b`. */
  predicate StrLt(a: string, b: string) {
    !StrLe(b, a)
  }

  lemma {:induction false} StrLeFromTotal(a: string, b: string, i: nat)
    ensures StrLeFrom(a, b, i) || StrLeFrom(b, a, i)
    decreases |a| - i
  {
    if i < |a| && i < |b| && a[i] == b[i] { StrLeFromTotal(a, b, i + 1); }
  }

  lemma StrLeTotal(a: string, b: string)
    ensures StrLe(a, b) || StrLe(b, a)
  {
    StrLeFromTotal(a, b, 0);
  }

  lemma {:induction false} StrLeFromTransitive(a: string, b: string, c: string, i: nat)
    requires StrLeFrom(a, b, i) && StrLeFrom(b, c, i)
    ensures StrLeFrom(a, c, i)
    decreases |a| - i
  {
    if i < |a| && i < |b| && i < |c| && a[i] == b[i] && b[i] == c[i] {
      StrLeFromTransitive(a, b, c, i + 1);
    }
  }

  lemma StrLeTransitive(a: string, b: string, c: string)
    requires StrLe(a, b) && StrLe(b, c)
    ensures StrLe(a, c)
  {
    StrLeFromTransitive(a, b, c, 0);
  }

  lemma {:induction false} StrLeFromAntisymmetric(a: string, b: string, i: nat)
    requires i <= |a| && i <= |b| && a[..i] == b[..i]
    requires StrLeFrom(a, b, i) && StrLeFrom(b, a, i)
    ensures a == b
    decreases |a| - i
  {
    if i < |a| && i < |b| {
      assert a[..i + 1] == a[..i] + [a[i]] && b[..i + 1] == b[..i] + [b[i]];
      StrLeFromAntisymmetric(a, b, i + 1);
    } else {
      assert a == a[..i] && b == b[..i];
    }
  }

  lemma StrLeAntisymmetric(a: string, b: string)
    requires StrLe(a, b) && StrLe(b, a)
    ensures a == b
  {
    StrLeFromAntisymmetric(a, b, 0);
  }

  /** Strictly below means below and different. */
  lemma StrLtIff(a: string, b: string)
    ensures StrLt(a, b) <==> StrLe(a, b) && a != b
  {
    StrLeTotal(a, b);
    if StrLe(a, b) && StrLe(b, a) {
      StrLeAntisymmetric(a, b);
    }
    if a == b {
      StrLeTotal(a, a);
    }
  }

  /** The empty string (a missing `approvedDate` read as `""`) is below every string. */
  lemma EmptyIsLeast(s: string)
    ensures StrLe("", s)
  {
  }

  predicate IsDigit(c: char) {
    '0' <= c <= '9'
  }

  /** A fixed-width `YYYY-MM-DD` date string. */
  predicate IsIsoDate(s: string) {
    |s| == 10 && s[4] == '-' && s[7] == '-'
    && IsDigit(s[0]) && IsDigit(s[1]) && IsDigit(s[2]) && IsDigit(s[3])
    && IsDigit(s[5]) && IsDigit(s[6]) && IsDigit(s[8]) && IsDigit(s[9])
  }
}
