/** String helpers shared by the pages: the `\D` digit filter, `slice`,
    ASCII lower-casing, substring search and splitting a class attribute. */
module Text {

  predicate IsDigit(c: char) {
    '0' <= c <= '9'
  }

  predicate AllDigits(s: string) {
    forall k :: 0 <= k < |s| ==> IsDigit(s[k])
  }

  /** `s.replace(/\D/g, '')`: without the `u` flag, `\d` is exactly `[0-9]`. */
  function KeepDigits(s: string): string {
    if s == [] then [] else (if IsDigit(s[0]) then [s[0]] else []) + KeepDigits(s[1..])
  }

  /** `s.slice(0, n)` for a non-negative `n`. */
  function Take(s: string, n: nat): (r: string)
    ensures |r| <= n && |r| <= |s|
    ensures r == s[..|r|]
    ensures |s| <= n ==> r == s
  {
    if |s| <= n then s else s[..n]
  }

  /** The `onChange` filter of a digit-only input: strip non-digits, then truncate. */
  function DigitInput(raw: string, max: nat): string {
    Take(KeepDigits(raw), max)
  }

  lemma {:induction false} KeepDigitsAllDigits(s: string)
    ensures AllDigits(KeepDigits(s))
    ensures |KeepDigits(s)| <= |s|
    decreases |s|
  {
    if s != [] {
      KeepDigitsAllDigits(s[1..]);
    }
  }

  /** The filter is a homomorphism of concatenation: it works character by
      character, keeping the digits in their original order. */
  lemma {:induction false} KeepDigitsAppend(a: string, b: string)
    ensures KeepDigits(a + b) == KeepDigits(a) + KeepDigits(b)
    decreases |a|
  {
    if a == [] {
      assert a + b == b;
    } else {
      assert (a + b)[1..] == a[1..] + b;
      KeepDigitsAppend(a[1..], b);
    }
  }

  /** Every digit of the input survives, as often as it occurs; nothing else does. */
  lemma {:induction false} KeepDigitsCounts(s: string)
    ensures forall c :: IsDigit(c) ==> multiset(KeepDigits(s))[c] == multiset(s)[c]
    ensures forall c :: !IsDigit(c) ==> multiset(KeepDigits(s))[c] == 0
    decreases |s|
  {
    if s != [] {
      KeepDigitsCounts(s[1..]);
      assert s == [s[0]] + s[1..];
      assert multiset(s) == multiset([s[0]]) + multiset(s[1..]);
    }
  }

  /** A string is left unchanged by the filter exactly when it is all digits. */
  lemma {:induction false} KeepDigitsFixpoint(s: string)
    ensures KeepDigits(s) == s <==> AllDigits(s)
    decreases |s|
  {
    if s != [] {
      KeepDigitsFixpoint(s[1..]);
      KeepDigitsAllDigits(s[1..]);
      if !IsDigit(s[0]) {
        assert |KeepDigits(s)| < |s|;
      } else if KeepDigits(s) == s {
        assert KeepDigits(s[1..]) == s[1..];
      }
    }
  }

  /** What the digit-only input keeps: digits only, at most `max` of them,
      the leading ones of the filtered input. */
  lemma DigitInputShape(raw: string, max: nat)
    ensures AllDigits(DigitInput(raw, max))
    ensures |DigitInput(raw, max)| <= max
    ensures DigitInput(raw, max) == KeepDigits(raw)[..|DigitInput(raw, max)|]
    ensures |KeepDigits(raw)| <= max ==> DigitInput(raw, max) == KeepDigits(raw)
    ensures |KeepDigits(raw)| >= max ==> |DigitInput(raw, max)| == max
  {
    KeepDigitsAllDigits(raw);
  }

  /** An input is a fixed point of the filter exactly when it already is a
      digit string within the length limit. */
  lemma DigitInputFixpoint(s: string, max: nat)
    ensures DigitInput(s, max) == s <==> AllDigits(s) && |s| <= max
  {
    KeepDigitsFixpoint(s);
    KeepDigitsAllDigits(s);
    if DigitInput(s, max) == s {
      DigitInputShape(s, max);
    }
  }

  /** Filtering twice is filtering once. */
  lemma DigitInputIdempotent(raw: string, max: nat)
    ensures DigitInput(DigitInput(raw, max), max) == DigitInput(raw, max)
  {
    DigitInputShape(raw, max);
    DigitInputFixpoint(DigitInput(raw, max), max);
  }

  /** `c.toLowerCase()` restricted to ASCII. */
  function LowerChar(c: char): char {
    if 'A' <= c <= 'Z' then (c as int + 32) as char else c
  }

  function Lower(s: string): (r: string)
    ensures |r| == |s|
    ensures forall k :: 0 <= k < |s| ==> r[k] == LowerChar(s[k])
  {
    if s == [] then [] else [LowerChar(s[0])] + Lower(s[1..])
  }

  lemma LowerIdempotent(s: string)
    ensures Lower(Lower(s)) == Lower(s)
    ensures forall k :: 0 <= k < |s| ==> !('A' <= Lower(s)[k] <= 'Z')
  {
  }

  /** `p` occurs in `s` starting at position `i`. */
  predicate OccursAt(s: string, p: string, i: int) {
    0 <= i && i + |p| <= |s| && s[i..i + |p|] == p
  }

  /** `s.includes(p)`. */
  function Contains(s: string, p: string): bool
    decreases |s|
  {
    if |p| > |s| then false
    else if s[..|p|] == p then true
    else Contains(s[1..], p)
  }

  /** The scanning definition agrees with the positional one. */
  lemma {:induction false} ContainsIffOccurs(s: string, p: string)
    ensures Contains(s, p) <==> exists i :: OccursAt(s, p, i)
    decreases |s|
  {
    if |p| > |s| {
    } else if s[..|p|] == p {
      assert OccursAt(s, p, 0);
    } else {
      ContainsIffOccurs(s[1..], p);
      if Contains(s[1..], p) {
        var i :| OccursAt(s[1..], p, i);
        assert s[1..][i..i + |p|] == s[i + 1..i + 1 + |p|];
        assert OccursAt(s, p, i + 1);
      } else {
        forall i | OccursAt(s, p, i)
          ensures false
        {
          assert i != 0;
          assert s[1..][i - 1..i - 1 + |p|] == s[i..i + |p|];
          assert OccursAt(s[1..], p, i - 1);
        }
      }
    }
  }

  /** `/p/i.test(s)` for an ASCII pattern: a case-insensitive occurrence. */
  predicate ContainsIgnoringCase(s: string, p: string) {
    Contains(Lower(s), Lower(p))
  }

  /** A case-sensitive occurrence is also a case-insensitive one. */
  lemma ContainsIgnoringCaseOfContains(s: string, p: string)
    requires Contains(s, p)
    ensures ContainsIgnoringCase(s, p)
  {
    ContainsIffOccurs(s, p);
    var i :| OccursAt(s, p, i);
    assert Lower(s)[i..i + |p|] == Lower(p);
    assert OccursAt(Lower(s), Lower(p), i);
    ContainsIffOccurs(Lower(s), Lower(p));
  }

  /** `s.split(' ')`: the space-separated segments, empty ones included. */
  function Split(s: string): (r: seq<string>)
    ensures |r| >= 1
  {
    if s == [] then [""]
    else
      var rest := Split(s[1..]);
      if s[0] == ' ' then [""] + rest else [[s[0]] + rest[0]] + rest[1..]
  }

  lemma {:induction false} SplitAtSpace(a: string, b: string)
    ensures Split(a + " " + b) == Split(a) + Split(b)
    decreases |a|
  {
    if a == [] {
      assert a + " " + b == [' '] + b;
      assert ([' '] + b)[1..] == b;
    } else {
      assert (a + " " + b)[1..] == a[1..] + " " + b;
      SplitAtSpace(a[1..], b);
    }
  }

  lemma {:induction false} SplitWord(w: string)
    requires ' ' !in w
    ensures Split(w) == [w]
    decreases |w|
  {
    if w != [] {
      assert w[0] in w;
      assert forall k :: 0 <= k < |w[1..]| ==> w[1..][k] in w;
      SplitWord(w[1..]);
      assert w == [w[0]] + w[1..];
    }
  }

  /** `element.classList.contains(token)`: class tokens are the non-empty
      space-separated segments of the attribute. */
  predicate HasClass(className: string, token: string) {
    token != "" && token in Split(className)
  }
}
