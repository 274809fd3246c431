/** The application's 24-character identifiers (lib/ids.ts): the clock in
    base 36, left-padded with '0' to 8 digits, followed by 16 random base-36
    digits, cut to 24 characters. The clock reading and the 16 random draws
    (each `Math.floor(Math.random() * 36)`, so in 0..35) are parameters. */
module Ids {
  import opened Base
  import InputValidation

  const TIME_DIGITS := 8
  const RANDOM_DIGITS := 16
  const ID_LENGTH := 24

  function Pow(b: nat, k: nat): (r: nat)
    ensures b > 0 ==> r > 0
  {
    if k == 0 then 1 else b * Pow(b, k - 1)
  }

  /** The digit `d.toString(36)`. */
  function Base36Digit(d: nat): (c: char)
    requires d < 36
    ensures IsDigit(c) || IsLowerAlpha(c)
  {
    if d < 10 then (48 + d) as char else (97 + d - 10) as char
  }

  function Base36Value(c: char): nat {
    if IsDigit(c) then c as int - 48
    else if IsLowerAlpha(c) then c as int - 97 + 10
    else 0
  }

  lemma Base36DigitValue(d: nat)
    requires d < 36
    ensures Base36Value(Base36Digit(d)) == d
  {
  }

  lemma Base36DigitStrictlyMonotone(d: nat, e: nat)
    requires d < e < 36
    ensures Base36Digit(d) < Base36Digit(e)
  {
  }

  /** `n.toString(36)`. */
  function Base36(n: nat): (r: string)
    ensures |r| > 0
  {
    if n < 36 then [Base36Digit(n)] else Base36(n / 36) + [Base36Digit(n % 36)]
  }

  /** `s.padStart(width, c)`. */
  function PadStart(s: string, width: nat, c: char): (r: string)
    ensures |r| == if |s| >= width then |s| else width
  {
    if |s| >= width then s else seq(width - |s|, _ => c) + s
  }

  /** The last `k` base-36 digits of `n`, most significant first. */
  function Fixed(n: nat, k: nat): (r: string)
    ensures |r| == k
    ensures forall i :: 0 <= i < k ==> IsDigit(r[i]) || IsLowerAlpha(r[i])
  {
    if k == 0 then [] else Fixed(n / 36, k - 1) + [Base36Digit(n % 36)]
  }

  /** `parseInt(s, 36)` for a string of base-36 digits. */
  function ParseBase36(s: string): nat {
    if s == [] then 0 else ParseBase36(s[..|s| - 1]) * 36 + Base36Value(s[|s| - 1])
  }

  lemma {:induction false} Base36Length(n: nat, k: nat)
    requires 0 < k && n < Pow(36, k)
    ensures |Base36(n)| <= k
  {
    if n >= 36 {
      assert n / 36 < Pow(36, k - 1);
      Base36Length(n / 36, k - 1);
    }
  }

  /** Left-padding the base-36 numeral of a clock reading below 36^k to k
      digits gives its fixed-width numeral. */
  lemma {:induction false} PaddedIsFixed(n: nat, k: nat)
    requires 0 < k && n < Pow(36, k)
    ensures PadStart(Base36(n), k, '0') == Fixed(n, k)
  {
    if n < 36 {
      ZeroFixed(k - 1);
      assert n / 36 == 0;
      assert Fixed(n, k) == Fixed(0, k - 1) + [Base36Digit(n)];
    } else {
      assert n / 36 < Pow(36, k - 1);
      PaddedIsFixed(n / 36, k - 1);
      Base36Length(n / 36, k - 1);
      var b := Base36(n / 36);
      assert Base36(n) == b + [Base36Digit(n % 36)];
      assert PadStart(b + [Base36Digit(n % 36)], k, '0') == PadStart(b, k - 1, '0') + [Base36Digit(n % 36)];
    }
  }

  lemma {:induction false} ZeroFixed(k: nat)
    ensures Fixed(0, k) == seq(k, _ => '0')
  {
    if k > 0 {
      ZeroFixed(k - 1);
    }
  }

  /** The fixed-width numeral reads back as the number. */
  lemma {:induction false} ParseFixed(n: nat, k: nat)
    requires n < Pow(36, k)
    ensures ParseBase36(Fixed(n, k)) == n
  {
    if k > 0 {
      assert n / 36 < Pow(36, k - 1);
      ParseFixed(n / 36, k - 1);
      var f := Fixed(n, k);
      assert f[..|f| - 1] == Fixed(n / 36, k - 1);
      Base36DigitValue(n % 36);
    }
  }

  /** JavaScript's `<` on strings of ASCII characters. */
  predicate LexLess(a: string, b: string) {
    if b == [] then false
    else if a == [] then true
    else a[0] < b[0] || (a[0] == b[0] && LexLess(a[1..], b[1..]))
  }

  lemma {:induction false} LexLessAppend(p: string, q: string, c: char, d: char)
    requires |p| == |q|
    requires LexLess(p, q) || (p == q && c < d)
    ensures LexLess(p + [c], q + [d])
    decreases |p|
  {
    if p != [] {
      assert (p + [c])[1..] == p[1..] + [c];
      assert (q + [d])[1..] == q[1..] + [d];
      if p[0] == q[0] {
        LexLessAppend(p[1..], q[1..], c, d);
      }
    }
  }

  /** Later clock readings give strictly greater prefixes, so identifiers
      made in different milliseconds sort by time. */
  lemma {:induction false} FixedStrictlyMonotone(n: nat, m: nat, k: nat)
    requires 0 < k && n < m < Pow(36, k)
    ensures LexLess(Fixed(n, k), Fixed(m, k))
  {
    if n / 36 < m / 36 {
      assert m / 36 < Pow(36, k - 1);
      if k - 1 == 0 {
        assert false;
      }
      FixedStrictlyMonotone(n / 36, m / 36, k - 1);
      LexLessAppend(Fixed(n / 36, k - 1), Fixed(m / 36, k - 1), Base36Digit(n % 36), Base36Digit(m % 36));
    } else {
      assert n % 36 < m % 36;
      Base36DigitStrictlyMonotone(n % 36, m % 36);
      LexLessAppend(Fixed(n / 36, k - 1), Fixed(m / 36, k - 1), Base36Digit(n % 36), Base36Digit(m % 36));
    }
  }

  /** A strict lexicographic order between equal-length strings survives
      any suffixes. */
  lemma {:induction false} LexLessExtend(p: string, q: string, x: string, y: string)
    requires |p| == |q| && LexLess(p, q)
    ensures LexLess(p + x, q + y)
    decreases |p|
  {
    assert (p + x)[0] == p[0] && (q + y)[0] == q[0];
    if p[0] == q[0] {
      assert (p + x)[1..] == p[1..] + x;
      assert (q + y)[1..] == q[1..] + y;
      LexLessExtend(p[1..], q[1..], x, y);
    }
  }

  /** Whole identifiers sort by time: two ids whose prefixes are the fixed
      numerals of an earlier and a later clock reading (as `Ulid` makes
      them) compare in that order, whatever their random digits. */
  lemma LaterIdSortsAfter(a: string, b: string, n: nat, m: nat)
    requires |a| == ID_LENGTH && |b| == ID_LENGTH
    requires n < m < Pow(36, TIME_DIGITS)
    requires a[..TIME_DIGITS] == Fixed(n, TIME_DIGITS) && b[..TIME_DIGITS] == Fixed(m, TIME_DIGITS)
    ensures LexLess(a, b)
  {
    FixedStrictlyMonotone(n, m, TIME_DIGITS);
    LexLessExtend(a[..TIME_DIGITS], b[..TIME_DIGITS], a[TIME_DIGITS..], b[TIME_DIGITS..]);
    assert a == a[..TIME_DIGITS] + a[TIME_DIGITS..];
    assert b == b[..TIME_DIGITS] + b[TIME_DIGITS..];
  }

  /** `ulid()` at clock reading `now` with random draws `draws`. */
  method Ulid(now: nat, draws: seq<nat>) returns (id: string)
    requires |draws| == RANDOM_DIGITS
    requires forall i :: 0 <= i < |draws| ==> draws[i] < 36
    ensures |id| == ID_LENGTH
    ensures InputValidation.IsCanonicalUlid(id)
    ensures InputValidation.ValidateUlid(Str(id)) == InputValidation.Valid(id)
    ensures now < Pow(36, TIME_DIGITS) ==>
      id[..TIME_DIGITS] == Fixed(now, TIME_DIGITS) && ParseBase36(id[..TIME_DIGITS]) == now
    ensures now < Pow(36, TIME_DIGITS) ==>
      forall i :: 0 <= i < RANDOM_DIGITS ==> id[TIME_DIGITS + i] == Base36Digit(draws[i])
  {
    var t := PadStart(Base36(now), TIME_DIGITS, '0');
    var r := "";
    for i := 0 to RANDOM_DIGITS
      invariant |r| == i
      invariant forall j :: 0 <= j < i ==> r[j] == Base36Digit(draws[j])
    {
      r := r + [Base36Digit(draws[i])];
    }
    assert forall j :: 0 <= j < |t| ==> IsDigit(t[j]) || IsLowerAlpha(t[j]) by {
      Base36Chars(now);
    }
    id := (t + r)[..ID_LENGTH];
    InputValidation.ValidateUlidCanonical(id);
    if now < Pow(36, TIME_DIGITS) {
      PaddedIsFixed(now, TIME_DIGITS);
      ParseFixed(now, TIME_DIGITS);
      assert id[..TIME_DIGITS] == t;
    }
  }

  lemma {:induction false} Base36Chars(n: nat)
    ensures forall j :: 0 <= j < |Base36(n)| ==> IsDigit(Base36(n)[j]) || IsLowerAlpha(Base36(n)[j])
  {
    if n >= 36 {
      Base36Chars(n / 36);
    }
  }
}
