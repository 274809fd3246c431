/** The license key field of the activation page
    (app/license/activate/page.tsx): every change of the field is
    reformatted as `SW-` followed by at most twenty letters and digits,
    upper-cased, in groups of four; activation first checks the key
    against the pattern SW-XXXX-XXXX-XXXX-XXXX-XXXX. */
module LicenseFormat {
  import opened Base

  const KEY_PREFIX := "SW-"
  const MAX_KEY_CHARS := 20
  const KEY_LENGTH := 27
  const FORMAT_ERROR := "Please enter a valid license key in format SW-XXXX-XXXX-XXXX-XXXX-XXXX"

  predicate IsUpperAlnum(c: char) { IsDigit(c) || IsUpperAlpha(c) }

  /** The letters and digits of `s`, in order. */
  function Alnums(s: string): (r: string)
    ensures |r| <= |s|
    ensures forall i :: 0 <= i < |r| ==> IsAsciiAlnum(r[i])
  {
    if s == [] then []
    else (if IsAsciiAlnum(s[0]) then [s[0]] else []) + Alnums(s[1..])
  }

  lemma {:induction false} AlnumsAppend(a: string, b: string)
    ensures Alnums(a + b) == Alnums(a) + Alnums(b)
  {
    if a == [] {
      assert a + b == b;
    } else {
      assert (a + b)[0] == a[0] && (a + b)[1..] == a[1..] + b;
      AlnumsAppend(a[1..], b);
    }
  }

  lemma {:induction false} AlnumsOfAlnums(s: string)
    requires forall i :: 0 <= i < |s| ==> IsAsciiAlnum(s[i])
    ensures Alnums(s) == s
  {
    if s != [] {
      AlnumsOfAlnums(s[1..]);
    }
  }

  /** `value.replace(/[^A-Z0-9]/gi, '').toUpperCase()`. */
  function Clean(value: string): (r: string)
    ensures forall i :: 0 <= i < |r| ==> IsUpperAlnum(r[i])
  {
    Upper(Alnums(value))
  }

  lemma UpperOfUpperAlnum(s: string)
    requires forall i :: 0 <= i < |s| ==> IsUpperAlnum(s[i])
    ensures Upper(s) == s
  {
  }

  /** `s` in groups of four joined by '-'. */
  function Chunks(s: string): (r: string)
    decreases |s|
  {
    if |s| <= 4 then s else s[..4] + "-" + Chunks(s[4..])
  }

  /** Appending one character adds a dash first after every fourth. */
  lemma {:induction false} ChunksSnoc(t: string, c: char)
    ensures Chunks(t + [c]) == Chunks(t) + (if |t| > 0 && |t| % 4 == 0 then "-" else "") + [c]
    decreases |t|
  {
    if |t| > 4 {
      assert (t + [c])[..4] == t[..4];
      assert (t + [c])[4..] == t[4..] + [c];
      ChunksSnoc(t[4..], c);
    } else if |t| == 4 {
      assert (t + [c])[..4] == t;
      assert (t + [c])[4..] == [c];
    }
  }

  /** Position by position: every fifth character is a dash, the rest are
      the characters of `t` in order. */
  lemma {:induction false} ChunksShape(t: string)
    requires |t| > 0
    ensures |Chunks(t)| == |t| + (|t| - 1) / 4
    ensures forall j :: 0 <= j < |Chunks(t)| ==>
      if j % 5 == 4 then Chunks(t)[j] == '-' else j - j / 5 < |t| && Chunks(t)[j] == t[j - j / 5]
    decreases |t|
  {
    if |t| > 4 {
      var rest := t[4..];
      ChunksShape(rest);
      var r := Chunks(t);
      assert r == t[..4] + "-" + Chunks(rest);
      forall j | 5 <= j < |r|
        ensures if j % 5 == 4 then r[j] == '-' else j - j / 5 < |t| && r[j] == t[j - j / 5]
      {
        var m := j - 5;
        assert r[j] == Chunks(rest)[m];
        assert m % 5 == j % 5 && m / 5 == j / 5 - 1;
      }
    }
  }

  lemma {:induction false} AlnumsOfChunks(t: string)
    requires forall i :: 0 <= i < |t| ==> IsAsciiAlnum(t[i])
    ensures Alnums(Chunks(t)) == t
    decreases |t|
  {
    if |t| <= 4 {
      AlnumsOfAlnums(t);
    } else {
      AlnumsOfChunks(t[4..]);
      AlnumsAppend(t[..4], "-" + Chunks(t[4..]));
      AlnumsAppend("-", Chunks(t[4..]));
      AlnumsOfAlnums(t[..4]);
      assert Chunks(t) == t[..4] + ("-" + Chunks(t[4..]));
      assert Alnums("-") == "";
      assert t == t[..4] + t[4..];
    }
  }

  function Min(a: int, b: int): int { if a < b then a else b }

  /** The formatted key: empty when the value has no letter or digit. */
  function KeyOf(value: string): string {
    var clean := Clean(value);
    if |clean| == 0 then "" else KEY_PREFIX + Chunks(clean[..Min(|clean|, MAX_KEY_CHARS)])
  }

  /** formatLicenseKey, with its loop over the first twenty characters. */
  method FormatLicenseKey(value: string) returns (formatted: string)
    ensures formatted == KeyOf(value)
  {
    var clean := Clean(value);
    if |clean| == 0 {
      return "";
    }
    formatted := KEY_PREFIX;
    var i := 0;
    while i < |clean| && i < MAX_KEY_CHARS
      invariant 0 <= i <= |clean| && i <= MAX_KEY_CHARS
      invariant formatted == KEY_PREFIX + Chunks(clean[..i])
    {
      ChunksSnoc(clean[..i], clean[i]);
      assert clean[..i + 1] == clean[..i] + [clean[i]];
      if i > 0 && i % 4 == 0 {
        formatted := formatted + "-";
      }
      formatted := formatted + [clean[i]];
      i := i + 1;
    }
  }

  /** `/^SW-[A-Z0-9]{4}-[A-Z0-9]{4}-[A-Z0-9]{4}-[A-Z0-9]{4}-[A-Z0-9]{4}$/`. */
  predicate MatchesKeyPattern(k: string) {
    && |k| == KEY_LENGTH
    && k[..3] == KEY_PREFIX
    && forall i :: 3 <= i < KEY_LENGTH ==>
         if (i - 3) % 5 == 4 then k[i] == '-' else IsUpperAlnum(k[i])
  }

  /** A formatted key passes the activation check exactly when the value
      held at least twenty letters and digits. */
  lemma FormattedKeyMatchesIffTwenty(value: string)
    ensures MatchesKeyPattern(KeyOf(value)) <==> |Alnums(value)| >= MAX_KEY_CHARS
  {
    var clean := Clean(value);
    if |clean| > 0 {
      var t := clean[..Min(|clean|, MAX_KEY_CHARS)];
      ChunksShape(t);
      var k := KeyOf(value);
      assert k == KEY_PREFIX + Chunks(t);
      if |clean| >= MAX_KEY_CHARS {
        assert k[..3] == KEY_PREFIX;
        forall i | 3 <= i < KEY_LENGTH
          ensures if (i - 3) % 5 == 4 then k[i] == '-' else IsUpperAlnum(k[i])
        {
          assert k[i] == Chunks(t)[i - 3];
        }
      }
    }
  }

  /** handleActivate's guard: a key off the pattern is refused with the
      format message before any license call; a key on it goes on to
      validation and activation, which are not part of this model. */
  function CheckFormat(key: string): (r: Result<string, string>)
    ensures r.Failure? <==> !MatchesKeyPattern(key)
    ensures r.Failure? ==> r.error == FORMAT_ERROR
    ensures r.Success? ==> r.value == key
  {
    if !MatchesKeyPattern(key) then Failure(FORMAT_ERROR) else Success(key)
  }

  /** The field reformats its whole current text on every change, and that
      text already starts with "SW-": typing "A" then "B" shows "SW-SWAB",
      not "SW-AB". */
  lemma TypingRepeatsThePrefix()
    ensures KeyOf("A") == "SW-A"
    ensures KeyOf(KeyOf("A") + "B") == "SW-SWAB"
  {
    assert Alnums("A") == "A";
    assert Alnums("SW-AB") == "SWAB" by {
      assert Alnums("AB") == "AB";
      assert Alnums("-AB") == "AB";
      assert Alnums("W-AB") == "WAB";
    }
    assert Upper("SWAB") == "SWAB";
    assert "SW-A" + "B" == "SW-AB";
  }

  /** The evident intent: a value that already carries the prefix is
      reformatted from what follows it. */
  function KeyOfFixed(value: string): string {
    KeyOf(if StartsWith(value, KEY_PREFIX) then value[|KEY_PREFIX|..] else value)
  }

  /** Reformatting a formatted key changes nothing. */
  lemma FixedFormatIsIdempotent(value: string)
    ensures KeyOfFixed(KeyOfFixed(value)) == KeyOfFixed(value)
  {
    var k := KeyOfFixed(value);
    if k != "" {
      var raw := if StartsWith(value, KEY_PREFIX) then value[|KEY_PREFIX|..] else value;
      var clean := Clean(raw);
      var t := clean[..Min(|clean|, MAX_KEY_CHARS)];
      assert k == KEY_PREFIX + Chunks(t);
      assert StartsWith(k, KEY_PREFIX) && k[|KEY_PREFIX|..] == Chunks(t);
      AlnumsOfChunks(t);
      UpperOfUpperAlnum(t);
      assert Clean(Chunks(t)) == t;
      assert t[..Min(|t|, MAX_KEY_CHARS)] == t;
    }
  }

  /** The corrected field still passes the activation check exactly when
      what follows any prefix holds at least twenty letters and digits. */
  lemma FixedKeyMatchesIffTwenty(value: string)
    ensures var raw := if StartsWith(value, KEY_PREFIX) then value[|KEY_PREFIX|..] else value;
      MatchesKeyPattern(KeyOfFixed(value)) <==> |Alnums(raw)| >= MAX_KEY_CHARS
  {
    FormattedKeyMatchesIffTwenty(if StartsWith(value, KEY_PREFIX) then value[|KEY_PREFIX|..] else value);
  }

  /** Typing "A" then "B" into the corrected field shows "SW-AB". */
  lemma FixedTypingKeepsOnePrefix()
    ensures KeyOfFixed(KeyOfFixed("A") + "B") == "SW-AB"
  {
    assert Alnums("A") == "A";
    assert Alnums("AB") == "AB";
    assert KeyOfFixed("A") == "SW-A";
    assert "SW-A" + "B" == "SW-AB";
    assert StartsWith("SW-AB", KEY_PREFIX);
    assert "SW-AB"[3..] == "AB";
    assert Upper("AB") == "AB";
  }
}
