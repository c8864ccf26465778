/** String operations the components share: the global replace of the
    pattern `<[^>]*>` by the empty string, and the decimal rendering of a
    natural number that a template literal performs. A string is a sequence
    of UTF-16 code units, one `char` each. */
module Text {

  /** Index of the first occurrence of `c` in `s`. */
  function FirstIndexOf(s: string, c: char): (k: nat)
    requires c in s
    ensures k < |s| && s[k] == c
    ensures c !in s[..k]
  {
    if s[0] == c then 0
    else
      assert s == [s[0]] + s[1..];
      var k := FirstIndexOf(s[1..], c);
      assert s[..k + 1] == [s[0]] + s[1..][..k];
      k + 1
  }

  /** An occurrence with none before it is the first one. */
  lemma FirstIndexOfIs(s: string, c: char, k: nat)
    requires k < |s| && s[k] == c && c !in s[..k]
    ensures FirstIndexOf(s, c) == k
  {
    var f := FirstIndexOf(s, c);
    assert f <= k by {
      if f > k { assert false; }
    }
  }

  /** No `<` is followed, anywhere later, by a `>`: the string contains no
      span the tag pattern could match. */
  predicate TagFree(s: string)
  {
    forall i, j :: 0 <= i < j < |s| && s[i] == '<' ==> s[j] != '>'
  }

  /** `s.replace(/<[^>]*>/g, "")`. Scanning left to right, a `<` that has a
      `>` somewhere after it starts a match that runs to the FIRST such `>`
      (`[^>]*` cannot cross a `>`, and it may cross other `<`s); the whole
      span is dropped and scanning resumes after it. A `<` with no later `>`
      cannot start a match and is kept, like every other character. */
  function StripTags(s: string): (r: string)
    ensures |r| <= |s|
    ensures TagFree(r)
    ensures '>' !in s ==> r == s
    decreases |s|
  {
    if s == [] then []
    else if s[0] == '<' && '>' in s then
      StripTags(s[FirstIndexOf(s, '>') + 1..])
    else
      assert '>' !in s ==> '>' !in s[1..] by {
        assert forall k :: 0 <= k < |s[1..]| ==> s[1..][k] == s[k + 1];
      }
      var rest := StripTags(s[1..]);
      var r := [s[0]] + rest;
      assert TagFree(r) by {
        forall i, j | 0 <= i < j < |r| && r[i] == '<'
          ensures r[j] != '>'
        {
          if i == 0 {
            // s[0] == '<' was kept, so no '>' follows it and the rest is unchanged
            assert rest == s[1..];
            assert r[j] == s[j];
          } else {
            assert r[i] == rest[i - 1] && r[j] == rest[j - 1];
          }
        }
      }
      r
  }

  /** A leading tag, up to the first `>`, is dropped as one span. */
  lemma StripTagsDropsTag(s: string, k: nat)
    requires k < |s| && s[0] == '<' && s[k] == '>' && '>' !in s[..k]
    ensures StripTags(s) == StripTags(s[k + 1..])
  {
    FirstIndexOfIs(s, '>', k);
  }

  /** A tag-free string is exactly a string that stripping leaves unchanged. */
  lemma {:induction false} StripTagsFixedPoints(s: string)
    ensures StripTags(s) == s <==> TagFree(s)
    decreases |s|
  {
    if TagFree(s) && s != [] {
      assert TagFree(s[1..]) by {
        forall i, j | 0 <= i < j < |s[1..]| && s[1..][i] == '<'
          ensures s[1..][j] != '>'
        {
          assert s[i + 1] == '<';
        }
      }
      StripTagsFixedPoints(s[1..]);
      if s[0] == '<' {
        assert '>' !in s by {
          forall k | 0 <= k < |s| ensures s[k] != '>' {
            if k > 0 { assert s[0] == '<'; } else { assert s[0] != '>'; }
          }
        }
      }
      assert s == [s[0]] + s[1..];
    }
  }

  /** Stripping twice removes nothing more than stripping once. */
  lemma StripTagsIdempotent(s: string)
    ensures StripTags(StripTags(s)) == StripTags(s)
  {
    StripTagsFixedPoints(StripTags(s));
  }

  /** A string with no `<` at all contains no tag and passes through
      stripping unchanged. */
  lemma {:induction false} NoOpenBracketUnchanged(s: string)
    requires '<' !in s
    ensures TagFree(s)
    ensures StripTags(s) == s
  {
    StripTagsFixedPoints(s);
  }

  /** Every prefix of a tag-free string is tag-free. */
  lemma TagFreePrefix(s: string, n: nat)
    requires TagFree(s) && n <= |s|
    ensures TagFree(s[..n])
  {
    forall i, j | 0 <= i < j < n && s[..n][i] == '<'
      ensures s[..n][j] != '>'
    {
      assert s[i] == '<';
    }
  }

  predicate IsDigit(c: char)
  {
    '0' <= c <= '9'
  }

  predicate AllDigits(s: string)
  {
    forall i :: 0 <= i < |s| ==> IsDigit(s[i])
  }

  function DigitChar(d: nat): (c: char)
    requires d < 10
    ensures IsDigit(c) && c as int - '0' as int == d
  {
    (('0' as int) + d) as char
  }

  /** Numeric value of a string of decimal digits: the reference reading of
      a rendered number. */
  function DecimalValue(s: string): nat
    requires AllDigits(s)
  {
    if s == [] then 0
    else DecimalValue(s[..|s| - 1]) * 10 + (s[|s| - 1] as int - '0' as int)
  }

  /** `${n}` for a non-negative integer: its decimal digits, most significant
      first, without leading zeros. */
  function DecimalString(n: nat): (r: string)
    ensures |r| >= 1 && AllDigits(r)
    ensures |r| > 1 ==> r[0] != '0'
  {
    if n < 10 then [DigitChar(n)]
    else DecimalString(n / 10) + [DigitChar(n % 10)]
  }

  /** Reading back a rendered number gives the number. */
  lemma {:induction false} DecimalRoundTrip(n: nat)
    ensures DecimalValue(DecimalString(n)) == n
  {
    var r := DecimalString(n);
    if n >= 10 {
      DecimalRoundTrip(n / 10);
      assert r[..|r| - 1] == DecimalString(n / 10);
    }
  }

  /** Different numbers render differently. */
  lemma DecimalStringInjective(m: nat, n: nat)
    requires DecimalString(m) == DecimalString(n)
    ensures m == n
  {
    DecimalRoundTrip(m);
    DecimalRoundTrip(n);
  }
}
