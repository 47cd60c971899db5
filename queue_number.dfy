/**
 * Display codes of tickets: an office prefix followed by a zero-padded
 * ordinal (`f"{prefix}{n:03d}"`), and the way the allocator reads an ordinal
 * back out of a stored code (`int(code.replace(prefix, ''))`).
 *
 * Python's `int()` also accepts a sign, surrounding whitespace and
 * underscores; here only a non-empty run of ASCII digits parses.
 */
module QueueNumber {
  import opened Basics

  predicate IsDigit(c: char) { '0' <= c <= '9' }

  predicate AllDigits(s: string) { forall i :: 0 <= i < |s| ==> IsDigit(s[i]) }

  function DigitValue(c: char): nat
    requires IsDigit(c)
  {
    (c as int) - ('0' as int)
  }

  function DigitChar(d: nat): (c: char)
    requires d < 10
    ensures IsDigit(c) && DigitValue(c) == d
  {
    (('0' as int) + d) as char
  }

  /** The value of a string of decimal digits, most significant digit first. */
  function DigitsValue(s: string): nat
    requires AllDigits(s)
    decreases |s|
  {
    if s == [] then 0 else DigitsValue(s[..|s| - 1]) * 10 + DigitValue(s[|s| - 1])
  }

  /** `int(s)` for the strings modelled here: the value of a non-empty digit string, otherwise nothing. */
  function ParseInt(s: string): Option<nat> {
    if |s| > 0 && AllDigits(s) then Some(DigitsValue(s)) else None
  }

  /**
   * Python's `s.replace(pat, '')`: every non-overlapping occurrence of `pat`,
   * found scanning left to right, is deleted. Replacing the empty string by
   * the empty string leaves `s` as it is.
   */
  function RemoveAll(s: string, pat: string): (r: string)
    ensures |r| <= |s|
    decreases |s|
  {
    if |pat| == 0 then s
    else if |pat| <= |s| && s[..|pat|] == pat then RemoveAll(s[|pat|..], pat)
    else if s == [] then []
    else [s[0]] + RemoveAll(s[1..], pat)
  }

  /** The ordinal the allocator reads from a stored display code, if the code parses. */
  function ParseOrdinal(code: string, prefix: string): Option<nat> {
    ParseInt(RemoveAll(code, prefix))
  }

  /** The shortest decimal spelling of `n`. */
  function Decimal(n: nat): (s: string)
    ensures |s| >= 1 && AllDigits(s)
    decreases n
  {
    if n < 10 then [DigitChar(n)] else Decimal(n / 10) + [DigitChar(n % 10)]
  }

  function Zeros(k: nat): (z: string)
    ensures |z| == k && AllDigits(z)
  {
    if k == 0 then [] else Zeros(k - 1) + ['0']
  }

  /** `f"{n:03d}"`: the decimal spelling of `n`, left-padded with zeros to at least three characters. */
  function Pad3(n: nat): string {
    var d := Decimal(n);
    if |d| < 3 then Zeros(3 - |d|) + d else d
  }

  /** The display code of ordinal `n` at an office whose prefix is `prefix`. */
  function QueueCode(prefix: string, n: nat): string {
    prefix + Pad3(n)
  }

  /** A prefix after which a padded ordinal reads back unchanged: empty, or not starting with a digit. */
  predicate ReadablePrefix(prefix: string) {
    prefix == [] || !IsDigit(prefix[0])
  }

  lemma {:induction false} DecimalValue(n: nat)
    ensures DigitsValue(Decimal(n)) == n
    decreases n
  {
    if n >= 10 {
      var d := Decimal(n);
      assert d[..|d| - 1] == Decimal(n / 10);
      DecimalValue(n / 10);
    }
  }

  lemma {:induction false} LeadingZerosValue(k: nat, s: string)
    requires AllDigits(s)
    ensures AllDigits(Zeros(k) + s) && DigitsValue(Zeros(k) + s) == DigitsValue(s)
    decreases |s|, k
  {
    var z := Zeros(k);
    assert AllDigits(z + s);
    if s == [] {
      assert z + s == z;
      if k > 0 {
        assert z[..|z| - 1] == Zeros(k - 1);
        LeadingZerosValue(k - 1, s);
        assert Zeros(k - 1) + s == Zeros(k - 1);
      }
    } else {
      assert (z + s)[..|z + s| - 1] == z + s[..|s| - 1];
      LeadingZerosValue(k, s[..|s| - 1]);
    }
  }

  /** Padding never changes the value: `int(f"{n:03d}") == n`. */
  lemma Pad3Parses(n: nat)
    ensures ParseInt(Pad3(n)) == Some(n)
  {
    var d := Decimal(n);
    DecimalValue(n);
    if |d| < 3 {
      LeadingZerosValue(3 - |d|, d);
    }
  }

  lemma {:induction false} DecimalLength(n: nat)
    ensures n < 10 ==> |Decimal(n)| == 1
    ensures 10 <= n < 100 ==> |Decimal(n)| == 2
    ensures 100 <= n < 1000 ==> |Decimal(n)| == 3
    ensures 1000 <= n < 10000 ==> |Decimal(n)| == 4
    decreases n
  {
    if n >= 10 {
      DecimalLength(n / 10);
    }
  }

  /** Ordinals up to 999 get exactly three digits; 1000, the scan's overflow value, gets four. */
  lemma Pad3Length(n: nat)
    ensures n <= 999 ==> |Pad3(n)| == 3
    ensures 1000 <= n <= 9999 ==> |Pad3(n)| == 4
  {
    DecimalLength(n);
  }

  /** A digit string holds no occurrence of a pattern that starts with a non-digit. */
  lemma {:induction false} RemoveAllFromDigits(s: string, pat: string)
    requires AllDigits(s) && pat != [] && !IsDigit(pat[0])
    ensures RemoveAll(s, pat) == s
    decreases |s|
  {
    if s != [] {
      if |pat| <= |s| {
        assert s[..|pat|][0] == s[0];
      }
      RemoveAllFromDigits(s[1..], pat);
      assert [s[0]] + s[1..] == s;
    }
  }

  /**
   * Round trip of the display code: stripping a readable prefix from
   * `prefix + f"{n:03d}"` and parsing what is left gives back `n`.
   */
  lemma QueueCodeRoundTrip(prefix: string, n: nat)
    requires ReadablePrefix(prefix)
    ensures ParseOrdinal(QueueCode(prefix, n), prefix) == Some(n)
  {
    var p := Pad3(n);
    Pad3Parses(n);
    if prefix != [] {
      var code := prefix + p;
      assert code[..|prefix|] == prefix;
      assert code[|prefix|..] == p;
      RemoveAllFromDigits(p, prefix);
    }
  }

  /** With a digit as prefix the round trip breaks: `"1001".replace("1", "")` is `"00"`. */
  lemma DigitPrefixBreaksRoundTrip()
    ensures QueueCode("1", 1) == "1001"
    ensures ParseOrdinal(QueueCode("1", 1), "1") == Some(0)
  {
    assert Decimal(1) == "1";
    assert Zeros(2) == "00" by {
      assert Zeros(1) == [] + ['0'];
    }
    assert Pad3(1) == "001";
    var code := "1001";
    assert code[..1] == "1";
    assert RemoveAll(code[1..], "1") == "00" by {
      assert code[1..] == "001";
      assert RemoveAll("1", "1") == [] by {
        assert "1"[..1] == "1";
        assert "1"[1..] == [];
      }
      assert "001"[1..] == "01";
      assert "01"[1..] == "1";
    }
    assert DigitsValue("00") == 0 by {
      assert "00"[..1] == "0";
      assert "0"[..0] == [];
    }
  }
}
