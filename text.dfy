/**
  The string operations of Python that the scraper relies on, over `seq<char>`:
  `str.strip()` and `str.strip(chars)`, the substring test `sub in s`,
  `s.split(":")[-1]`, `str.isdigit()`, `int(s)` and the `{i:03d}` format.
  Only ASCII is modelled: the whitespace set is the ASCII part of Python's
  `str.isspace` and the digits are '0' to '9'.
 */
module Text {

  /** The ASCII characters Python's `str.strip()` removes:
      \t \n \v \f \r (9-13), the separators 0x1C-0x1F and the space. */
  const Whitespace: set<char> :=
    {9 as char, 10 as char, 11 as char, 12 as char, 13 as char,
     28 as char, 29 as char, 30 as char, 31 as char, ' '}

  predicate AllIn(s: string, chars: set<char>)
  {
    forall i :: 0 <= i < |s| ==> s[i] in chars
  }

  /** `s.strip(chars)`: `s` without the characters of `chars` at either end. */
  function StripChars(s: string, chars: set<char>): (r: string)
    ensures |r| <= |s|
    ensures r != [] ==> r[0] !in chars && r[|r| - 1] !in chars
    decreases |s|
  {
    if s != [] && s[0] in chars then StripChars(s[1..], chars)
    else if s != [] && s[|s| - 1] in chars then StripChars(s[..|s| - 1], chars)
    else s
  }

  /** `s` is `r` preceded by `k` characters of `chars` and followed only by characters of `chars`. */
  ghost predicate PaddedAt(s: string, r: string, chars: set<char>, k: int)
  {
    0 <= k <= |s| - |r| && s[k..k + |r|] == r && AllIn(s[..k], chars) && AllIn(s[k + |r|..], chars)
  }

  /** `s` is `r` with characters of `chars` added only at its two ends. */
  ghost predicate PaddedBy(s: string, r: string, chars: set<char>)
  {
    exists k :: PaddedAt(s, r, chars, k)
  }

  /** What `strip` removes are characters of `chars`, and only at the two ends. */
  lemma {:induction false} StripCharsPadded(s: string, chars: set<char>)
    ensures PaddedBy(s, StripChars(s, chars), chars)
    decreases |s|
  {
    var r := StripChars(s, chars);
    if s != [] && s[0] in chars {
      StripCharsPadded(s[1..], chars);
      var k :| PaddedAt(s[1..], r, chars, k);
      PaddedFront(s, r, chars, k);
    } else if s != [] && s[|s| - 1] in chars {
      StripCharsPadded(s[..|s| - 1], chars);
      var k :| PaddedAt(s[..|s| - 1], r, chars, k);
      PaddedBack(s, r, chars, k);
    } else {
      assert s[0..0 + |s|] == s;
      assert PaddedAt(s, r, chars, 0);
    }
  }

  lemma PaddedFront(s: string, r: string, chars: set<char>, k: int)
    requires s != [] && s[0] in chars && PaddedAt(s[1..], r, chars, k)
    ensures PaddedAt(s, r, chars, k + 1)
  {
  }

  lemma PaddedBack(s: string, r: string, chars: set<char>, k: int)
    requires s != [] && s[|s| - 1] in chars && PaddedAt(s[..|s| - 1], r, chars, k)
    ensures PaddedAt(s, r, chars, k)
  {
    var u := s[..|s| - 1];
    assert s[k..k + |r|] == u[k..k + |r|];
    assert s[..k] == u[..k];
    assert s[k + |r|..] == u[k + |r|..] + [s[|s| - 1]];
  }

  /** `s.strip()`. */
  function Strip(s: string): string
  {
    StripChars(s, Whitespace)
  }

  /** `strip` adds no character: one absent from `s` is absent from the result. */
  lemma {:induction false} StripCharsAbsent(s: string, chars: set<char>, c: char)
    requires c !in s
    ensures c !in StripChars(s, chars)
    decreases |s|
  {
    if s != [] && s[0] in chars {
      StripCharsAbsent(s[1..], chars, c);
    } else if s != [] && s[|s| - 1] in chars {
      StripCharsAbsent(s[..|s| - 1], chars, c);
    }
  }

  /** A string with no character of `chars` at either end is left as it is by `strip`. */
  lemma StripCharsOfStripped(s: string, chars: set<char>)
    requires s != [] ==> s[0] !in chars && s[|s| - 1] !in chars
    ensures StripChars(s, chars) == s
  {
  }

  /** Stripping `c` from `x` wrapped in one `c` on each side gives back `x`
      when `x` neither starts nor ends with `c`. */
  lemma StripWrapped(x: string, c: char)
    requires x != [] && x[0] != c && x[|x| - 1] != c
    ensures StripChars([c] + x + [c], {c}) == x
  {
    var q := [c] + x + [c];
    assert q[1..] == x + [c];
    assert (x + [c])[..|x|] == x;
    StripCharsOfStripped(x, {c});
    assert StripChars(x + [c], {c}) == x;
  }

  /** `strip` is idempotent. */
  lemma StripIdempotent(s: string)
    ensures Strip(Strip(s)) == Strip(s)
  {
  }

  /** Python's `sub in s`, searching from the left. */
  predicate Contains(s: string, sub: string)
    decreases |s|
  {
    (|sub| <= |s| && s[..|sub|] == sub) || (s != [] && Contains(s[1..], sub))
  }

  /** `sub` occurs in `s` starting at position `i`. */
  ghost predicate OccursAt(s: string, sub: string, i: int)
  {
    0 <= i <= |s| - |sub| && s[i..i + |sub|] == sub
  }

  /** `Contains` holds exactly when `sub` occurs at some position of `s`. */
  lemma {:induction false} ContainsAt(s: string, sub: string)
    ensures Contains(s, sub) <==> exists i :: OccursAt(s, sub, i)
    decreases |s|
  {
    if Contains(s, sub) {
      if |sub| <= |s| && s[..|sub|] == sub {
        assert OccursAt(s, sub, 0);
      } else {
        ContainsAt(s[1..], sub);
        var i :| OccursAt(s[1..], sub, i);
        assert s[i + 1..i + 1 + |sub|] == s[1..][i..i + |sub|];
        assert OccursAt(s, sub, i + 1);
      }
    }
    if exists i :: OccursAt(s, sub, i) {
      var i :| OccursAt(s, sub, i);
      if i == 0 {
        assert s[..|sub|] == sub;
      } else {
        assert s[1..][i - 1..i - 1 + |sub|] == s[i..i + |sub|];
        assert OccursAt(s[1..], sub, i - 1);
        ContainsAt(s[1..], sub);
      }
    }
  }

  /** `s.split(":")[-1]`: what follows the last colon, or all of `s` when it has none. */
  function AfterLastColon(s: string): (r: string)
    ensures ':' !in r
    ensures |r| <= |s| && r == s[|s| - |r|..]
    ensures |r| < |s| ==> s[|s| - |r| - 1] == ':'
    ensures ':' !in s ==> r == s
    decreases |s|
  {
    if s == [] then []
    else if s[|s| - 1] == ':' then []
    else
      var init := s[..|s| - 1];
      var p := AfterLastColon(init);
      assert s == init + [s[|s| - 1]];
      assert s[|s| - |p| - 1..] == init[|init| - |p|..] + [s[|s| - 1]];
      p + [s[|s| - 1]]
  }

  predicate IsDigit(c: char)
  {
    '0' <= c <= '9'
  }

  predicate AllDigits(s: string)
  {
    forall i :: 0 <= i < |s| ==> IsDigit(s[i])
  }

  /** Python's `str.isdigit()`: false on the empty string. */
  predicate IsDigits(s: string)
  {
    |s| > 0 && AllDigits(s)
  }

  function DigitValue(c: char): (d: nat)
    requires IsDigit(c)
    ensures d < 10
  {
    c as int - '0' as int
  }

  function DigitChar(d: nat): (c: char)
    requires d < 10
    ensures IsDigit(c) && DigitValue(c) == d
  {
    ('0' as int + d) as char
  }

  /** `int(s)` for a string of decimal digits; leading zeros are allowed. */
  function DigitsValue(s: string): nat
    requires AllDigits(s)
    decreases |s|
  {
    if s == [] then 0 else 10 * DigitsValue(s[..|s| - 1]) + DigitValue(s[|s| - 1])
  }

  /** `str(n)`: the decimal digits of `n` without leading zeros. */
  function Decimal(n: nat): (r: string)
    ensures IsDigits(r) && DigitsValue(r) == n
    ensures r[0] == '0' ==> n == 0
    decreases n
  {
    var d := DigitChar(n % 10);
    if n < 10 then [d]
    else
      var r := Decimal(n / 10) + [d];
      assert r[..|r| - 1] == Decimal(n / 10);
      r
  }

  /** `"0" * k`. */
  function Zeros(k: nat): string
  {
    seq(k, _ => '0')
  }

  /** Zeros in front of a digit string do not change its value. */
  lemma {:induction false} LeadingZeros(k: nat, s: string)
    requires AllDigits(s)
    ensures AllDigits(Zeros(k) + s) && DigitsValue(Zeros(k) + s) == DigitsValue(s)
    decreases |s|, k
  {
    var z := Zeros(k) + s;
    if s == [] {
      assert z == Zeros(k);
      if k > 0 {
        assert z[..|z| - 1] == Zeros(k - 1);
        LeadingZeros(k - 1, s);
        assert Zeros(k - 1) + s == Zeros(k - 1);
      }
    } else {
      assert z[..|z| - 1] == Zeros(k) + s[..|s| - 1];
      LeadingZeros(k, s[..|s| - 1]);
    }
  }

  /** `f'{n:0{width}d}'`: `str(n)` padded on the left with zeros to `width` characters. */
  function ZeroPad(n: nat, width: nat): (r: string)
    ensures IsDigits(r) && DigitsValue(r) == n
    ensures |r| == if |Decimal(n)| < width then width else |Decimal(n)|
  {
    var d := Decimal(n);
    if |d| < width then
      LeadingZeros(width - |d|, d);
      Zeros(width - |d|) + d
    else d
  }

  /** Below 10^3 a number has at most three decimal digits. */
  lemma {:induction false} DecimalLength(n: nat)
    ensures n < 10 ==> |Decimal(n)| == 1
    ensures n < 100 ==> |Decimal(n)| <= 2
    ensures n < 1000 ==> |Decimal(n)| <= 3
  {
    if n >= 10 {
      DecimalLength(n / 10);
    }
  }

  /** Two digit strings of the same length with the same value are the same string. */
  lemma {:induction false} DigitsInjective(s: string, t: string)
    requires AllDigits(s) && AllDigits(t) && |s| == |t|
    requires DigitsValue(s) == DigitsValue(t)
    ensures s == t
    decreases |s|
  {
    if s != [] {
      var n := |s| - 1;
      assert DigitValue(s[n]) == DigitsValue(s) % 10 == DigitValue(t[n]);
      assert DigitsValue(s[..n]) == DigitsValue(s) / 10 == DigitsValue(t[..n]);
      DigitsInjective(s[..n], t[..n]);
      assert s == s[..n] + [s[n]];
      assert t == t[..n] + [t[n]];
    }
  }

  /** A three-digit string is the zero-padded format of its own value. */
  lemma ThreeDigitsRoundTrip(s: string)
    requires |s| == 3 && AllDigits(s)
    ensures DigitsValue(s) < 1000 && ZeroPad(DigitsValue(s), 3) == s
  {
    var v := DigitsValue(s);
    assert s[..2][..1] == s[..1];
    assert s[..1][..0] == [];
    assert DigitsValue(s[..1]) == DigitValue(s[0]);
    assert DigitsValue(s[..2]) == 10 * DigitValue(s[0]) + DigitValue(s[1]);
    assert v == 100 * DigitValue(s[0]) + 10 * DigitValue(s[1]) + DigitValue(s[2]);
    DecimalLength(v);
    DigitsInjective(ZeroPad(v, 3), s);
  }
}
