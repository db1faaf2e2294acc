/** Season arithmetic: the current season year, decimal rendering of years and the season key. */
module Seasons {
  import opened Seqs

  type Month = m: int | 1 <= m <= 12 witness 1

  /** The part of `datetime.now()` that the season computation reads. */
  datatype Date = Date(year: int, month: Month)

  /** `SeasonYear.default`: the starting year of the most recently started season. */
  function SeasonYear(today: Date): int {
    if today.month <= 9 then today.year - 1 else today.year
  }

  /** Season `y` is the current one from October of `y` through September of `y + 1`. */
  lemma SeasonYearCovers(today: Date, y: int)
    ensures SeasonYear(today) == y <==>
      (today.year == y && 10 <= today.month) || (today.year == y + 1 && today.month <= 9)
  {
  }

  predicate NotAfter(a: Date, b: Date) {
    a.year < b.year || (a.year == b.year && a.month <= b.month)
  }

  /** The current season year never goes backwards as the calendar advances. */
  lemma SeasonYearMonotonic(a: Date, b: Date)
    requires NotAfter(a, b)
    ensures SeasonYear(a) <= SeasonYear(b)
  {
  }

  // ---------------------------------------------------------------- decimal strings

  predicate IsDigit(c: char) { '0' <= c <= '9' }

  function Digit(d: nat): (c: char)
    requires d < 10
    ensures IsDigit(c)
  {
    ('0' as int + d) as char
  }

  /** `str(n)` for a non-negative integer. */
  function NatToString(n: nat): (s: string)
    ensures 1 <= |s|
  {
    if n < 10 then [Digit(n)] else NatToString(n / 10) + [Digit(n % 10)]
  }

  /** `int(s)` for a string of decimal digits (other characters are read by their code). */
  function ParseNat(s: string): int
    decreases |s|
  {
    if s == [] then 0
    else ParseNat(s[..|s| - 1]) * 10 + (s[|s| - 1] as int - '0' as int)
  }

  /** Rendering a number and reading it back gives the number. */
  lemma {:induction false} ParseNatToString(n: nat)
    ensures ParseNat(NatToString(n)) == n
  {
    var s := NatToString(n);
    if n >= 10 {
      assert s[..|s| - 1] == NatToString(n / 10);
      ParseNatToString(n / 10);
    }
  }

  /** `str(i)` for any integer. */
  function IntToString(i: int): string {
    if i < 0 then "-" + NatToString(-i) else NatToString(i)
  }

  /** `s[-2:]`: the last two characters, or the whole string when it is shorter. */
  function LastTwo(s: string): string {
    if |s| <= 2 then s else s[|s| - 2..]
  }

  /** `s[0:4]`: the first four characters, or the whole string when it is shorter. */
  function Prefix4(s: string): string {
    if |s| <= 4 then s else s[..4]
  }

  lemma LengthStep(n: nat)
    ensures n < 10 ==> |NatToString(n)| == 1
    ensures 10 <= n ==> |NatToString(n)| == |NatToString(n / 10)| + 1
  {
  }

  lemma FourDigits(n: nat)
    requires 1000 <= n <= 9999
    ensures |NatToString(n)| == 4
  {
    LengthStep(n);
    LengthStep(n / 10);
    LengthStep(n / 100);
    LengthStep(n / 1000);
    assert n / 10 / 10 == n / 100;
    assert n / 100 / 10 == n / 1000;
  }

  /** For a number of at least two digits, `str(n)[-2:]` is its tens digit and its units digit. */
  lemma LastTwoDigits(n: nat)
    requires 10 <= n
    ensures LastTwo(NatToString(n)) == [Digit(n / 10 % 10), Digit(n % 10)]
  {
    var p := NatToString(n / 10);
    assert NatToString(n) == p + [Digit(n % 10)];
    if n / 10 < 10 {
      assert p == [Digit(n / 10 % 10)];
    } else {
      assert p == NatToString(n / 10 / 10) + [Digit(n / 10 % 10)];
    }
    assert p[|p| - 1] == Digit(n / 10 % 10);
  }

  // ---------------------------------------------------------------- season keys

  /** `f"{str(y)}{str(y + 1)[-2:]}"`: the season key of the season starting in year `y`. */
  function SeasonKey(y: int): string {
    IntToString(y) + LastTwo(IntToString(y + 1))
  }

  /** The key of the current season. */
  function CurrentSeasonKey(today: Date): string {
    SeasonKey(SeasonYear(today))
  }

  /** For a four-digit year the key is six characters: the year followed by the zero-padded
      last two digits of the next year, and its first four characters parse back to the year. */
  lemma SeasonKeyShape(y: int)
    requires 1000 <= y <= 9999
    ensures |SeasonKey(y)| == 6
    ensures Prefix4(SeasonKey(y)) == IntToString(y)
    ensures SeasonKey(y)[4..] == [Digit((y + 1) / 10 % 10), Digit((y + 1) % 10)]
    ensures ParseNat(Prefix4(SeasonKey(y))) == y
  {
    FourDigits(y);
    LastTwoDigits(y + 1);
    ParseNatToString(y);
    var k := SeasonKey(y);
    assert k == NatToString(y) + [Digit((y + 1) / 10 % 10), Digit((y + 1) % 10)];
    assert k[..4] == NatToString(y);
  }

  /** The suffix is zero-padded: 2009 gives "200910" and 1999 gives "199900". */
  lemma SeasonKeyExamples()
    ensures SeasonKey(2009) == "200910"
    ensures SeasonKey(1999) == "199900"
    ensures SeasonKey(2020) == "202021"
  {
    SeasonKeyShape(2009);
    SeasonKeyShape(1999);
    SeasonKeyShape(2020);
    assert NatToString(2009) == "2009" by {
      assert NatToString(2) == "2";
      assert NatToString(20) == "20";
      assert NatToString(200) == "200";
    }
    assert NatToString(1999) == "1999" by {
      assert NatToString(1) == "1";
      assert NatToString(19) == "19";
      assert NatToString(199) == "199";
    }
    assert NatToString(2020) == "2020" by {
      assert NatToString(2) == "2";
      assert NatToString(20) == "20";
      assert NatToString(202) == "202";
    }
  }

  /** Distinct four-digit years have distinct keys. */
  lemma SeasonKeyInjective(y1: int, y2: int)
    requires 1000 <= y1 <= 9999 && 1000 <= y2 <= 9999
    requires SeasonKey(y1) == SeasonKey(y2)
    ensures y1 == y2
  {
    SeasonKeyShape(y1);
    SeasonKeyShape(y2);
  }

  /** `[f"{str(s)}{str(s + 1)[-2:]}" for s in range(lo, hi + 1)]`: one key per year from `lo`
      through `hi` inclusive, in ascending order of year. */
  function ExpectedKeys(lo: int, hi: int): (ks: seq<string>)
    ensures |ks| == if hi < lo then 0 else hi - lo + 1
  {
    seq(if hi < lo then 0 else hi - lo + 1, i => SeasonKey(lo + i))
  }

  /** The range grows by the key of its last year. */
  lemma ExpectedKeysSnoc(lo: int, hi: int)
    requires lo <= hi
    ensures ExpectedKeys(lo, hi) == ExpectedKeys(lo, hi - 1) + [SeasonKey(hi)]
  {
    var a, b := ExpectedKeys(lo, hi), ExpectedKeys(lo, hi - 1) + [SeasonKey(hi)];
    assert |a| == |b|;
    forall i | 0 <= i < |a| ensures a[i] == b[i] {
      if i < |a| - 1 {
        assert b[i] == ExpectedKeys(lo, hi - 1)[i];
      }
    }
  }

  /** Each expected key parses back to its year. */
  lemma ExpectedKeyYear(lo: int, hi: int, i: int)
    requires 1000 <= lo && hi <= 9999
    requires 0 <= i < |ExpectedKeys(lo, hi)|
    ensures ParseNat(Prefix4(ExpectedKeys(lo, hi)[i])) == lo + i
  {
    SeasonKeyShape(lo + i);
  }

  lemma ExpectedKeysDiffer(lo: int, hi: int, i: int, j: int)
    requires 1000 <= lo && hi <= 9999
    requires 0 <= i < j < |ExpectedKeys(lo, hi)|
    ensures ExpectedKeys(lo, hi)[i] != ExpectedKeys(lo, hi)[j]
  {
    ExpectedKeyYear(lo, hi, i);
    ExpectedKeyYear(lo, hi, j);
  }

  /** Over four-digit years the expected list holds no key twice. */
  lemma ExpectedKeysDistinct(lo: int, hi: int)
    requires 1000 <= lo && hi <= 9999
    ensures NoDuplicates(ExpectedKeys(lo, hi))
  {
    forall i, j | 0 <= i < j < |ExpectedKeys(lo, hi)| ensures ExpectedKeys(lo, hi)[i] != ExpectedKeys(lo, hi)[j] {
      ExpectedKeysDiffer(lo, hi, i, j);
    }
  }
}
