/** Segment file names: zero-padded so that lexical order is numeric order. */
module SegmentName {
  import opened Options

  const U64_LIMIT := 0x1_0000_0000_0000_0000
  const PREFIX := "seg-"
  const SUFFIX := ".wal"
  const WIDTH := 20

  function DigitChar(d: nat): char
    requires d < 10
  {
    "0123456789"[d]
  }

  predicate IsDigit(c: char) { '0' <= c <= '9' }

  function DigitValue(c: char): nat
    requires IsDigit(c)
  {
    c as int - '0' as int
  }

  function Pow10(w: nat): nat { if w == 0 then 1 else 10 * Pow10(w - 1) }

  /** The last `width` decimal digits of `n`. */
  function Digits(n: nat, width: nat): (s: string)
    ensures |s| == width
  {
    if width == 0 then "" else Digits(n / 10, width - 1) + [DigitChar(n % 10)]
  }

  predicate AllDigits(s: string) { forall i | 0 <= i < |s| :: IsDigit(s[i]) }

  function Value(s: string): nat
    requires AllDigits(s)
  {
    if s == "" then 0 else 10 * Value(s[..|s| - 1]) + DigitValue(s[|s| - 1])
  }

  /** `str::parse::<u64>`: an optional plus sign, then at least one digit, without overflow. */
  function ParseU64(s: string): Option<nat> {
    var body := if s != "" && s[0] == '+' then s[1..] else s;
    if body == "" || !AllDigits(body) then None
    else if Value(body) < U64_LIMIT then Some(Value(body)) else None
  }

  function SegmentFileName(n: nat): string {
    PREFIX + Digits(n, WIDTH) + SUFFIX
  }

  function StripPrefix(s: string, p: string): Option<string> {
    if p <= s then Some(s[|p|..]) else None
  }

  function StripSuffix(s: string, p: string): Option<string> {
    if |p| <= |s| && s[|s| - |p|..] == p then Some(s[..|s| - |p|]) else None
  }

  function ParseSegmentSeq(name: string): Option<nat> {
    var rest := StripPrefix(name, PREFIX);
    if rest.None? then None
    else
      var body := StripSuffix(rest.value, SUFFIX);
      if body.None? then None else ParseU64(body.value)
  }

  // ---- round trip ---------------------------------------------------------

  lemma ValueOfDigit(d: nat)
    requires d < 10
    ensures IsDigit(DigitChar(d)) && DigitValue(DigitChar(d)) == d
  {
  }

  lemma ValueSnoc(s: string, c: char)
    requires AllDigits(s) && IsDigit(c)
    ensures AllDigits(s + [c]) && Value(s + [c]) == 10 * Value(s) + DigitValue(c)
  {
    assert (s + [c])[..|s|] == s;
  }

  lemma {:induction false} ValueOfDigits(n: nat, width: nat)
    requires n < Pow10(width)
    ensures AllDigits(Digits(n, width)) && Value(Digits(n, width)) == n
  {
    if width == 0 {
    } else {
      ValueOfDigits(n / 10, width - 1);
      ValueOfDigit(n % 10);
      ValueSnoc(Digits(n / 10, width - 1), DigitChar(n % 10));
    }
  }

  lemma EnoughDigits()
    ensures U64_LIMIT <= Pow10(WIDTH)
  {
    assert Pow10(5) == 100000;
    assert Pow10(10) == 10 * (10 * (10 * (10 * (10 * Pow10(5)))));
    assert Pow10(15) == 10 * (10 * (10 * (10 * (10 * Pow10(10)))));
    assert Pow10(20) == 10 * (10 * (10 * (10 * (10 * Pow10(15)))));
  }

  /** Every u64 segment number is read back from its file name. */
  lemma NameRoundTrip(n: nat)
    requires n < U64_LIMIT
    ensures ParseSegmentSeq(SegmentFileName(n)) == Some(n)
    ensures |SegmentFileName(n)| == 28 && SegmentFileName(n)[..4] == "seg-" && SegmentFileName(n)[24..] == ".wal"
  {
    EnoughDigits();
    ValueOfDigits(n, WIDTH);
    var digits, name := Digits(n, WIDTH), SegmentFileName(n);
    assert name[|PREFIX|..] == digits + SUFFIX;
    assert PREFIX <= name;
    assert (digits + SUFFIX)[|digits|..] == SUFFIX && (digits + SUFFIX)[..|digits|] == digits;
    assert IsDigit(digits[0]);
  }

  // ---- order --------------------------------------------------------------

  predicate LexLess(a: string, b: string) {
    b != "" && (a == "" || a[0] < b[0] || (a[0] == b[0] && LexLess(a[1..], b[1..])))
  }

  lemma {:induction false} LexSnoc(a: string, b: string, x: char, y: char)
    requires |a| == |b|
    ensures LexLess(a + [x], b + [y]) <==> LexLess(a, b) || (a == b && x < y)
  {
    if a == "" {
      assert a + [x] == [x] && b + [y] == [y];
      assert [x][1..] == "" && [y][1..] == "";
    } else {
      LexSnoc(a[1..], b[1..], x, y);
      assert (a + [x])[1..] == a[1..] + [x] && (b + [y])[1..] == b[1..] + [y];
      assert a == b <==> a[0] == b[0] && a[1..] == b[1..] by {
        assert a == [a[0]] + a[1..] && b == [b[0]] + b[1..];
      }
    }
  }

  lemma {:induction false} LexSuffix(a: string, b: string, s: string)
    requires |a| == |b|
    ensures LexLess(a + s, b + s) <==> LexLess(a, b)
    decreases |s|
  {
    if s == "" {
      assert a + s == a && b + s == b;
    } else {
      var n := |s| - 1;
      LexSuffix(a, b, s[..n]);
      LexSnoc(a + s[..n], b + s[..n], s[n], s[n]);
      assert a + s == (a + s[..n]) + [s[n]] && b + s == (b + s[..n]) + [s[n]];
    }
  }

  lemma {:induction false} LexPrefix(p: string, a: string, b: string)
    ensures LexLess(p + a, p + b) <==> LexLess(a, b)
  {
    if p == "" {
      assert p + a == a && p + b == b;
    } else {
      LexPrefix(p[1..], a, b);
      assert (p + a)[1..] == p[1..] + a && (p + b)[1..] == p[1..] + b;
    }
  }

  lemma {:induction false} DigitsOrder(n: nat, m: nat, width: nat)
    requires n < Pow10(width) && m < Pow10(width)
    ensures LexLess(Digits(n, width), Digits(m, width)) <==> n < m
    ensures Digits(n, width) == Digits(m, width) <==> n == m
  {
    if width == 0 {
    } else {
      DigitsOrder(n / 10, m / 10, width - 1);
      var a, b := Digits(n / 10, width - 1), Digits(m / 10, width - 1);
      LexSnoc(a, b, DigitChar(n % 10), DigitChar(m % 10));
      ValueOfDigits(n, width);
      ValueOfDigits(m, width);
    }
  }

  /** File names sort lexically in the order of their numbers, for every u64. */
  lemma NamesSortNumerically(n: nat, m: nat)
    requires n < U64_LIMIT && m < U64_LIMIT
    ensures LexLess(SegmentFileName(n), SegmentFileName(m)) <==> n < m
  {
    EnoughDigits();
    DigitsOrder(n, m, WIDTH);
    LexSuffix(Digits(n, WIDTH), Digits(m, WIDTH), SUFFIX);
    LexPrefix(PREFIX, Digits(n, WIDTH) + SUFFIX, Digits(m, WIDTH) + SUFFIX);
    assert SegmentFileName(n) == PREFIX + (Digits(n, WIDTH) + SUFFIX);
    assert SegmentFileName(m) == PREFIX + (Digits(m, WIDTH) + SUFFIX);
  }
}
