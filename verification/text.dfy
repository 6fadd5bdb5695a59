/** Byte-level string helpers the PHP endpoints rely on: digit runs, `(int)` casts of digit
    strings, `sprintf`-style decimal formatting, `trim`, ASCII case folding and `stripos`. */
module Text {

  predicate IsDigit(c: char) {
    '0' <= c <= '9'
  }

  predicate AllDigits(s: string) {
    forall i :: 0 <= i < |s| ==> IsDigit(s[i])
  }

  function DigitValue(c: char): int
    requires IsDigit(c)
  {
    c as int - '0' as int
  }

  function DigitChar(d: int): char
    requires 0 <= d <= 9
  {
    (d + '0' as int) as char
  }

  /** The value of a run of decimal digits, as PHP's `(int)` cast reads it. */
  function ParseDigits(s: string): nat
    requires AllDigits(s)
  {
    if |s| == 0 then 0 else ParseDigits(s[..|s| - 1]) * 10 + DigitValue(s[|s| - 1])
  }

  /** The shortest decimal spelling of `n`, without leading zeros. */
  function NatDigits(n: nat): (s: string)
    ensures 1 <= |s| && AllDigits(s)
  {
    if n < 10 then [DigitChar(n)] else NatDigits(n / 10) + [DigitChar(n % 10)]
  }

  /** A signed decimal, as `printf("%lld")` writes it. */
  function Decimal(n: int): string {
    if n < 0 then "-" + NatDigits(-n) else NatDigits(n)
  }

  /** `printf("%02d")` for a value in 0..99. */
  function Pad2(n: int): (s: string)
    requires 0 <= n <= 99
    ensures |s| == 2 && AllDigits(s)
  {
    [DigitChar(n / 10), DigitChar(n % 10)]
  }

  /** `printf("%04d")` for a value in 0..9999. */
  function Pad4(n: int): (s: string)
    requires 0 <= n <= 9999
    ensures |s| == 4 && AllDigits(s)
  {
    Pad2(n / 100) + Pad2(n % 100)
  }

  /** `printf("%s%04lld")` with the sign written apart, as PHP's `Y` date format writes a year. */
  function Pad4Signed(n: int): string {
    var a := if n < 0 then -n else n;
    (if n < 0 then "-" else "") + (if a <= 9999 then Pad4(a) else NatDigits(a))
  }

  lemma ParseTwo(s: string)
    requires |s| == 2 && AllDigits(s)
    ensures ParseDigits(s) == 10 * DigitValue(s[0]) + DigitValue(s[1])
  {
    assert s[..1][..0] == [];
    assert ParseDigits(s[..1]) == DigitValue(s[0]);
  }

  /** A four-digit run reads as a hundreds pair and a units pair. */
  lemma ParseFour(s: string)
    requires |s| == 4 && AllDigits(s)
    ensures ParseDigits(s) == 100 * ParseDigits(s[..2]) + ParseDigits(s[2..])
  {
    ParseTwo(s[..2]);
    ParseTwo(s[2..]);
    assert s[..3][..2] == s[..2];
    assert ParseDigits(s[..3]) == ParseDigits(s[..2]) * 10 + DigitValue(s[2]);
  }

  /** Two digits read back as the value they were written from, and conversely. */
  lemma Pad2RoundTrip(n: int, s: string)
    requires 0 <= n <= 99 && |s| == 2 && AllDigits(s)
    ensures ParseDigits(Pad2(n)) == n
    ensures ParseDigits(s) <= 99 && Pad2(ParseDigits(s)) == s
  {
    ParseTwo(Pad2(n));
    ParseTwo(s);
  }

  /** Four digits read back as the value they were written from, and conversely. */
  lemma Pad4RoundTrip(n: int, s: string)
    requires 0 <= n <= 9999 && |s| == 4 && AllDigits(s)
    ensures ParseDigits(Pad4(n)) == n
    ensures ParseDigits(s) <= 9999 && Pad4(ParseDigits(s)) == s
  {
    var p := Pad4(n);
    Pad2RoundTrip(n / 100, s[..2]);
    Pad2RoundTrip(n % 100, s[2..]);
    assert p[..2] == Pad2(n / 100) && p[2..] == Pad2(n % 100);
    ParseFour(p);
    ParseFour(s);
    var a, b := ParseDigits(s[..2]), ParseDigits(s[2..]);
    assert (100 * a + b) / 100 == a && (100 * a + b) % 100 == b;
    assert s == s[..2] + s[2..];
  }

  lemma NatDigitsTwo(m: int)
    requires 10 <= m <= 99
    ensures NatDigits(m) == Pad2(m)
  {
  }

  /** An unpadded decimal of a four-digit value is its four-digit spelling. */
  lemma DecimalFourDigits(n: int)
    requires 1000 <= n <= 9999
    ensures Decimal(n) == Pad4(n)
  {
    var q, r := n / 100, n % 100;
    assert n / 10 == 10 * q + r / 10;
    assert (n / 10) / 10 == q && (n / 10) % 10 == r / 10;
    assert n % 10 == r % 10;
    NatDigitsTwo(q);
    assert NatDigits(n / 10) == NatDigits(q) + [DigitChar(r / 10)];
  }

  /** Values below 1000 are written with at most three digits. */
  lemma ShortDigits(n: nat)
    ensures n < 10 ==> |NatDigits(n)| == 1
    ensures n < 100 ==> |NatDigits(n)| <= 2
    ensures n < 1000 ==> |NatDigits(n)| <= 3
  {
    if n >= 10 {
      ShortDigits(n / 10);
    }
  }

  /** The characters PHP's `trim` strips by default: space, tab, LF, CR, NUL and VT. */
  predicate IsTrimmed(c: char) {
    c == ' ' || c == '\t' || c == '\n' || c == '\r' || c == '\0' || c == '\U{000B}'
  }

  /** The first position at or after `i` whose character `trim` keeps, or the end. */
  function SkipLeft(s: string, i: nat): (k: nat)
    requires i <= |s|
    ensures i <= k <= |s| && (k < |s| ==> !IsTrimmed(s[k]))
    decreases |s| - i
  {
    if i < |s| && IsTrimmed(s[i]) then SkipLeft(s, i + 1) else i
  }

  /** The end, at most `j` and at least `lo`, of what `trim` keeps of `s[lo..j]`. */
  function SkipRight(s: string, lo: nat, j: nat): (k: nat)
    requires lo <= j <= |s|
    ensures lo <= k <= j && (lo < k ==> !IsTrimmed(s[k - 1]))
    decreases j
  {
    if lo < j && IsTrimmed(s[j - 1]) then SkipRight(s, lo, j - 1) else j
  }

  /** PHP's `trim`: `s` without its leading and trailing stripped characters. */
  function Trim(s: string): (r: string)
    ensures |r| <= |s|
    ensures |r| > 0 ==> !IsTrimmed(r[0]) && !IsTrimmed(r[|r| - 1])
  {
    var lo := SkipLeft(s, 0);
    s[lo..SkipRight(s, lo, |s|)]
  }

  /** Everything `SkipLeft` passes over is stripped. */
  lemma {:induction false} SkipLeftStripped(s: string, i: nat)
    requires i <= |s|
    ensures forall m :: i <= m < SkipLeft(s, i) ==> IsTrimmed(s[m])
    decreases |s| - i
  {
    if i < |s| && IsTrimmed(s[i]) {
      SkipLeftStripped(s, i + 1);
    }
  }

  /** Everything `SkipRight` passes over is stripped. */
  lemma {:induction false} SkipRightStripped(s: string, lo: nat, j: nat)
    requires lo <= j <= |s|
    ensures forall m :: SkipRight(s, lo, j) <= m < j ==> IsTrimmed(s[m])
    decreases j
  {
    if lo < j && IsTrimmed(s[j - 1]) {
      SkipRightStripped(s, lo, j - 1);
    }
  }

  /** `trim` keeps an infix of `s` and drops only stripped characters around it: it is the longest
      infix that neither starts nor ends with a stripped character. */
  lemma TrimSpec(s: string)
    ensures exists lo ::
      && InfixAt(Trim(s), s, lo)
      && (forall m :: 0 <= m < lo ==> IsTrimmed(s[m]))
      && (forall m :: lo + |Trim(s)| <= m < |s| ==> IsTrimmed(s[m]))
  {
    var lo := SkipLeft(s, 0);
    SkipLeftStripped(s, 0);
    SkipRightStripped(s, lo, |s|);
    assert InfixAt(Trim(s), s, lo);
  }

  /** Trimming a string that has nothing to strip leaves it as it is. */
  lemma TrimNoOp(s: string)
    requires |s| > 0 ==> !IsTrimmed(s[0]) && !IsTrimmed(s[|s| - 1])
    ensures Trim(s) == s
  {
    assert s[0..|s|] == s;
  }

  lemma TrimIdempotent(s: string)
    ensures Trim(Trim(s)) == Trim(s)
  {
    TrimNoOp(Trim(s));
  }

  function LowerChar(c: char): char {
    if 'A' <= c <= 'Z' then (c as int + 32) as char else c
  }

  /** ASCII-only lower-casing, as PHP 8's `strtolower` and `stripos` fold case. */
  function Lower(s: string): (r: string)
    ensures |r| == |s|
    ensures forall i :: 0 <= i < |s| ==> r[i] == LowerChar(s[i])
  {
    if |s| == 0 then "" else [LowerChar(s[0])] + Lower(s[1..])
  }

  /** The text without the spaces at its end. */
  function DropTrailingSpaces(s: string): string {
    if |s| > 0 && s[|s| - 1] == ' ' then DropTrailingSpaces(s[..|s| - 1]) else s
  }

  /** What is dropped is exactly the run of spaces at the end: the result is a prefix that does not
      end in a space, and everything after it is a space. */
  lemma {:induction false} TrailingSpacesDropped(s: string)
    ensures var r := DropTrailingSpaces(s);
      && r <= s && (|r| == 0 || r[|r| - 1] != ' ')
      && forall i :: |r| <= i < |s| ==> s[i] == ' '
    decreases |s|
  {
    if |s| > 0 && s[|s| - 1] == ' ' {
      TrailingSpacesDropped(s[..|s| - 1]);
    }
  }

  /** Spaces appended to a text are dropped again. */
  lemma {:induction false} PaddingDropped(s: string, pad: string)
    requires forall i :: 0 <= i < |pad| ==> pad[i] == ' '
    ensures DropTrailingSpaces(s + pad) == DropTrailingSpaces(s)
    decreases |pad|
  {
    if |pad| == 0 {
      assert s + pad == s;
    } else {
      assert (s + pad)[..|s + pad| - 1] == s + pad[..|pad| - 1];
      PaddingDropped(s, pad[..|pad| - 1]);
    }
  }

  /** What `utf8mb4_general_ci` compares, as far as ASCII goes: spaces at the end do not count (the
      collation pads the shorter text with spaces) and letters compare in lower case. */
  function CollationKey(s: string): string {
    if |s| > 0 && s[|s| - 1] == ' ' then CollationKey(s[..|s| - 1]) else Lower(s)
  }

  /** The key is the text with its trailing spaces dropped, then lower-cased. */
  lemma {:induction false} CollationKeyIs(s: string)
    ensures CollationKey(s) == Lower(DropTrailingSpaces(s))
    decreases |s|
  {
    if |s| > 0 && s[|s| - 1] == ' ' {
      CollationKeyIs(s[..|s| - 1]);
    }
  }

  /** Equality under `utf8mb4_general_ci`: the same collation key. */
  predicate CollationEqual(a: string, b: string) {
    CollationKey(a) == CollationKey(b)
  }

  /** Two texts that differ in the case of their ASCII letters or in spaces at the end compare
      equal. */
  lemma CollationEqualPadded(a: string, b: string, pad: string)
    requires |a| == |b| && forall i :: 0 <= i < |a| ==> LowerChar(a[i]) == LowerChar(b[i])
    requires forall i :: 0 <= i < |pad| ==> pad[i] == ' '
    ensures CollationEqual(a, b + pad)
  {
    PaddingDropped(b, pad);
    CaseFoldedKeysAgree(a, b);
    CollationKeyIs(a);
    CollationKeyIs(b);
    CollationKeyIs(b + pad);
  }

  /** Texts that agree letter by letter up to case keep agreeing once their trailing spaces go. */
  lemma CaseFoldedKeysAgree(a: string, b: string)
    requires |a| == |b| && forall i :: 0 <= i < |a| ==> LowerChar(a[i]) == LowerChar(b[i])
    ensures CollationKey(a) == CollationKey(b)
  {
    CollationKeyIs(a);
    CollationKeyIs(b);
    var ka, kb := DropTrailingSpaces(a), DropTrailingSpaces(b);
    TrailingSpacesDropped(a);
    TrailingSpacesDropped(b);
    // A space folds only to itself, so both texts end in the same run of spaces.
    assert |ka| == |kb|;
    assert Lower(ka) == Lower(kb);
  }

  /** `needle` is the slice of `hay` that starts at position `k`. */
  predicate InfixAt(needle: string, hay: string, k: int) {
    0 <= k <= |hay| - |needle| && hay[k..k + |needle|] == needle
  }

  /** `needle` occurs in `hay` at some position (the empty needle occurs everywhere). */
  predicate Occurs(needle: string, hay: string)
    decreases |hay|
  {
    needle <= hay || (|hay| > 0 && Occurs(needle, hay[1..]))
  }

  lemma {:induction false} OccursAt(needle: string, hay: string)
    ensures Occurs(needle, hay) <==> exists k :: InfixAt(needle, hay, k)
    decreases |hay|
  {
    if needle <= hay {
      assert InfixAt(needle, hay, 0);
    }
    if |hay| > 0 {
      OccursAt(needle, hay[1..]);
      if Occurs(needle, hay[1..]) {
        var k :| InfixAt(needle, hay[1..], k);
        assert InfixAt(needle, hay, k + 1);
      }
      if exists k :: InfixAt(needle, hay, k) {
        var k :| InfixAt(needle, hay, k);
        if k > 0 {
          assert InfixAt(needle, hay[1..], k - 1);
        }
      }
    }
  }

  /** `stripos($hay, $needle) !== false` with PHP 8's ASCII case folding. */
  predicate OccursIgnoringCase(needle: string, hay: string) {
    Occurs(Lower(needle), Lower(hay))
  }

  /** A PHP string that tests false in a boolean context: `""` and `"0"`. */
  predicate Falsy(s: string) {
    s == "" || s == "0"
  }
}
