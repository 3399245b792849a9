/**
 * The JavaScript string built-ins the menu relies on, as far as it uses them:
 * `String.prototype.trim` (applied to every navigation label before the
 * label is resolved) and the price text `preco.toFixed(2).replace('.', ',')`.
 * Prices are held as exact centavos, so `toFixed(2)` is modelled on whole
 * numbers and no floating-point rounding takes place.
 */
module JsText {
  import opened Wrappers

  // ---------------------------------------------------------------------------
  // String.prototype.trim
  // ---------------------------------------------------------------------------

  /** The WhiteSpace and LineTerminator code points of ECMAScript: what `trim` removes. */
  const TrimmableChars: set<char> :=
    {'\t', '\n', '\U{000B}', '\U{000C}', '\r', ' ', '\U{00A0}', '\U{1680}',
     '\U{2000}', '\U{2001}', '\U{2002}', '\U{2003}', '\U{2004}', '\U{2005}', '\U{2006}',
     '\U{2007}', '\U{2008}', '\U{2009}', '\U{200A}', '\U{2028}', '\U{2029}', '\U{202F}',
     '\U{205F}', '\U{3000}', '\U{FEFF}'}

  /** How many characters at the start of `s` belong to `ws`. */
  function LeadingRun(s: string, ws: set<char>): (n: nat)
    ensures n <= |s|
    ensures forall k :: 0 <= k < n ==> s[k] in ws
    ensures n < |s| ==> s[n] !in ws
  {
    if s == [] || s[0] !in ws then 0 else 1 + LeadingRun(s[1..], ws)
  }

  /** How many characters at the end of `s` belong to `ws`. */
  function TrailingRun(s: string, ws: set<char>): (n: nat)
    ensures n <= |s|
    ensures forall k :: |s| - n <= k < |s| ==> s[k] in ws
    ensures n < |s| ==> s[|s| - n - 1] !in ws
  {
    if s == [] || s[|s| - 1] !in ws then 0 else 1 + TrailingRun(s[..|s| - 1], ws)
  }

  /**
   * The part of `s` left once the longest prefix and then the longest suffix
   * drawn from `ws` are removed.
   */
  function TrimWith(s: string, ws: set<char>): (r: string)
    ensures var i := LeadingRun(s, ws);
            i + |r| <= |s| && r == s[i..i + |r|]
            && (forall k :: 0 <= k < i ==> s[k] in ws)
            && (forall k :: i + |r| <= k < |s| ==> s[k] in ws)
    ensures r != [] ==> r[0] !in ws && r[|r| - 1] !in ws
  {
    var i := LeadingRun(s, ws);
    var j := TrailingRun(s[i..], ws);
    assert forall k :: |s| - j <= k < |s| ==> s[k] in ws by {
      forall k | |s| - j <= k < |s| ensures s[k] in ws {
        assert s[k] == s[i..][k - i];
      }
    }
    assert |s| - j > i ==> s[|s| - j - 1] == s[i..][|s| - i - j - 1];
    s[i..|s| - j]
  }

  /** `s.trim()`. */
  function Trim(s: string): string {
    TrimWith(s, TrimmableChars)
  }

  /** A string that neither starts nor ends with a character of `ws` is left as it is. */
  lemma TrimOfClean(s: string, ws: set<char>)
    requires s != [] ==> s[0] !in ws && s[|s| - 1] !in ws
    ensures TrimWith(s, ws) == s
  {
    assert LeadingRun(s, ws) == 0;
    assert s[0..] == s;
  }

  /** Trimming twice is trimming once. */
  lemma TrimIdempotent(s: string)
    ensures Trim(Trim(s)) == Trim(s)
  {
    TrimOfClean(Trim(s), TrimmableChars);
  }

  // ---------------------------------------------------------------------------
  // Decimal digits
  // ---------------------------------------------------------------------------

  predicate IsDigit(c: char) {
    '0' <= c <= '9'
  }

  predicate AllDigits(s: string) {
    forall k :: 0 <= k < |s| ==> IsDigit(s[k])
  }

  function DigitChar(d: nat): (c: char)
    requires d < 10
    ensures IsDigit(c) && (c as int) - ('0' as int) == d
  {
    (('0' as int) + d) as char
  }

  /** The decimal numeral of `n`, without leading zeros (`String(n)`). */
  function NatToDecimal(n: nat): (s: string)
    ensures |s| >= 1 && AllDigits(s)
    ensures |s| > 1 ==> s[0] != '0'
  {
    if n < 10 then [DigitChar(n)] else NatToDecimal(n / 10) + [DigitChar(n % 10)]
  }

  /** The value of a string of decimal digits. */
  function DecimalToNat(s: string): nat
    requires AllDigits(s)
  {
    if s == [] then 0
    else DecimalToNat(s[..|s| - 1]) * 10 + ((s[|s| - 1] as int) - ('0' as int))
  }

  lemma {:induction false} DecimalRoundTrip(n: nat)
    ensures DecimalToNat(NatToDecimal(n)) == n
  {
    if n >= 10 {
      var s := NatToDecimal(n);
      assert s[..|s| - 1] == NatToDecimal(n / 10);
      DecimalRoundTrip(n / 10);
    }
  }

  // ---------------------------------------------------------------------------
  // preco.toFixed(2).replace('.', ',')
  // ---------------------------------------------------------------------------

  /** `x.toFixed(2)` for the non-negative amount `x = cents / 100`. */
  function ToFixed2(cents: nat): string {
    NatToDecimal(cents / 100) + "." + [DigitChar(cents / 10 % 10), DigitChar(cents % 10)]
  }

  /** `s.replace(from, to)` with a one-character pattern: only the first occurrence is replaced. */
  function ReplaceFirst(s: string, from: char, to: char): string {
    if s == [] then []
    else if s[0] == from then [to] + s[1..]
    else [s[0]] + ReplaceFirst(s[1..], from, to)
  }

  lemma {:induction false} ReplaceFirstAfter(p: string, q: string, from: char, to: char)
    requires from !in p
    ensures ReplaceFirst(p + [from] + q, from, to) == p + [to] + q
  {
    if p != [] {
      assert (p + [from] + q)[1..] == p[1..] + [from] + q;
      ReplaceFirstAfter(p[1..], q, from, to);
    }
  }

  /** The price text shown on a card, for a price of `cents` centavos. */
  function PriceText(cents: nat): string {
    ReplaceFirst(ToFixed2(cents), '.', ',')
  }

  /** Reads a price text back: digits, a comma, exactly two digits. */
  function ParsePrice(s: string): Option<nat> {
    if |s| >= 4 && s[|s| - 3] == ',' && AllDigits(s[..|s| - 3]) && AllDigits(s[|s| - 2..])
    then Some(DecimalToNat(s[..|s| - 3]) * 100 + DecimalToNat(s[|s| - 2..]))
    else None
  }

  /** The price text is the reais in decimal, a comma and exactly two centavo digits. */
  lemma PriceTextShape(cents: nat)
    ensures PriceText(cents)
            == NatToDecimal(cents / 100) + [','] + [DigitChar(cents / 10 % 10), DigitChar(cents % 10)]
  {
    var p := NatToDecimal(cents / 100);
    var q := [DigitChar(cents / 10 % 10), DigitChar(cents % 10)];
    assert forall k :: 0 <= k < |p| ==> p[k] != '.';
    assert ToFixed2(cents) == p + ['.'] + q;
    ReplaceFirstAfter(p, q, '.', ',');
  }

  /** A well-shaped price text reads back as reais times 100 plus centavos. */
  lemma {:induction false} ParseShaped(p: string, q: string)
    requires |p| >= 1 && AllDigits(p) && |q| == 2 && AllDigits(q)
    ensures ParsePrice(p + [','] + q) == Some(DecimalToNat(p) * 100 + DecimalToNat(q))
  {
    var s := p + [','] + q;
    assert s[..|s| - 3] == p;
    assert s[|s| - 2..] == q;
  }

  /** The value of two digits. */
  lemma TwoDigits(a: nat, b: nat)
    requires a < 10 && b < 10
    ensures DecimalToNat([DigitChar(a), DigitChar(b)]) == a * 10 + b
  {
    var q := [DigitChar(a), DigitChar(b)];
    assert q[..1] == [DigitChar(a)];
    assert [DigitChar(a)][..0] == [];
    assert DecimalToNat([DigitChar(a)]) == a;
  }

  /** No price is lost or altered on its way to the card: the text reads back as the same amount. */
  lemma PriceRoundTrip(cents: nat)
    ensures ParsePrice(PriceText(cents)) == Some(cents)
  {
    PriceTextShape(cents);
    ParseShaped(NatToDecimal(cents / 100), [DigitChar(cents / 10 % 10), DigitChar(cents % 10)]);
    DecimalRoundTrip(cents / 100);
    TwoDigits(cents / 10 % 10, cents % 10);
  }

  /** Two sample prices: 22.90 and 5.00. */
  lemma PriceExamples()
    ensures PriceText(2290) == "22,90"
    ensures PriceText(500) == "5,00"
  {
    PriceTextShape(2290);
    PriceTextShape(500);
  }
}
