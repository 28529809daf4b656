/** The text the carousel writes into its accessibility live region after a
    transition: "Slide {position} of {total}: {description}", where the
    description is the active slide's image alt text cut to at most 60
    characters plus an ellipsis. */
module Announcement {
  import opened Optional

  /** Longest alt text announced unshortened. */
  const AltTextMaxLength: nat := 60

  /** Appended to an alt text that was cut. */
  const Ellipsis: string := "..."

  /** The description part of the announcement: the alt text itself when it
      has at most 60 characters, otherwise its first 60 characters followed
      by "...". */
  function ShortAlt(alt: string): (r: string)
    ensures |alt| <= AltTextMaxLength ==> r == alt
    ensures |alt| > AltTextMaxLength ==>
      |r| == AltTextMaxLength + |Ellipsis| && r[..AltTextMaxLength] == alt[..AltTextMaxLength]
      && r[AltTextMaxLength..] == Ellipsis
    ensures |r| <= AltTextMaxLength + |Ellipsis|
  {
    if |alt| > AltTextMaxLength then alt[..AltTextMaxLength] + Ellipsis else alt
  }

  /** Shortening an already shortened description changes nothing: a cut text
      is 63 characters long, so it is cut again at the same place. */
  lemma ShortAltIdempotent(alt: string)
    ensures ShortAlt(ShortAlt(alt)) == ShortAlt(alt)
  {
    if |alt| > AltTextMaxLength {
      var s := ShortAlt(alt);
      assert s[..AltTextMaxLength] == alt[..AltTextMaxLength];
    }
  }

  predicate IsDigit(c: char)
  {
    '0' <= c <= '9'
  }

  predicate AllDigits(s: string)
  {
    forall k :: 0 <= k < |s| ==> IsDigit(s[k])
  }

  function DigitChar(d: nat): (c: char)
    requires d < 10
    ensures IsDigit(c) && c as int - '0' as int == d
  {
    "0123456789"[d]
  }

  function DigitValue(c: char): (d: nat)
    requires IsDigit(c)
  {
    c as int - '0' as int
  }

  /** The number a string of decimal digits denotes. */
  function DecimalValue(s: string): (n: nat)
    requires AllDigits(s)
  {
    if s == [] then 0 else 10 * DecimalValue(s[..|s| - 1]) + DigitValue(s[|s| - 1])
  }

  /** How a template literal renders a non-negative integer: its decimal
      digits without leading zeros. */
  function Decimal(n: nat): (r: string)
    ensures r != [] && AllDigits(r)
    ensures DecimalValue(r) == n
    ensures r[0] == '0' ==> n == 0
  {
    if n < 10 then [DigitChar(n)]
    else
      var front := Decimal(n / 10);
      assert (front + [DigitChar(n % 10)])[..|front|] == front;
      front + [DigitChar(n % 10)]
  }

  /** The live-region text for the slide at 0-based `index` of `total`. */
  function Text(index: nat, total: nat, alt: string): (r: string)
    ensures |r| > 6 + |ShortAlt(alt)| && r[..6] == "Slide "
    ensures r[|r| - |ShortAlt(alt)|..] == ShortAlt(alt)
  {
    var short := ShortAlt(alt);
    var r := "Slide " + (Decimal(index + 1) + " of " + Decimal(total) + ": ") + short;
    assert r[..6] == "Slide ";
    assert r[|r| - |short|..] == short;
    r
  }

  /** A string cut after its longest prefix of digits. */
  datatype Split = Split(digits: string, rest: string)

  function TakeDigits(s: string): (r: Split)
    ensures r.digits + r.rest == s
    ensures AllDigits(r.digits)
    ensures r.rest == [] || !IsDigit(r.rest[0])
  {
    if s == [] || !IsDigit(s[0]) then Split([], s)
    else
      var tail := TakeDigits(s[1..]);
      Split([s[0]] + tail.digits, tail.rest)
  }

  /** The cut is unique: digits followed by a non-digit split exactly there. */
  lemma {:induction false} TakeDigitsOf(d: string, rest: string)
    requires AllDigits(d)
    requires rest == [] || !IsDigit(rest[0])
    ensures TakeDigits(d + rest) == Split(d, rest)
  {
    if d == [] {
      assert d + rest == rest;
    } else {
      assert (d + rest)[0] == d[0];
      assert (d + rest)[1..] == d[1..] + rest;
      TakeDigitsOf(d[1..], rest);
      assert [d[0]] + d[1..] == d;
    }
  }

  /** What a listener learns from an announcement. */
  datatype Heard = Heard(position: nat, total: nat, description: string)

  /** Reads an announcement back: the inverse of `Text`. */
  function Parse(s: string): (h: Option<Heard>)
  {
    if |s| < 6 || s[..6] != "Slide " then None else ParsePosition(s[6..])
  }

  /** Reads "{position} of {total}: {description}". */
  function ParsePosition(s: string): (h: Option<Heard>)
  {
    var first := TakeDigits(s);
    if first.digits == [] || |first.rest| < 4 || first.rest[..4] != " of " then None
    else ParseTotal(DecimalValue(first.digits), first.rest[4..])
  }

  /** Reads "{total}: {description}" once the position is known. */
  function ParseTotal(position: nat, s: string): (h: Option<Heard>)
  {
    var second := TakeDigits(s);
    if second.digits == [] || |second.rest| < 2 || second.rest[..2] != ": " then None
    else Some(Heard(position, DecimalValue(second.digits), second.rest[2..]))
  }

  lemma ParseTotalOf(position: nat, d: string, description: string)
    requires d != [] && AllDigits(d)
    ensures ParseTotal(position, d + (": " + description))
         == Some(Heard(position, DecimalValue(d), description))
  {
    TakeDigitsOf(d, ": " + description);
  }

  lemma ParsePositionOf(d1: string, d2: string, description: string)
    requires d1 != [] && AllDigits(d1) && d2 != [] && AllDigits(d2)
    ensures ParsePosition(d1 + (" of " + (d2 + (": " + description))))
         == Some(Heard(DecimalValue(d1), DecimalValue(d2), description))
  {
    var tail := " of " + (d2 + (": " + description));
    TakeDigitsOf(d1, tail);
    assert tail[4..] == d2 + (": " + description);
    ParseTotalOf(DecimalValue(d1), d2, description);
  }

  /** The announcement states the 1-based position, the slide count and the
      shortened alt text, each recoverable from the text alone. */
  lemma ParseText(index: nat, total: nat, alt: string)
    ensures Parse(Text(index, total, alt)) == Some(Heard(index + 1, total, ShortAlt(alt)))
  {
    var d1, d2, short := Decimal(index + 1), Decimal(total), ShortAlt(alt);
    var body := d1 + (" of " + (d2 + (": " + short)));
    assert Text(index, total, alt) == "Slide " + body;
    ParsePositionOf(d1, d2, short);
  }

  /** Distinct positions or slide counts are always announced differently. */
  lemma TextDistinguishes(i: nat, n: nat, a: string, i': nat, n': nat, a': string)
    requires Text(i, n, a) == Text(i', n', a')
    ensures i == i' && n == n' && ShortAlt(a) == ShortAlt(a')
  {
    ParseText(i, n, a);
    ParseText(i', n', a');
  }

  /** However long the alt text, the description part of the announcement
      is at most 63 characters, so the whole text is bounded by the digits of
      the two numbers. */
  lemma TextBounded(index: nat, total: nat, alt: string)
    ensures |Text(index, total, alt)|
      <= 12 + |Decimal(index + 1)| + |Decimal(total)| + AltTextMaxLength + |Ellipsis|
  {
  }
}
