/**
 * The .NET string and number primitives the record code relies on:
 * `String.Split(';')`, `String.Format` with ';' between fields,
 * `long.ToString()` and `long.Parse`, and zero-padded digit fields.
 */
module Text {
  import opened Common

  /** The field separator of both the storage format and the CSV export. */
  const Separator: char := ';'

  const MinLong: int := -0x8000_0000_0000_0000
  const MaxLong: int := 0x7FFF_FFFF_FFFF_FFFF

  predicate IsDigit(c: char) { '0' <= c <= '9' }

  predicate AllDigits(s: string) { forall i :: 0 <= i < |s| ==> IsDigit(s[i]) }

  function DigitChar(d: nat): (c: char)
    requires d < 10
    ensures IsDigit(c)
  {
    ('0' as int + d) as char
  }

  function DigitValue(c: char): (d: nat)
    requires IsDigit(c)
    ensures d < 10
  {
    c as int - '0' as int
  }

  /** The number a string of decimal digits denotes (leading zeros allowed). */
  function Value(s: string): nat
    requires AllDigits(s)
    decreases |s|
  {
    if s == [] then 0 else 10 * Value(s[..|s| - 1]) + DigitValue(s[|s| - 1])
  }

  function Pow10(w: nat): (p: nat)
    ensures p >= 1
  {
    if w == 0 then 1 else 10 * Pow10(w - 1)
  }

  /** Unpadded decimal text of a non-negative number, as `ToString()` prints it. */
  function Decimal(n: nat): (r: string)
    ensures |r| >= 1 && AllDigits(r)
    decreases n
  {
    if n < 10 then [DigitChar(n)] else Decimal(n / 10) + [DigitChar(n % 10)]
  }

  /** `long.ToString()`: a leading '-' for negative numbers, then the digits. */
  function LongText(n: int): (r: string)
    ensures Separator !in r
    ensures n >= 0 ==> r == Decimal(n)
  {
    if n < 0 then "-" + Decimal(-n) else Decimal(n)
  }

  /** The last `width` decimal digits of `n`, padded with leading zeros. */
  function Pad(n: nat, width: nat): (r: string)
    ensures |r| == width && AllDigits(r)
  {
    if width == 0 then [] else Pad(n / 10, width - 1) + [DigitChar(n % 10)]
  }

  /**
   * `long.Parse` on the invariant culture, reduced to an optional leading '-'
   * followed by one or more decimal digits. `None` stands for the exception
   * it throws on `null`, on a malformed string and on a value outside 64 bits.
   */
  function ParseLong(text: Option<string>): (r: Option<int>)
    ensures r.Some? ==> MinLong <= r.value <= MaxLong
    ensures r.Some? ==> text.Some? && |text.value| >= 1
  {
    match text
    case None => None
    case Some(s) =>
      if |s| >= 2 && s[0] == '-' && AllDigits(s[1..]) && -(Value(s[1..]) as int) >= MinLong then
        Some(-(Value(s[1..]) as int))
      else if |s| >= 1 && AllDigits(s) && Value(s) <= MaxLong then
        Some(Value(s))
      else
        None
  }

  lemma {:induction false} ValueOfDecimal(n: nat)
    ensures Value(Decimal(n)) == n
    decreases n
  {
    if n >= 10 {
      var s := Decimal(n);
      assert s[..|s| - 1] == Decimal(n / 10);
      ValueOfDecimal(n / 10);
    }
  }

  lemma {:induction false} ValueOfPad(n: nat, width: nat)
    requires n < Pow10(width)
    ensures Value(Pad(n, width)) == n
  {
    if width > 0 {
      var s := Pad(n, width);
      assert s[..|s| - 1] == Pad(n / 10, width - 1);
      ValueOfPad(n / 10, width - 1);
    }
  }

  /** A digit string is the padded text of its own value at its own width. */
  lemma {:induction false} PadOfValue(s: string)
    requires AllDigits(s)
    ensures Pad(Value(s), |s|) == s
    decreases |s|
  {
    if s != [] {
      var init, last := s[..|s| - 1], s[|s| - 1];
      assert AllDigits(init);
      PadOfValue(init);
      assert Value(s) / 10 == Value(init) && Value(s) % 10 == DigitValue(last);
      assert s == init + [last];
    }
  }

  /** Every 64-bit number's text parses back to the same number. */
  lemma ParseLongText(n: int)
    requires MinLong <= n <= MaxLong
    ensures ParseLong(Some(LongText(n))) == Some(n)
  {
    var s := LongText(n);
    if n < 0 {
      assert s[1..] == Decimal(-n);
      ValueOfDecimal(-n);
    } else {
      ValueOfDecimal(n);
    }
  }

  /** `String.Split(';')`: the pieces between separators, always at least one. */
  function Split(s: string): (r: seq<string>)
    ensures |r| >= 1
    ensures forall i :: 0 <= i < |r| ==> Separator !in r[i]
    decreases |s|
  {
    if s == [] then [""]
    else if s[0] == Separator then [""] + Split(s[1..])
    else
      var rest := Split(s[1..]);
      [[s[0]] + rest[0]] + rest[1..]
  }

  /** The fields written one after another with ';' between them. */
  function Join(fields: seq<string>): string
    requires |fields| >= 1
    decreases |fields|
  {
    if |fields| == 1 then fields[0] else fields[0] + [Separator] + Join(fields[1..])
  }

  lemma {:induction false} SplitNoSeparator(a: string)
    requires Separator !in a
    ensures Split(a) == [a]
    decreases |a|
  {
    if a != [] {
      assert Separator !in a[1..];
      SplitNoSeparator(a[1..]);
      assert [a[0]] + a[1..] == a;
    }
  }

  lemma {:induction false} SplitAfterField(a: string, b: string)
    requires Separator !in a
    ensures Split(a + [Separator] + b) == [a] + Split(b)
    decreases |a|
  {
    if a == [] {
      assert a + [Separator] + b == [Separator] + b;
      assert ([Separator] + b)[1..] == b;
    } else {
      var s := a + [Separator] + b;
      assert s[1..] == a[1..] + [Separator] + b;
      assert Separator !in a[1..];
      SplitAfterField(a[1..], b);
      assert [a[0]] + a[1..] == a;
    }
  }

  /** Splitting fields joined with ';' gives the fields back, when none holds a ';'. */
  lemma {:induction false} SplitJoin(fields: seq<string>)
    requires |fields| >= 1
    requires forall i :: 0 <= i < |fields| ==> Separator !in fields[i]
    ensures Split(Join(fields)) == fields
    decreases |fields|
  {
    if |fields| == 1 {
      SplitNoSeparator(fields[0]);
    } else {
      SplitAfterField(fields[0], Join(fields[1..]));
      SplitJoin(fields[1..]);
    }
  }
}
