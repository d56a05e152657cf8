/** The quote of the day on the dashboard: today's ISO date with its dashes
    removed is read as a decimal number, and that number modulo the length of
    the built-in quote list picks the quote. */
module DailyQuote {
  import opened Common

  datatype FallbackQuote = FallbackQuote(text: string, author: string)

  /** The built-in quote list, in its order. */
  const FallbackQuotes: seq<FallbackQuote> := [
    FallbackQuote("Success is not final, failure is not fatal: it is the courage to continue that counts.", "Winston Churchill"),
    FallbackQuote("The only way to do great work is to love what you do.", "Steve Jobs"),
    FallbackQuote("Innovation distinguishes between a leader and a follower.", "Steve Jobs"),
    FallbackQuote("The future belongs to those who believe in the beauty of their dreams.", "Eleanor Roosevelt"),
    FallbackQuote("Don't watch the clock; do what it does. Keep going.", "Sam Levenson"),
    FallbackQuote("The only limit to our realization of tomorrow is our doubts of today.", "Franklin D. Roosevelt"),
    FallbackQuote("It does not matter how slowly you go as long as you do not stop.", "Confucius"),
    FallbackQuote("The way to get started is to quit talking and begin doing.", "Walt Disney"),
    FallbackQuote("The best way to predict the future is to invent it.", "Alan Kay"),
    FallbackQuote("Your time is limited, don't waste it living someone else's life.", "Steve Jobs"),
    FallbackQuote("The only person you are destined to become is the person you decide to be.", "Ralph Waldo Emerson"),
    FallbackQuote("What you get by achieving your goals is not as important as what you become by achieving your goals.", "Zig Ziglar"),
    FallbackQuote("The mind is everything. What you think you become.", "Buddha"),
    FallbackQuote("The future depends on what you do today.", "Mahatma Gandhi"),
    FallbackQuote("It always seems impossible until it's done.", "Nelson Mandela"),
    FallbackQuote("The only impossible journey is the one you never begin.", "Tony Robbins"),
    FallbackQuote("Success is walking from failure to failure with no loss of enthusiasm.", "Winston Churchill"),
    FallbackQuote("The difference between ordinary and extraordinary is that little extra.", "Jimmy Johnson"),
    FallbackQuote("Don't count the days, make the days count.", "Muhammad Ali"),
    FallbackQuote("The only way to achieve the impossible is to believe it is possible.", "Charles Kingsleigh")
  ]

  /** The length of the list, the modulus of the index. */
  const QuoteCount: nat := 20

  lemma FallbackQuotesLength()
    ensures |FallbackQuotes| == QuoteCount
  {
  }

  // ---------------------------------------------------------------------------
  // Decimal digits.

  predicate IsDigit(c: char)
  {
    '0' <= c <= '9'
  }

  predicate AllDigits(s: string)
  {
    forall k :: 0 <= k < |s| ==> IsDigit(s[k])
  }

  function DigitChar(n: nat): (c: char)
    requires n < 10
    ensures IsDigit(c)
  {
    ['0', '1', '2', '3', '4', '5', '6', '7', '8', '9'][n]
  }

  function DigitValue(c: char): (n: nat)
    requires IsDigit(c)
    ensures n < 10
  {
    c as int - '0' as int
  }

  function Pow10(k: nat): (p: nat)
    ensures p >= 1
  {
    if k == 0 then 1 else 10 * Pow10(k - 1)
  }

  /** `n` written with exactly `width` digits, padded with zeros in front. */
  function PadDigits(n: nat, width: nat): (s: string)
    ensures |s| == width && AllDigits(s)
  {
    if width == 0 then [] else PadDigits(n / 10, width - 1) + [DigitChar(n % 10)]
  }

  /** The value of a string of decimal digits. */
  function DigitsValue(s: string): nat
    requires AllDigits(s)
  {
    if s == [] then 0 else DigitsValue(s[..|s| - 1]) * 10 + DigitValue(s[|s| - 1])
  }

  /** Digits of the same value read back as that value. */
  lemma {:induction false} PadDigitsValue(n: nat, width: nat)
    requires n < Pow10(width)
    ensures DigitsValue(PadDigits(n, width)) == n
  {
    if width > 0 {
      var s := PadDigits(n, width);
      assert n / 10 < Pow10(width - 1);
      PadDigitsValue(n / 10, width - 1);
      assert s[..|s| - 1] == PadDigits(n / 10, width - 1);
      assert DigitValue(DigitChar(n % 10)) == n % 10 by {
        assert DigitChar(n % 10) as int == '0' as int + n % 10;
      }
    }
  }

  lemma AllDigitsAppend(a: string, b: string)
    requires AllDigits(a) && AllDigits(b)
    ensures AllDigits(a + b)
  {
    forall k | 0 <= k < |a + b|
      ensures IsDigit((a + b)[k])
    {
      if k < |a| { assert (a + b)[k] == a[k]; } else { assert (a + b)[k] == b[k - |a|]; }
    }
  }

  /** The value of a concatenation: the left part shifted by the right's width. */
  lemma {:induction false} DigitsValueAppend(a: string, b: string)
    requires AllDigits(a) && AllDigits(b)
    ensures AllDigits(a + b)
    ensures DigitsValue(a + b) == DigitsValue(a) * Pow10(|b|) + DigitsValue(b)
  {
    AllDigitsAppend(a, b);
    if b == [] {
      assert a + b == a;
    } else {
      var b' := b[..|b| - 1];
      assert AllDigits(b') by {
        forall k | 0 <= k < |b'| ensures IsDigit(b'[k]) { assert b'[k] == b[k]; }
      }
      AllDigitsAppend(a, b');
      assert (a + b)[..|a + b| - 1] == a + b';
      DigitsValueAppend(a, b');
      var c := DigitValue(b[|b| - 1]);
      assert DigitsValue(a + b) == DigitsValue(a + b') * 10 + c;
      assert DigitsValue(b) == DigitsValue(b') * 10 + c;
      assert Pow10(|b|) == 10 * Pow10(|b'|);
      ShiftStep(DigitsValue(a), Pow10(|b'|), DigitsValue(b'), c);
    }
  }

  lemma ShiftStep(va: nat, p: nat, vb: nat, c: nat)
    ensures (va * p + vb) * 10 + c == va * (10 * p) + (vb * 10 + c)
  {
  }

  // ---------------------------------------------------------------------------
  // The seed and the index.

  /** `toISOString().split("T")[0]` of a day in years 0 to 9999: YYYY-MM-DD. */
  function IsoDate(year: nat, month: nat, day: nat): string
  {
    PadDigits(year, 4) + "-" + PadDigits(month, 2) + "-" + PadDigits(day, 2)
  }

  /** `pieces.join("")`. */
  function Concat(pieces: seq<string>): string
  {
    if pieces == [] then [] else pieces[0] + Concat(pieces[1..])
  }

  /** `today.split("-").join("")`. */
  function Seed(today: string): string
  {
    Concat(Split(today, '-'))
  }

  /** The leading run of decimal digits of `s`. */
  function LeadingDigits(s: string): (r: string)
    ensures |r| <= |s| && AllDigits(r) && r == s[..|r|]
    ensures |r| < |s| ==> !IsDigit(s[|r|])
  {
    if s == [] || !IsDigit(s[0]) then []
    else
      var rest := LeadingDigits(s[1..]);
      assert [s[0]] + rest == s[..|rest| + 1];
      [s[0]] + rest
  }

  /** `parseInt` of a string that starts with a digit: the value of its leading
      digits; no leading digit gives NaN (None). */
  function ParseInt(s: string): Option<nat>
  {
    var digits := LeadingDigits(s);
    if digits == [] then None else Some(DigitsValue(digits))
  }

  /** `parseInt(seed) % fallbackQuotes.length`; NaN stays NaN. */
  function DailyQuoteIndex(today: string): (r: Option<nat>)
    ensures r.Some? ==> r.value < QuoteCount
  {
    var n := ParseInt(Seed(today));
    if n.Some? then Some(n.value % QuoteCount) else None
  }

  /** The quote shown for `today`: the list entry at the index; with NaN there
      is no entry. */
  function DailyQuoteFor(today: string): Option<FallbackQuote>
  {
    var i := DailyQuoteIndex(today);
    FallbackQuotesLength();
    if i.Some? then Some(FallbackQuotes[i.value]) else None
  }

  lemma {:induction false} LeadingDigitsOfDigits(s: string)
    requires AllDigits(s)
    ensures LeadingDigits(s) == s
  {
    if s != [] {
      assert AllDigits(s[1..]) by {
        forall k | 0 <= k < |s[1..]| ensures IsDigit(s[1..][k]) { assert s[1..][k] == s[k + 1]; }
      }
      LeadingDigitsOfDigits(s[1..]);
      assert [s[0]] + s[1..] == s;
    }
  }

  /** An ISO date splits on its two dashes into year, month and day. */
  lemma IsoDateSplit(year: nat, month: nat, day: nat)
    ensures Split(IsoDate(year, month, day), '-') == [PadDigits(year, 4), PadDigits(month, 2), PadDigits(day, 2)]
  {
    var y, m, d := PadDigits(year, 4), PadDigits(month, 2), PadDigits(day, 2);
    NoDashInDigits(y);
    NoDashInDigits(m);
    NoDashInDigits(d);
    var rest := m + ['-'] + d;
    assert IsoDate(year, month, day) == y + ['-'] + rest;
    SplitAtFirst(y, '-', rest);
    SplitAtFirst(m, '-', d);
    SplitNoSeparator(d, '-');
    assert Split(rest, '-') == [m, d];
  }

  /** A string of digits holds no dash. */
  lemma NoDashInDigits(s: string)
    requires AllDigits(s)
    ensures '-' !in s
  {
    assert !IsDigit('-');
  }

  /** Removing the dashes of an ISO date leaves its eight digits. */
  lemma SeedOfIsoDate(year: nat, month: nat, day: nat)
    ensures Seed(IsoDate(year, month, day)) == (PadDigits(year, 4) + PadDigits(month, 2)) + PadDigits(day, 2)
  {
    var y, m, d := PadDigits(year, 4), PadDigits(month, 2), PadDigits(day, 2);
    IsoDateSplit(year, month, day);
    assert [y, m, d][1..] == [m, d] && [m, d][1..] == [d] && [d][1..] == [];
    assert Concat([d]) == d + [] == d;
    assert Concat([m, d]) == m + d;
    assert Concat([y, m, d]) == y + (m + d);
  }

  /** The eight digits of a date read as YYYYMMDD. */
  lemma SeedValue(year: nat, month: nat, day: nat)
    requires year <= 9999 && month <= 99 && day <= 99
    ensures var s := (PadDigits(year, 4) + PadDigits(month, 2)) + PadDigits(day, 2);
            AllDigits(s) && DigitsValue(s) == year * 10000 + month * 100 + day
  {
    var y, m, d := PadDigits(year, 4), PadDigits(month, 2), PadDigits(day, 2);
    assert Pow10(2) == 100 && Pow10(4) == 10000;
    PadDigitsValue(year, 4);
    PadDigitsValue(month, 2);
    PadDigitsValue(day, 2);
    DigitsValueAppend(y, m);
    var ym := DigitsValue(y + m);
    assert ym == year * 100 + month;
    DigitsValueAppend(y + m, d);
    assert DigitsValue((y + m) + d) == ym * 100 + day;
  }

  /** `parseInt` of a string of digits is its value. */
  lemma ParseIntOfDigits(s: string)
    requires AllDigits(s) && s != []
    ensures ParseInt(s) == Some(DigitsValue(s))
  {
    LeadingDigitsOfDigits(s);
  }

  /** For a date of years 0 to 9999 the seed is the number YYYYMMDD, and the
      quote index is that number modulo 20, always an index of the list. */
  lemma DailyQuoteIndexOfDate(year: nat, month: nat, day: nat)
    requires year <= 9999 && month <= 99 && day <= 99
    ensures DailyQuoteIndex(IsoDate(year, month, day)) == Some((year * 10000 + month * 100 + day) % QuoteCount)
  {
    var s := (PadDigits(year, 4) + PadDigits(month, 2)) + PadDigits(day, 2);
    SeedOfIsoDate(year, month, day);
    SeedValue(year, month, day);
    ParseIntOfDigits(s);
  }

  /** Within a month, the next day shows the next quote of the list, wrapping
      from the last to the first. */
  lemma NextDayNextQuote(year: nat, month: nat, day: nat)
    requires year <= 9999 && month <= 99 && day < 99
    ensures DailyQuoteIndex(IsoDate(year, month, day + 1)).Some?
    ensures DailyQuoteIndex(IsoDate(year, month, day + 1)).value
            == (DailyQuoteIndex(IsoDate(year, month, day)).value + 1) % 20
  {
    var n := year * 10000 + month * 100 + day;
    DailyQuoteIndexOfDate(year, month, day);
    assert DailyQuoteIndex(IsoDate(year, month, day)) == Some(n % QuoteCount);
    DailyQuoteIndexOfDate(year, month, day + 1);
    assert year * 10000 + month * 100 + (day + 1) == n + 1;
    assert DailyQuoteIndex(IsoDate(year, month, day + 1)) == Some((n + 1) % QuoteCount);
    SuccessorMod(n);
  }

  lemma SuccessorMod(n: nat)
    ensures (n + 1) % QuoteCount == (n % QuoteCount + 1) % QuoteCount
  {
  }
}
