/** `formatNumber` of js/main.js: `num.toString()` followed by
    `.replace(/\B(?=(\d{3})+(?!\d))/g, ',')`, over natural numbers.

    The model has three layers:
    - `Digits` is `toString` for a natural number;
    - `InsertSeparators` is the global replace, stated for ANY string by
      what the regular expression matches at each position;
    - `Grouped` is an independent reference: split off the last three
      digits, group the rest, join with a comma.
    `InsertSeparatorsGrouped` proves the last two agree on digit strings. */
module NumberFormat {

  predicate IsDigit(c: char) { '0' <= c <= '9' }

  /** `\w` of a regular expression without the `u` flag: ASCII letters, digits, `_`. */
  predicate IsWordChar(c: char) {
    'a' <= c <= 'z' || 'A' <= c <= 'Z' || IsDigit(c) || c == '_'
  }

  predicate AllDigits(s: string) {
    forall i :: 0 <= i < |s| ==> IsDigit(s[i])
  }

  function DigitChar(d: nat): (c: char)
    requires d < 10
    ensures IsDigit(c)
  {
    (('0' as int) + d) as char
  }

  function DigitValue(c: char): nat
    requires IsDigit(c)
  {
    (c as int) - ('0' as int)
  }

  /** The number a decimal digit string denotes. */
  function Value(s: string): nat
    requires AllDigits(s)
  {
    if |s| == 0 then 0 else Value(s[..|s| - 1]) * 10 + DigitValue(s[|s| - 1])
  }

  function Pow10(k: nat): nat {
    if k == 0 then 1 else 10 * Pow10(k - 1)
  }

  /** `n.toString()`: the shortest decimal digit string of `n` (exact for n up to 2^53). */
  function Digits(n: nat): (s: string)
    ensures |s| >= 1 && AllDigits(s)
    ensures s[0] == '0' ==> n == 0
  {
    if n < 10 then [DigitChar(n)] else Digits(n / 10) + [DigitChar(n % 10)]
  }

  lemma {:induction false} DigitsValue(n: nat)
    ensures Value(Digits(n)) == n
  {
    if n >= 10 {
      var s := Digits(n);
      assert s[..|s| - 1] == Digits(n / 10);
      DigitsValue(n / 10);
    }
  }

  lemma {:induction false} Pow10Positive(k: nat)
    ensures Pow10(k) >= 1
  {
    if k > 0 {
      Pow10Positive(k - 1);
    }
  }

  /** `n.toString()` has at most k + 1 digits exactly when n < 10^(k+1). */
  lemma {:induction false} DigitsLength(n: nat, k: nat)
    ensures |Digits(n)| <= k + 1 <==> n < Pow10(k + 1)
  {
    Pow10Positive(k);
    if n >= 10 && k > 0 {
      DigitsLength(n / 10, k - 1);
      assert n / 10 < Pow10(k) <==> n < 10 * Pow10(k);
    }
  }

  // ---------------------------------------------------------------------------
  // The regular expression, position by position
  // ---------------------------------------------------------------------------

  /** `\B` at position i: the characters on both sides are both word
      characters or both not; the ends of the string count as non-word. */
  predicate NotWordBoundary(s: string, i: nat)
    requires i <= |s|
  {
    (i > 0 && IsWordChar(s[i - 1])) == (i < |s| && IsWordChar(s[i]))
  }

  /** `(?=(\d{3})+(?!\d))` at position i: one or more runs of three digits,
      for some number of runs followed by a non-digit or the end. */
  predicate DigitTriplesAhead(s: string, i: nat)
    requires i <= |s|
    decreases |s| - i
  {
    i + 3 <= |s| && IsDigit(s[i]) && IsDigit(s[i + 1]) && IsDigit(s[i + 2]) &&
    (i + 3 == |s| || !IsDigit(s[i + 3]) || DigitTriplesAhead(s, i + 3))
  }

  /** The whole pattern matches (with an empty match) at position i. */
  predicate SeparatorAt(s: string, i: nat)
    requires i <= |s|
  {
    NotWordBoundary(s, i) && DigitTriplesAhead(s, i)
  }

  /** The global replace from position i on: every position where the
      pattern matches gets a comma, every character is copied. */
  function ReplaceFrom(s: string, i: nat): string
    requires i <= |s|
    decreases |s| - i
  {
    (if SeparatorAt(s, i) then "," else "") +
    (if i == |s| then "" else [s[i]] + ReplaceFrom(s, i + 1))
  }

  function InsertSeparators(s: string): string {
    ReplaceFrom(s, 0)
  }

  /** Reference grouping: the last three digits form a group, the rest is grouped the same way. */
  function Grouped(s: string): string
  {
    if |s| <= 3 then s else Grouped(s[..|s| - 3]) + "," + s[|s| - 3..]
  }

  lemma {:induction false} TriplesAheadInDigits(s: string, i: nat)
    requires AllDigits(s) && i <= |s|
    ensures DigitTriplesAhead(s, i) <==> i < |s| && (|s| - i) % 3 == 0
    decreases |s| - i
  {
    if i + 3 <= |s| {
      TriplesAheadInDigits(s, i + 3);
    }
  }

  /** On a digit string the pattern matches exactly at the inner positions
      followed by a positive multiple of three digits. */
  lemma SeparatorAtInDigits(s: string, i: nat)
    requires AllDigits(s) && i <= |s|
    ensures SeparatorAt(s, i) <==> 0 < i < |s| && (|s| - i) % 3 == 0
  {
    TriplesAheadInDigits(s, i);
  }

  /** A string of at most three digits is left alone. */
  lemma {:induction false} ReplaceShort(s: string, i: nat)
    requires AllDigits(s) && |s| <= 3 && i <= |s|
    ensures ReplaceFrom(s, i) == s[i..]
    decreases |s| - i
  {
    SeparatorAtInDigits(s, i);
    if i < |s| {
      ReplaceShort(s, i + 1);
    }
  }

  /** At the end of a non-empty digit string, three appended digits come out as `,ddd`. */
  lemma ReplaceAppendTail(a: string, b: string)
    requires AllDigits(a) && AllDigits(b) && |a| > 0 && |b| == 3
    ensures ReplaceFrom(a + b, |a|) == [',', b[0], b[1], b[2]]
  {
    var s, i := a + b, |a|;
    assert AllDigits(s);
    SeparatorAtInDigits(s, i);
    SeparatorAtInDigits(s, i + 1);
    SeparatorAtInDigits(s, i + 2);
    SeparatorAtInDigits(s, i + 3);
    assert ReplaceFrom(s, i + 3) == "";
    assert ReplaceFrom(s, i + 2) == [b[2]];
    assert ReplaceFrom(s, i + 1) == [b[1], b[2]];
  }

  /** Appending three digits to a non-empty digit string adds one group. */
  lemma {:induction false} ReplaceAppendGroup(a: string, b: string, i: nat)
    requires AllDigits(a) && AllDigits(b) && |a| > 0 && |b| == 3 && i <= |a|
    ensures ReplaceFrom(a + b, i) == ReplaceFrom(a, i) + "," + b
    decreases |a| - i
  {
    if i < |a| {
      var s := a + b;
      assert AllDigits(s);
      SeparatorAtInDigits(s, i);
      SeparatorAtInDigits(a, i);
      ReplaceAppendGroup(a, b, i + 1);
      assert s[i] == a[i];
    } else {
      SeparatorAtInDigits(a, i);
      assert ReplaceFrom(a, i) == "";
      ReplaceAppendTail(a, b);
    }
  }

  /** The regular-expression replace and the reference grouping agree on digit strings. */
  lemma {:induction false} InsertSeparatorsGrouped(s: string)
    requires AllDigits(s)
    ensures InsertSeparators(s) == Grouped(s)
    decreases |s|
  {
    if |s| <= 3 {
      ReplaceShort(s, 0);
    } else {
      var a, b := s[..|s| - 3], s[|s| - 3..];
      assert s == a + b;
      ReplaceAppendGroup(a, b, 0);
      InsertSeparatorsGrouped(a);
    }
  }

  // ---------------------------------------------------------------------------
  // Reading the result back
  // ---------------------------------------------------------------------------

  /** Deletes every comma. */
  function RemoveSeparators(t: string): (r: string)
    ensures |r| <= |t|
  {
    if |t| == 0 then ""
    else (if t[0] == ',' then "" else [t[0]]) + RemoveSeparators(t[1..])
  }

  lemma {:induction false} RemoveSeparatorsAppend(x: string, y: string)
    ensures RemoveSeparators(x + y) == RemoveSeparators(x) + RemoveSeparators(y)
    decreases |x|
  {
    if |x| == 0 {
      assert x + y == y;
    } else {
      assert (x + y)[0] == x[0];
      assert (x + y)[1..] == x[1..] + y;
      RemoveSeparatorsAppend(x[1..], y);
    }
  }

  lemma {:induction false} RemoveSeparatorsDigits(s: string)
    requires AllDigits(s)
    ensures RemoveSeparators(s) == s
    decreases |s|
  {
    if |s| > 0 {
      RemoveSeparatorsDigits(s[1..]);
    }
  }

  /** Deleting the commas of the grouped form gives the digits back. */
  lemma {:induction false} GroupedRemoveSeparators(s: string)
    requires AllDigits(s)
    ensures RemoveSeparators(Grouped(s)) == s
    decreases |s|
  {
    if |s| <= 3 {
      RemoveSeparatorsDigits(s);
    } else {
      var a, b := s[..|s| - 3], s[|s| - 3..];
      var ga := Grouped(a);
      assert Grouped(s) == (ga + ",") + b;
      GroupedRemoveSeparators(a);
      RemoveSeparatorsDigits(b);
      assert RemoveSeparators(",") == "";
      calc {
        RemoveSeparators(Grouped(s));
        { RemoveSeparatorsAppend(ga + ",", b); }
        RemoveSeparators(ga + ",") + RemoveSeparators(b);
        { RemoveSeparatorsAppend(ga, ","); }
        a + b;
        { assert s == a + b; }
        s;
      }
    }
  }

  /** `t.split(',')`: the pieces between commas, in order. */
  function Split(t: string): (r: seq<string>)
    ensures |r| >= 1
  {
    if |t| == 0 then [""]
    else if t[0] == ',' then [""] + Split(t[1..])
    else var rest := Split(t[1..]); [[t[0]] + rest[0]] + rest[1..]
  }

  lemma {:induction false} SplitNoComma(t: string)
    requires ',' !in t
    ensures Split(t) == [t]
    decreases |t|
  {
    if |t| > 0 {
      assert t[0] != ',';
      SplitNoComma(t[1..]);
      assert [t[0]] + t[1..] == t;
    }
  }

  lemma {:induction false} SplitAppendPiece(x: string, b: string)
    requires ',' !in b
    ensures Split(x + "," + b) == Split(x) + [b]
    decreases |x|
  {
    if |x| == 0 {
      assert x + "," + b == [','] + b;
      assert ([','] + b)[1..] == b;
      SplitNoComma(b);
    } else {
      assert (x + "," + b)[1..] == x[1..] + "," + b;
      SplitAppendPiece(x[1..], b);
    }
  }

  lemma NoCommaInDigits(s: string)
    requires AllDigits(s)
    ensures ',' !in s
  {
    forall i | 0 <= i < |s|
      ensures s[i] != ','
    {
      assert IsDigit(s[i]);
    }
  }

  /** The pieces of the grouped form: a first group of one to three digits,
      then groups of exactly three digits. */
  lemma {:induction false} GroupedPieces(s: string)
    requires AllDigits(s) && |s| >= 1
    ensures var g := Split(Grouped(s));
      1 <= |g[0]| <= 3 &&
      (forall k :: 1 <= k < |g| ==> |g[k]| == 3) &&
      (forall k :: 0 <= k < |g| ==> AllDigits(g[k]))
    decreases |s|
  {
    if |s| <= 3 {
      NoCommaInDigits(s);
      SplitNoComma(s);
    } else {
      var a, b := s[..|s| - 3], s[|s| - 3..];
      GroupedPieces(a);
      NoCommaInDigits(b);
      SplitAppendPiece(Grouped(a), b);
    }
  }

  /** The grouped form holds a comma exactly when there are more than three digits. */
  lemma GroupedHasComma(s: string)
    requires AllDigits(s)
    ensures (',' in Grouped(s)) <==> |s| > 3
  {
    if |s| <= 3 {
      NoCommaInDigits(s);
    } else {
      var a := s[..|s| - 3];
      assert Grouped(s)[|Grouped(a)|] == ',';
    }
  }

  /** `formatNumber(n)` for a natural number n. */
  function FormatNumber(n: nat): (r: string)
    ensures RemoveSeparators(r) == Digits(n)
    ensures var g := Split(r);
      1 <= |g[0]| <= 3 &&
      (forall k :: 1 <= k < |g| ==> |g[k]| == 3) &&
      (forall k :: 0 <= k < |g| ==> AllDigits(g[k]))
    ensures (',' in r) <==> n >= 1000
  {
    var s := Digits(n);
    InsertSeparatorsGrouped(s);
    GroupedRemoveSeparators(s);
    GroupedPieces(s);
    GroupedHasComma(s);
    DigitsLength(n, 2);
    InsertSeparators(s)
  }

  lemma FormatNumberExample()
    ensures FormatNumber(1234) == "1,234"
  {
    var s := Digits(1234);
    DigitsExample();
    InsertSeparatorsGrouped(s);
    GroupedExample();
  }

  lemma DigitsExample()
    ensures Digits(1234) == "1234"
  {
    assert Digits(1) == "1";
    assert Digits(12) == "12";
    assert Digits(123) == "123";
  }

  lemma GroupedExample()
    ensures Grouped("1234") == "1,234"
  {
    assert "1234"[..1] == "1" && "1234"[1..] == "234";
  }
}
