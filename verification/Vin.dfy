/**
 The vehicle identification number and its check digit (49 CFR 565.15(c)).

 Letters are ASCII.  Positions are numbered from 0, so the check digit stands at position 8.
 */
module Vin {
  import opened Characters
  import opened Wrappers

  const Weights: seq<nat> := [8, 7, 6, 5, 4, 3, 2, 10, 0, 9, 8, 7, 6, 5, 4, 3, 2]
  const CheckPosition := 8

  /** The number a character stands for; I, O and Q stand for none. */
  function Value(c: char): Option<nat> {
    if '0' <= c <= '9' then Some((c - '0') as nat)
    else if 'A' <= c <= 'H' then Some((c - 'A') as nat + 1)
    else if 'J' <= c <= 'N' then Some((c - 'J') as nat + 1)
    else if c == 'P' then Some(7)
    else if c == 'R' then Some(9)
    else if 'S' <= c <= 'Z' then Some((c - 'S') as nat + 2)
    else None
  }

  predicate VinChar(c: char) {
    '0' <= c <= '9' || ('A' <= c <= 'Z' && c !in {'I', 'O', 'Q'})
  }

  /** The pattern `^[A-HJ-NPR-Z0-9]{17}$`. */
  predicate WellFormed(vin: string) {
    |vin| == 17 && forall i :: 0 <= i < 17 ==> VinChar(vin[i])
  }

  function Upper(c: char): char {
    if 'a' <= c <= 'z' then c - 'a' + 'A' else c
  }

  /** Spaces and hyphens go, letters become upper case. */
  function Cleaned(vin: string): string {
    if vin == "" then ""
    else
      var c := vin[|vin| - 1];
      Cleaned(vin[..|vin| - 1]) + if Space(c) || c == '-' then "" else [Upper(c)]
  }

  function Normalize(vin: Option<string>): Option<string> {
    if vin.None? || Cleaned(vin.value) == "" then None else Some(Cleaned(vin.value))
  }

  function DigitChar(remainder: nat): char
    requires remainder < 11
  {
    if remainder == 10 then 'X' else '0' + remainder as char
  }

  // ---------------------------------------------------------------- the check digit

  /** The weighted sum of the first `n` characters. */
  function Total(vin: string, n: nat): nat
    requires n <= |vin| && n <= 17
  {
    if n == 0 then 0
    else Total(vin, n - 1) + (if Value(vin[n - 1]).Some? then Value(vin[n - 1]).value else 0) * Weights[n - 1]
  }

  datatype VinError = InvalidCharacter | TooLong

  method CheckDigit(vin: string) returns (r: Result<char, VinError>)
    ensures r.Ok? <==> |vin| <= 17 && forall i :: 0 <= i < |vin| ==> Value(vin[i]).Some?
    ensures r.Ok? ==> r.value == DigitChar(Total(vin, |vin|) % 11)
  {
    var total := 0;
    for i := 0 to |vin|
      invariant i <= 17 && forall k :: 0 <= k < i ==> Value(vin[k]).Some?
      invariant total == Total(vin, i)
    {
      var value := Value(vin[i]);
      if value.None? { return Err(InvalidCharacter); }
      if i >= 17 { return Err(TooLong); }
      total := total + value.value * Weights[i];
    }
    var remainder := total % 11;
    r := Ok(if remainder == 10 then 'X' else '0' + remainder as char);
  }

  predicate Accepted(vin: string) {
    WellFormed(vin) && vin[CheckPosition] == DigitChar(Total(vin, 17) % 11)
  }

  datatype VinVerdict = Good | Missing | BadFormat | BadCheckDigit(expected: char)

  /** A VIN passes exactly when, cleaned up, it is well formed and carries its own check digit. */
  method ValidateVin(vin: Option<string>) returns (v: VinVerdict)
    ensures v.Good? <==> Normalize(vin).Some? && Accepted(Normalize(vin).value)
    ensures v.Missing? <==> Normalize(vin).None?
    ensures v.BadFormat? <==> Normalize(vin).Some? && !WellFormed(Normalize(vin).value)
    ensures v.BadCheckDigit? ==> Accepted(Normalize(vin).value[CheckPosition := v.expected])
  {
    var normalized := Normalize(vin);
    if normalized.None? { return Missing; }
    if !WellFormed(normalized.value) { return BadFormat; }
    WellFormedHasValues(normalized.value);
    var expected := CheckDigit(normalized.value);
    CheckDigitIsUnique(normalized.value, expected.value);
    if normalized.value[CheckPosition] != expected.value { return BadCheckDigit(expected.value); }
    v := Good;
  }

  lemma WellFormedHasValues(vin: string)
    requires WellFormed(vin)
    ensures forall i :: 0 <= i < 17 ==> Value(vin[i]).Some? && Value(vin[i]).value <= 9
  {
    forall i | 0 <= i < 17
      ensures Value(vin[i]).Some? && Value(vin[i]).value <= 9
    {
      ValueOfVinChar(vin[i]);
    }
  }

  lemma ValueOfVinChar(c: char)
    requires VinChar(c)
    ensures Value(c).Some? && Value(c).value <= 9
  {
  }

  /** The weights of the standard: 8 down to 2, 10 and 0, and 9 down to 2 again. */
  lemma WeightsByRule(i: nat)
    requires i < 17
    ensures |Weights| == 17
    ensures Weights[i] == if i < 7 then 8 - i else if i == 7 then 10 else if i == 8 then 0 else 18 - i
  {
  }

  /** Letters count from 1 to 9 and over again, but S begins at 2; I, O and Q are none; digits are themselves. */
  lemma ValuesByRule(c: char)
    ensures 'A' <= c < 'S' && c !in {'I', 'O', 'Q'} ==> Value(c) == Some((c - 'A') as nat % 9 + 1)
    ensures 'S' <= c <= 'Z' ==> Value(c) == Some((c - 'S') as nat + 2)
    ensures '0' <= c <= '9' ==> Value(c) == Some(c as nat - '0' as nat)
    ensures Value(c).Some? <==> '0' <= c <= '9' || ('A' <= c <= 'Z' && c !in {'I', 'O', 'Q'})
  {
  }

  /** A VIN has seventeen characters, each of which stands for a number. */
  lemma WellFormedExactlyWhen(vin: string)
    ensures WellFormed(vin) <==> |vin| == 17 && forall i :: 0 <= i < |vin| ==> Value(vin[i]).Some?
  {
    assert forall i :: 0 <= i < |vin| ==> (VinChar(vin[i]) <==> Value(vin[i]).Some?);
  }

  /** The sum is that of value times weight, position by position. */
  lemma TotalByRule(vin: string, n: nat)
    requires n < |vin| && n < 17 && Value(vin[n]).Some?
    ensures Total(vin, 0) == 0 && Total(vin, n + 1) == Total(vin, n) + Value(vin[n]).value * Weights[n]
  {
  }

  /** The digit stands for the remainder of the sum by 11, X for ten. */
  lemma DigitByRule(remainder: nat)
    requires remainder < 11
    ensures remainder == 10 ==> DigitChar(remainder) == 'X'
    ensures remainder < 10 ==> Value(DigitChar(remainder)) == Some(remainder) && '0' <= DigitChar(remainder) <= '9'
  {
  }

  // ---------------------------------------------------------------- what it detects

  /** Changing one character changes the sum by its weight times the change of value. */
  lemma {:induction false} ChangeInTotal(vin: string, i: nat, c: char, n: nat)
    requires WellFormed(vin) && VinChar(c) && i < 17 && n <= 17
    ensures Value(vin[i]).Some? && Value(c).Some?
    ensures Total(vin[i := c], n) == Total(vin, n) + if i < n then (Value(c).value - Value(vin[i]).value) * Weights[i]
        else 0
  {
    hide Value;
    hide VinChar;
    WellFormedHasValues(vin);
    ValueOfVinChar(c);
    if n > 0 {
      ChangeInTotal(vin, i, c, n - 1);
      if i == n - 1 {
        Distribute(Value(c).value, Value(vin[i]).value, Weights[i]);
      }
    }
  }

  lemma Distribute(a: int, b: int, w: int)
    ensures (a - b) * w == a * w - b * w
  {
  }

  lemma Factor(d: int, v: int, w: int)
    ensures d * v + -d * w == d * (v - w)
  {
  }

  /** 11 is prime, for the few numbers that matter here. */
  lemma NoZeroDivisors(d: int, w: int)
    requires -9 <= d <= 9 && -10 <= w <= 10
    ensures (d * w) % 11 == 0 <==> d == 0 || w == 0
  {
    if w < 0 {
      Negate(d, w);
      PositiveWeight(d, -w);
    } else if w > 0 {
      PositiveWeight(d, w);
    }
  }

  lemma Negate(d: int, w: int)
    ensures d * w == -(d * -w)
    ensures (d * w) % 11 == 0 <==> (d * -w) % 11 == 0
  {
  }

  lemma PositiveWeight(d: int, w: int)
    requires -9 <= d <= 9 && 1 <= w <= 10
    ensures (d * w) % 11 == 0 <==> d == 0
  {
    var inverse := [1, 6, 4, 3, 9, 2, 8, 7, 5, 10][w - 1];
    assert (w * inverse) % 11 == 1;
    if (d * w) % 11 == 0 {
      var q, k := d * w / 11, w * inverse / 11;
      assert d * (w * inverse) == (d * w) * inverse;
      assert d * (11 * k + 1) == 11 * q * inverse;
      assert d * (11 * k + 1) == 11 * (d * k) + d;
      assert d == 11 * (q * inverse - d * k);
    }
  }

  /** Two sums give the same check digit exactly when they differ by a multiple of 11. */
  lemma SameDigit(a: nat, b: nat)
    ensures DigitChar(a % 11) == DigitChar(b % 11) <==> (b - a) % 11 == 0
  {
  }

  lemma DigitIsVinChar(remainder: nat)
    requires remainder < 11
    ensures VinChar(DigitChar(remainder))
  {
  }

  lemma CheckPositionWeighsNothing(vin: string, c: char)
    requires WellFormed(vin) && VinChar(c)
    ensures WellFormed(vin[CheckPosition := c])
    ensures Total(vin[CheckPosition := c], 17) == Total(vin, 17)
  {
    hide Total;
    hide Value;
    hide VinChar;
    ChangeInTotal(vin, CheckPosition, c, 17);
  }

  /** Whatever the other sixteen characters are, one and only one check character is accepted. */
  lemma CheckDigitIsUnique(vin: string, c: char)
    requires WellFormed(vin)
    ensures c == DigitChar(Total(vin, 17) % 11) <==> Accepted(vin[CheckPosition := c])
  {
    hide Total;
    hide Value;
    hide VinChar;
    hide DigitChar;
    DigitIsVinChar(Total(vin, 17) % 11);
    assert vin[CheckPosition := c][CheckPosition] == c;
    if VinChar(c) { CheckPositionWeighsNothing(vin, c); }
  }

  /**
   One wrong character in an accepted VIN goes unnoticed exactly when it is not the check digit
   and stands for the same number as the right one.
   */
  lemma SingleErrorsFound(vin: string, i: nat, c: char)
    requires Accepted(vin) && VinChar(c) && i < 17
    ensures Accepted(vin[i := c]) <==> c == vin[i] || (i != CheckPosition && Value(c) == Value(vin[i]))
  {
    if i == CheckPosition {
      CheckDigitIsUnique(vin, c);
    } else {
      WellFormedHasValues(vin);
      ValueOfVinChar(c);
      ChangeInTotal(vin, i, c, 17);
      NoZeroDivisors(Value(c).value - Value(vin[i]).value, Weights[i]);
      SameDigit(Total(vin, 17), Total(vin[i := c], 17));
    }
  }

  function Swapped(vin: string, i: nat, j: nat): string
    requires i < |vin| && j < |vin|
  {
    vin[i := vin[j]][j := vin[i]]
  }

  /**
   Two exchanged characters, neither of them the check digit, go unnoticed exactly when they stand
   for the same number or their positions weigh the same.
   */
  lemma ExchangesFound(vin: string, i: nat, j: nat)
    requires Accepted(vin) && i < 17 && j < 17 && i != CheckPosition && j != CheckPosition
    ensures Accepted(Swapped(vin, i, j)) <==> Value(vin[i]) == Value(vin[j]) || Weights[i] == Weights[j]
  {
    hide DigitChar;
    hide Value;
    hide Total;
    hide VinChar;
    WellFormedHasValues(vin);
    if i != j {
      var a: int, b: int := Value(vin[i]).value, Value(vin[j]).value;
      var v: int, w: int := Weights[i], Weights[j];
      ChangeInTotal(vin, i, vin[j], 17);
      ChangeInTotal(vin[i := vin[j]], j, vin[i], 17);
      Factor(b - a, v, w);
      assert Swapped(vin, i, j) == vin[i := vin[j]][j := vin[i]];
      assert WellFormed(Swapped(vin, i, j)) && Swapped(vin, i, j)[CheckPosition] == vin[CheckPosition];
      assert Total(Swapped(vin, i, j), 17) - Total(vin, 17) == (b - a) * (v - w);
      NoZeroDivisors(b - a, v - w);
      SameDigit(Total(vin, 17), Total(Swapped(vin, i, j), 17));
    } else {
      assert Swapped(vin, i, j) == vin;
    }
  }

  /** In particular no exchange of neighbours that stand for different numbers goes unnoticed. */
  lemma NeighbourExchangesFound(vin: string, i: nat)
    requires Accepted(vin) && i < 16 && i != CheckPosition && i + 1 != CheckPosition
    ensures Accepted(Swapped(vin, i, i + 1)) <==> Value(vin[i]) == Value(vin[i + 1])
  {
    ExchangesFound(vin, i, i + 1);
  }

  // ---------------------------------------------------------------- cleaning up

  predicate Filler(c: char) {
    Space(c) || c == '-' || 'a' <= c <= 'z'
  }

  predicate NoFiller(text: string) {
    forall i :: 0 <= i < |text| ==> !Filler(text[i])
  }

  lemma {:induction false} CleanedHasNoFiller(vin: string)
    ensures NoFiller(Cleaned(vin))
  {
    if vin != "" { CleanedHasNoFiller(vin[..|vin| - 1]); }
  }

  /** Cleaning up twice is cleaning up once, and a well-formed VIN is left as it is. */
  lemma {:induction false} CleanedIsFixed(vin: string)
    requires NoFiller(vin)
    ensures Cleaned(vin) == vin
  {
    if vin != "" {
      var front, last := vin[..|vin| - 1], vin[|vin| - 1];
      CleanedIsFixed(front);
      assert !Filler(last);
      assert vin == front + [last];
    }
  }

  /** Cleaning up looks at each character by itself: spaces and hyphens go, small letters become capitals. */
  lemma {:induction false} CleanedByCharacters(vin: string, c: char)
    ensures Cleaned("") == ""
    ensures Space(c) || c == '-' ==> Cleaned(vin + [c]) == Cleaned(vin)
    ensures 'a' <= c <= 'z' ==> Cleaned(vin + [c]) == Cleaned(vin) + [(c as int - 32) as char]
    ensures !Space(c) && c != '-' && !('a' <= c <= 'z') ==> Cleaned(vin + [c]) == Cleaned(vin) + [c]
  {
    assert (vin + [c])[..|vin|] == vin;
    assert Cleaned(vin) + [] == Cleaned(vin);
  }

  /** Nothing is left of a VIN exactly when none was given or it is all spaces and hyphens. */
  lemma {:induction false} NothingIsLeftExactlyWhen(vin: string)
    ensures Normalize(None) == None
    ensures Normalize(Some(vin)) == None <==> forall i :: 0 <= i < |vin| ==> Space(vin[i]) || vin[i] == '-'
    ensures Normalize(Some(vin)).Some? ==> Normalize(Some(vin)).value == Cleaned(vin)
  {
    if vin != "" { NothingIsLeftExactlyWhen(vin[..|vin| - 1]); }
  }

  lemma NormalizeIsIdempotent(vin: Option<string>)
    ensures Normalize(Normalize(vin)) == Normalize(vin)
  {
    if Normalize(vin).Some? {
      CleanedHasNoFiller(vin.value);
      CleanedIsFixed(Cleaned(vin.value));
    }
  }
}
