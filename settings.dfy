/**
 * The age field of the Settings page: `parsePositiveInt(text)` trims the text,
 * reads it with Kotlin's `String.toIntOrNull()`, and keeps the number only when it
 * is above zero.
 */
module Settings {
  import opened Wrappers
  import opened Text

  /** The range of Kotlin's 32-bit `Int`. */
  const IntMin := -0x8000_0000
  const IntMax := 0x7FFF_FFFF

  /**
   * The integer a text denotes as a signed decimal numeral: an optional `+` or `-`,
   * then one or more digits, nothing else. No bound on the size.
   */
  function Denoted(s: string): Option<int> {
    if |s| > 0 && AllDigits(s) then Some(Value(s))
    else if |s| > 1 && s[0] == '+' && AllDigits(s[1..]) then Some(Value(s[1..]))
    else if |s| > 1 && s[0] == '-' && AllDigits(s[1..]) then (var magnitude: int := Value(s[1..]); Some(-magnitude))
    else None
  }

  /** A denoted number that does not fit in an `Int` is no number at all. */
  function FitsInt(v: Option<int>): Option<int> {
    if v.Some? && IntMin <= v.value <= IntMax then v else None
  }

  /**
   * The digit loop of `toIntOrNull`. Kotlin accumulates the number negated, so that
   * `Int.MIN_VALUE` fits, and gives up on the first character that is not a digit or
   * as soon as the next step would pass `limit`. (Its extra comparison against
   * `limit / radix` before multiplying only keeps the 32-bit multiplication from
   * overflowing; with unbounded integers the remaining comparison decides alone.)
   */
  function Accumulate(digits: string, acc: int, limit: int): (r: Option<int>)
    ensures r.Some? ==> AllDigits(digits)
    ensures r.Some? && digits != [] ==> limit <= r.value
    ensures r.Some? && acc <= 0 ==> r.value <= acc
    decreases |digits|
  {
    if digits == [] then Some(acc)
    else if !IsDigit(digits[0]) then None
    else if acc * 10 < limit + DigitValue(digits[0]) then None
    else Accumulate(digits[1..], acc * 10 - DigitValue(digits[0]), limit)
  }

  function Negated(v: Option<int>): Option<int> {
    match v
    case None => None
    case Some(x) => Some(-x)
  }

  /**
   * `String.toIntOrNull()`: a first character below `'0'` may be a sign (`-` reads
   * down to `Int.MIN_VALUE`, `+` like no sign down to `-Int.MAX_VALUE`), but a sign
   * alone, or any other such character, is no number.
   */
  function ToIntOrNull(s: string): (r: Option<int>)
    ensures r.Some? ==> IntMin <= r.value <= IntMax
  {
    if |s| == 0 then None
    else if s[0] < '0' then
      if |s| == 1 then None
      else if s[0] == '-' then Accumulate(s[1..], 0, IntMin)
      else if s[0] == '+' then Negated(Accumulate(s[1..], 0, -IntMax))
      else None
    else Negated(Accumulate(s, 0, -IntMax))
  }

  /**
   * The digit loop ends with the accumulated value shifted by the digits' count and
   * less their value, provided every character is a digit and the end value does not
   * pass `limit`; it gives up otherwise, even when it gives up early.
   */
  lemma {:induction false} AccumulateMeaning(digits: string, acc: int, limit: int)
    requires limit <= acc <= 0
    ensures Accumulate(digits, acc, limit) ==
      if AllDigits(digits) && acc * Pow10(|digits|) - Value(digits) >= limit
      then Some(acc * Pow10(|digits|) - Value(digits))
      else None
    decreases |digits|
  {
    if digits != [] && IsDigit(digits[0]) {
      var n, d, rest := |digits|, DigitValue(digits[0]), digits[1..];
      var acc' := acc * 10 - d;
      assert AllDigits(digits) <==> AllDigits(rest);
      if AllDigits(digits) {
        ValueFront(digits);
        ShiftOneDigit(acc, d, Pow10(n - 1), Value(rest));
        // acc' is not positive, so the later digits only take the value further down.
        ScaleNonPositive(acc', Pow10(n - 1));
      }
      if acc' >= limit {
        AccumulateMeaning(rest, acc', limit);
      }
    }
  }

  /** Taking one digit into the accumulator before or after scaling by the remaining digits' weight. */
  lemma ShiftOneDigit(acc: int, d: int, p: int, v: int)
    ensures acc * (10 * p) - (d * p + v) == (acc * 10 - d) * p - v
  {
  }

  /** A value that is not positive only goes down when scaled up. */
  lemma ScaleNonPositive(a: int, p: int)
    requires a <= 0 && p >= 1
    ensures a * p <= a
  {
  }

  /** `toIntOrNull` gives the number the text denotes exactly when that number fits in an `Int`. */
  lemma ToIntOrNullMeaning(s: string)
    ensures ToIntOrNull(s) == FitsInt(Denoted(s))
  {
    if |s| > 1 && (s[0] == '-' || s[0] == '+') {
      AccumulateMeaning(s[1..], 0, if s[0] == '-' then IntMin else -IntMax);
      assert !AllDigits(s) by { assert !IsDigit(s[0]); }
    } else if |s| > 0 && s[0] >= '0' {
      AccumulateMeaning(s, 0, -IntMax);
    }
  }

  /**
   * `parsePositiveInt`: the number the trimmed text denotes, when it fits in an
   * `Int` and is above zero; nothing otherwise.
   */
  function ParsePositiveInt(text: string): (r: Option<int>)
    ensures r.Some? ==> 0 < r.value <= IntMax && Denoted(Trim(text)) == Some(r.value)
    ensures r.None? ==> Denoted(Trim(text)).None? || Denoted(Trim(text)).value <= 0 || Denoted(Trim(text)).value > IntMax
  {
    ToIntOrNullMeaning(Trim(text));
    match ToIntOrNull(Trim(text))
    case None => None
    case Some(v) => if v > 0 then Some(v) else None
  }

  /**
   * Digits whose value is from one up to `Int.MAX_VALUE`, with or without a `+` in
   * front, leading zeros or not, padded with whitespace or not, read as their value.
   */
  lemma ParsePositiveIntReadsDigits(pre: string, digits: string, post: string)
    requires IsBlank(pre) && IsBlank(post) && digits != [] && AllDigits(digits)
    requires 0 < Value(digits) <= IntMax
    ensures ParsePositiveInt(pre + digits + post) == Some(Value(digits))
    ensures ParsePositiveInt(pre + ("+" + digits) + post) == Some(Value(digits))
  {
    var plus := "+" + digits;
    assert IsDigit(digits[0]) && IsDigit(digits[|digits| - 1]);
    assert plus[|plus| - 1] == digits[|digits| - 1];
    TrimPadded(pre, digits, post);
    TrimPadded(pre, plus, post);
    DenotedSigned(digits);
    PositiveAccepted(pre + digits + post, Value(digits));
    PositiveAccepted(pre + plus + post, Value(digits));
  }

  /** What `Int.toString()` writes for a positive `Int`, padded with whitespace, reads back as that number. */
  lemma ParsePositiveIntReadsDecimal(pre: string, n: int, post: string)
    requires IsBlank(pre) && IsBlank(post) && 0 < n <= IntMax
    ensures ParsePositiveInt(pre + Decimal(n) + post) == Some(n)
  {
    ParsePositiveIntReadsDigits(pre, Decimal(n), post);
  }

  /** A number written with a minus sign is never accepted, whatever its digits. */
  lemma ParsePositiveIntRejectsNegative(pre: string, digits: string, post: string)
    requires IsBlank(pre) && IsBlank(post) && digits != [] && AllDigits(digits)
    ensures ParsePositiveInt(pre + ("-" + digits) + post) == None
  {
    NegativeTrimmed(pre, digits, post);
    NotPositiveRejected(pre + ("-" + digits) + post);
  }

  lemma NegativeTrimmed(pre: string, digits: string, post: string)
    requires IsBlank(pre) && IsBlank(post) && digits != [] && AllDigits(digits)
    ensures Trim(pre + ("-" + digits) + post) == "-" + digits
    ensures Denoted("-" + digits).Some? && Denoted("-" + digits).value <= 0
  {
    var s := "-" + digits;
    assert s[1..] == digits && s[|s| - 1] == digits[|digits| - 1];
    assert IsDigit(digits[|digits| - 1]);
    TrimPadded(pre, s, post);
    DenotedSigned(digits);
  }

  /** A sign in front of digits: `+` keeps their value, `-` negates it. */
  lemma DenotedSigned(digits: string)
    requires digits != [] && AllDigits(digits)
    ensures Denoted("+" + digits) == Some(Value(digits))
    ensures Denoted("-" + digits) == Some(-(Value(digits) as int))
  {
    var plus, minus := "+" + digits, "-" + digits;
    assert plus[1..] == digits && minus[1..] == digits;
    assert !IsDigit(plus[0]) && !IsDigit(minus[0]);
    assert !AllDigits(plus) && !AllDigits(minus);
  }

  /** A text that denotes a number from one up to `Int.MAX_VALUE`, once trimmed, gives that number. */
  lemma PositiveAccepted(text: string, v: int)
    requires Denoted(Trim(text)) == Some(v) && 0 < v <= IntMax
    ensures ParsePositiveInt(text) == Some(v)
  {
  }

  /** A text that, once trimmed, denotes no number, or one below one or beyond `Int.MAX_VALUE`, gives nothing. */
  lemma NotPositiveRejected(text: string)
    requires var d := Denoted(Trim(text)); d.None? || d.value <= 0 || d.value > IntMax
    ensures ParsePositiveInt(text) == None
  {
  }

  /** A number too large for an `Int` is not accepted either: `toIntOrNull` gives up on it. */
  lemma ParsePositiveIntRejectsOverflow(pre: string, digits: string, post: string)
    requires IsBlank(pre) && IsBlank(post) && digits != [] && AllDigits(digits)
    requires Value(digits) > IntMax
    ensures ParsePositiveInt(pre + digits + post) == None
  {
    assert IsDigit(digits[0]) && IsDigit(digits[|digits| - 1]);
    TrimPadded(pre, digits, post);
    assert Denoted(digits) == Some(Value(digits));
    NotPositiveRejected(pre + digits + post);
  }

  /** Zero is never accepted. */
  lemma ParsePositiveIntRejectsZero(pre: string, post: string)
    requires IsBlank(pre) && IsBlank(post)
    ensures ParsePositiveInt(pre + "0" + post) == None
  {
    TrimPadded(pre, "0", post);
    assert Denoted("0") == Some(0);
    NotPositiveRejected(pre + "0" + post);
  }
}
