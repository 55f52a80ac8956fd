/**
 * Numerals and string helpers used by the adapters and by the response body:
 * formatting with `%d`, `strconv.Atoi` / `strconv.ParseInt(s, 16, 64)` without
 * sign handling, `strings.TrimPrefix` and `strings.Join`.
 */
module Text {
  import opened Wrappers

  /** The largest value of Go's `int64` (and of `int` on a 64-bit platform). */
  const MaxInt64: int := 0x7fff_ffff_ffff_ffff
  const MinInt64: int := -MaxInt64 - 1

  /** Go's `uint64`. */
  type U64 = x: int | 0 <= x < 0x1_0000_0000_0000_0000

  /** The conversion `int64(x)` of a `uint64`: values at or above 2^63 wrap to negatives. */
  function ToInt64(x: U64): (r: int)
    ensures -MaxInt64 - 1 <= r <= MaxInt64
    ensures r == x || r == x - 0x1_0000_0000_0000_0000
  {
    if x <= MaxInt64 then x else x - 0x1_0000_0000_0000_0000
  }

  /** The value of one digit character in bases up to 16 (either letter case). */
  function DigitValue(c: char): (r: Option<nat>)
    ensures r.Some? ==> r.value < 16
  {
    if '0' <= c <= '9' then Some(c as int - '0' as int)
    else if 'a' <= c <= 'f' then Some(c as int - 'a' as int + 10)
    else if 'A' <= c <= 'F' then Some(c as int - 'A' as int + 10)
    else None
  }

  function DigitChar(d: nat): char
    requires d < 16
  {
    if d < 10 then ('0' as int + d) as char else ('a' as int + d - 10) as char
  }

  predicate IsDigit(c: char, base: nat) {
    DigitValue(c).Some? && DigitValue(c).value < base
  }

  /** The digits of `n` in `base`, most significant first, lower-case letters, no leading zeros. */
  function Digits(n: nat, base: nat): (s: string)
    requires 2 <= base <= 16
    ensures |s| > 0
    decreases n
  {
    if n < base then [DigitChar(n)] else Digits(n / base, base) + [DigitChar(n % base)]
  }

  /** `%d` of a non-negative number. */
  function Decimal(n: nat): string {
    Digits(n, 10)
  }

  /** `%d` of any integer. */
  function FormatInt(i: int): string {
    if i < 0 then "-" + Decimal(-i) else Decimal(i)
  }

  /** The value of a non-empty string of digits in `base`; None for the empty string or any other character. */
  function ParseDigits(s: string, base: nat): Option<nat>
    requires 2 <= base <= 16
    decreases |s|
  {
    if |s| == 0 || !IsDigit(s[|s| - 1], base) then None
    else if |s| == 1 then DigitValue(s[0])
    else match ParseDigits(s[..|s| - 1], base)
      case None => None
      case Some(v) => Some(v * base + DigitValue(s[|s| - 1]).value)
  }

  /** `strconv.ParseInt(s, base, 64)` (and `strconv.Atoi` for base 10) on unsigned input: a range error above MaxInt64. */
  function ParseInt64(s: string, base: nat): (r: Option<int>)
    requires 2 <= base <= 16
    ensures r.Some? ==> 0 <= r.value <= MaxInt64
    ensures r.Some? <==> ParseDigits(s, base).Some? && ParseDigits(s, base).value <= MaxInt64
  {
    match ParseDigits(s, base)
    case None => None
    case Some(v) => if v <= MaxInt64 then Some(v) else None
  }

  /** `strings.TrimPrefix`: removes one leading occurrence of `prefix`, if there is one. */
  function TrimPrefix(s: string, prefix: string): (r: string)
    ensures prefix <= s ==> s == prefix + r
    ensures !(prefix <= s) ==> r == s
  {
    if prefix <= s then s[|prefix|..] else s
  }

  /** `strings.Join`. */
  function JoinWith(parts: seq<string>, sep: string): string
    decreases |parts|
  {
    if |parts| == 0 then ""
    else if |parts| == 1 then parts[0]
    else parts[0] + sep + JoinWith(parts[1..], sep)
  }

  /** The prefix of `s` before the first `c` (all of `s` when it holds no `c`). */
  function TakeUntil(s: string, c: char): (r: string)
    ensures r <= s
    ensures c !in r
    decreases |s|
  {
    if |s| == 0 || s[0] == c then "" else [s[0]] + TakeUntil(s[1..], c)
  }

  lemma DigitCharValue(d: nat)
    requires d < 16
    ensures DigitValue(DigitChar(d)) == Some(d)
  {
  }

  /** Facts about Euclidean division by the base that the digit lemmas use. */
  lemma DivModBase(n: nat, base: nat)
    requires 2 <= base <= 16
    ensures n % base < base && n == (n / base) * base + n % base
    ensures n >= base ==> 0 < n / base < n
  {
  }

  /** Every character `Digits` produces is a digit of its base. */
  lemma {:induction false} DigitsAreDigits(n: nat, base: nat)
    requires 2 <= base <= 16
    ensures forall k :: 0 <= k < |Digits(n, base)| ==> IsDigit(Digits(n, base)[k], base)
    decreases n
  {
    DivModBase(n, base);
    var r := n % base;
    DigitCharValue(r);
    if n < base {
      DigitCharValue(n);
    } else {
      var q := n / base;
      DigitsAreDigits(q, base);
      var s, front := Digits(n, base), Digits(q, base);
      assert s == front + [DigitChar(r)];
      forall k | 0 <= k < |s|
        ensures IsDigit(s[k], base)
      {
        if k < |front| {
          assert s[k] == front[k];
        }
      }
    }
  }

  /** Round trip: parsing the formatted digits gives the number back. */
  lemma {:induction false} ParseDigitsOfDigits(n: nat, base: nat)
    requires 2 <= base <= 16
    ensures ParseDigits(Digits(n, base), base) == Some(n)
    decreases n
  {
    DivModBase(n, base);
    var r := n % base;
    DigitCharValue(r);
    if n < base {
      DigitCharValue(n);
    } else {
      var q := n / base;
      ParseDigitsOfDigits(q, base);
      var s := Digits(n, base);
      assert s == Digits(q, base) + [DigitChar(r)];
      assert s[..|s| - 1] == Digits(q, base);
      assert s[|s| - 1] == DigitChar(r);
      assert ParseDigits(s, base) == Some(q * base + r);
    }
  }

  /** `%d` followed by `strconv.Atoi` is the identity on the int64 range. */
  lemma DecimalRoundTrip(n: nat)
    requires n <= MaxInt64
    ensures ParseInt64(Decimal(n), 10) == Some(n)
  {
    ParseDigitsOfDigits(n, 10);
  }

  /** One character that is not a digit of the base makes the whole parse fail. */
  lemma {:induction false} ParseDigitsRejects(s: string, base: nat, k: nat)
    requires 2 <= base <= 16
    requires k < |s| && !IsDigit(s[k], base)
    ensures ParseDigits(s, base) == None
    decreases |s|
  {
    if k < |s| - 1 {
      ParseDigitsRejects(s[..|s| - 1], base, k);
    }
  }

  /** A prefix free of `c` followed by `c` is exactly what `TakeUntil` recovers. */
  lemma {:induction false} TakeUntilPrefix(a: string, b: string, c: char)
    requires c !in a
    requires |b| > 0 && b[0] == c
    ensures TakeUntil(a + b, c) == a
    decreases |a|
  {
    if |a| == 0 {
      assert a + b == b;
    } else {
      assert (a + b)[1..] == a[1..] + b;
      TakeUntilPrefix(a[1..], b, c);
      assert a == [a[0]] + a[1..];
    }
  }

  /** Joining one more part appends the separator and that part, so `strings.Join` keeps the order of its parts. */
  lemma {:induction false} JoinWithSnoc(parts: seq<string>, sep: string, last: string)
    requires |parts| > 0
    ensures JoinWith(parts + [last], sep) == JoinWith(parts, sep) + sep + last
    decreases |parts|
  {
    if |parts| == 1 {
      assert (parts + [last])[1..] == [last];
    } else {
      assert (parts + [last])[1..] == parts[1..] + [last];
      JoinWithSnoc(parts[1..], sep, last);
    }
  }
}
