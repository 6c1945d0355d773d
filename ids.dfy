/**
 * Identifiers derived from the millisecond clock, as in `'user_' + Date.now()`,
 * `'msg_' + Date.now()` and `'tag_' + Date.now()`. The clock reading is an
 * injected value; nothing here assumes two readings differ.
 */
module Ids {

  /** A reading of `Date.now()`: milliseconds since the epoch. */
  type Millis = nat

  const UserPrefix: string := "user_"
  const MessagePrefix: string := "msg_"
  const TagPrefix: string := "tag_"

  /** The character of a decimal digit. */
  function DigitChar(d: nat): (c: char)
    requires d < 10
    ensures '0' <= c <= '9' && DigitValue(c) == d
  {
    (48 + d) as char
  }

  /** The value of a digit character. */
  function DigitValue(c: char): nat
    requires '0' <= c <= '9'
  {
    c as int - 48
  }

  /** Every character of `s` is a decimal digit. */
  predicate IsDigits(s: string)
  {
    forall k :: 0 <= k < |s| ==> '0' <= s[k] <= '9'
  }

  /** The number a string of decimal digits denotes, most significant digit first. */
  function ValueOf(s: string): nat
    requires IsDigits(s)
  {
    if s == [] then 0 else ValueOf(s[..|s| - 1]) * 10 + DigitValue(s[|s| - 1])
  }

  /**
   * Decimal rendering of a number, as JavaScript's `'' + n` writes a
   * non-negative integer: a non-empty string of digits, without a leading
   * zero unless the number is zero.
   */
  function Decimal(n: nat): (s: string)
    ensures |s| >= 1 && IsDigits(s)
    ensures |s| == 1 <==> n < 10
    ensures s[0] == '0' <==> n == 0
    decreases n
  {
    if n < 10 then [DigitChar(n)] else Decimal(n / 10) + [DigitChar(n % 10)]
  }

  /** Reading the digits back gives the number: `Decimal` is the decimal notation of `n`. */
  lemma {:induction false} DecimalRoundTrip(n: nat)
    ensures ValueOf(Decimal(n)) == n
    decreases n
  {
    var s := Decimal(n);
    if n >= 10 {
      DecimalRoundTrip(n / 10);
      assert s[..|s| - 1] == Decimal(n / 10);
    } else {
      assert s[..|s| - 1] == [];
    }
  }

  /** The string an id is built from: a fixed prefix followed by the clock reading in decimal. */
  function GeneratedId(prefix: string, now: Millis): (id: string)
    ensures |id| > |prefix| && id[..|prefix|] == prefix
    ensures IsDigits(id[|prefix|..]) && ValueOf(id[|prefix|..]) == now
    ensures |id| > |prefix| + 1 ==> id[|prefix|] != '0'
  {
    DecimalRoundTrip(now);
    assert (prefix + Decimal(now))[|prefix|..] == Decimal(now);
    prefix + Decimal(now)
  }

  /** Different numbers have different decimal renderings. */
  lemma DecimalInjective(a: nat, b: nat)
    ensures Decimal(a) == Decimal(b) ==> a == b
  {
    DecimalRoundTrip(a);
    DecimalRoundTrip(b);
  }

  /**
   * Two ids generated with the same prefix coincide exactly when the clock
   * readings coincide: two calls in the same millisecond produce the same id.
   */
  lemma GeneratedIdsCollideIffSameMillisecond(prefix: string, t1: Millis, t2: Millis)
    ensures GeneratedId(prefix, t1) == GeneratedId(prefix, t2) <==> t1 == t2
  {
  }
}
