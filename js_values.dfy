/**
 * The two JavaScript coercions the component relies on: Number(...) of a
 * page slot that may be null, and String(...) of an integer (used both when
 * a page number is concatenated into the status message and when a numeric
 * column is compared as text).
 */
module JsValues {
  import opened Wrappers

  /** Number(v) of a slot holding an integer or null: Number(null) is 0. */
  function ToNumber(v: Option<int>): int
  {
    match v
    case None => 0
    case Some(n) => n
  }

  function DigitChar(d: nat): (c: char)
    requires d < 10
    ensures '0' <= c <= '9'
  {
    "0123456789"[d]
  }

  /** The decimal digits of n, most significant first, with no leading zero. */
  function NatToString(n: nat): (s: string)
    ensures |s| > 0
    ensures forall i | 0 <= i < |s| :: '0' <= s[i] <= '9'
    ensures |s| > 1 ==> s[0] != '0'
    decreases n
  {
    if n < 10 then [DigitChar(n)] else NatToString(n / 10) + [DigitChar(n % 10)]
  }

  /** String(i) for an integer i. */
  function IntToString(i: int): string
  {
    if i < 0 then "-" + NatToString(-i) else NatToString(i)
  }

  /** The text '' + v gives for a slot holding an integer or null. */
  function SlotToString(v: Option<int>): string
  {
    match v
    case None => "null"
    case Some(n) => IntToString(n)
  }

  /** Reads decimal digits back into the number they denote. */
  function DigitsValue(s: string): nat
    requires forall i | 0 <= i < |s| :: '0' <= s[i] <= '9'
  {
    if s == [] then 0 else 10 * DigitsValue(s[..|s| - 1]) + (s[|s| - 1] - '0') as nat
  }

  /** Rendering a natural number loses nothing: its digits read back as the number. */
  lemma {:induction false} NatToStringRoundTrip(n: nat)
    ensures DigitsValue(NatToString(n)) == n
    decreases n
  {
    if n >= 10 {
      NatToStringRoundTrip(n / 10);
      var s := NatToString(n);
      assert s[..|s| - 1] == NatToString(n / 10);
    }
  }

  lemma {:induction false} NatToStringInjective(i: nat, j: nat)
    requires NatToString(i) == NatToString(j)
    ensures i == j
  {
    NatToStringRoundTrip(i);
    NatToStringRoundTrip(j);
  }

  lemma {:induction false} NegativeTextIsNotDigits(i: int, j: int)
    requires i < 0 <= j
    ensures IntToString(i) != IntToString(j)
  {
    var d := NatToString(j);
    assert '0' <= d[0];
  }

  /** Distinct integers render as distinct texts, so the status message tells pages apart. */
  lemma {:induction false} IntToStringInjective(i: int, j: int)
    requires IntToString(i) == IntToString(j)
    ensures i == j
  {
    if i < 0 && j < 0 {
      var a, b := NatToString(-i), NatToString(-j);
      assert a == ("-" + a)[1..] && b == ("-" + b)[1..];
      NatToStringInjective(-i, -j);
    } else if i >= 0 && j >= 0 {
      NatToStringInjective(i, j);
    } else if i < 0 {
      NegativeTextIsNotDigits(i, j);
    } else {
      NegativeTextIsNotDigits(j, i);
    }
  }
}
