/** Decimal numerals: how a number is written, and how digits are read. */
module Numerals {

  predicate Digit(c: char) {
    '0' <= c <= '9'
  }

  function Value(c: char): (v: nat)
    requires Digit(c)
    ensures v < 10
  {
    (c as int) - ('0' as int)
  }

  function Decimal(n: nat): (s: string)
    ensures s != "" && Digit(s[0])
  {
    (if n < 10 then "" else Decimal(n / 10)) + [['0', '1', '2', '3', '4', '5', '6', '7', '8', '9'][n % 10]]
  }

  /** The digits read from left to right, behind some that stand for `before`. */
  function Reads(s: string, before: nat): nat
    requires forall i :: 0 <= i < |s| ==> Digit(s[i])
  {
    if s == "" then before else Reads(s[1..], 10 * before + Value(s[0]))
  }

  /** Digits only, none in vain, that read as the number. */
  predicate NumeralOf(s: string, n: nat) {
    && s != "" && (forall i :: 0 <= i < |s| ==> Digit(s[i]))
    && (s[0] == '0' ==> |s| == 1)
    && Reads(s, 0) == n
  }

  lemma {:induction false} ReadsLast(s: string, c: char, before: nat)
    requires (forall i :: 0 <= i < |s| ==> Digit(s[i])) && Digit(c)
    ensures Reads(s + [c], before) == 10 * Reads(s, before) + Value(c)
    decreases |s|
  {
    if s == "" {
      assert (s + [c])[1..] == "";
    } else {
      assert (s + [c])[1..] == s[1..] + [c];
      ReadsLast(s[1..], c, 10 * before + Value(s[0]));
    }
  }

  lemma {:induction false} DecimalReads(n: nat)
    ensures NumeralOf(Decimal(n), n)
    decreases n
  {
    if n < 10 {
      assert Decimal(n)[1..] == "";
    } else {
      DecimalReads(n / 10);
      var front, last := Decimal(n / 10), Decimal(n)[|Decimal(n)| - 1];
      assert Decimal(n) == front + [last];
      ReadsLast(front, last, 0);
    }
  }

  /** A number has one numeral. */
  lemma {:induction false} NumeralUnique(s: string, n: nat)
    requires NumeralOf(s, n)
    ensures s == Decimal(n)
    decreases |s|
  {
    hide Reads, Decimal, Value;
    var front, last := s[..|s| - 1], s[|s| - 1];
    assert s == front + [last];
    ReadsLast(front, last, 0);
    if front == "" {
      OneDigit(last);
    } else {
      ReadsMore(front, 0);
      NumeralUnique(front, n / 10);
      LastDigit(n / 10, last);
    }
  }

  lemma OneDigit(c: char)
    requires Digit(c)
    ensures Reads("", 0) == 0 && Decimal(Value(c)) == [c]
  {
  }

  lemma LastDigit(k: nat, c: char)
    requires k > 0 && Digit(c)
    ensures Decimal(10 * k + Value(c)) == Decimal(k) + [c]
  {
  }

  /** Digits do not make a number smaller, and one that is not 0 makes it positive. */
  lemma {:induction false} ReadsMore(s: string, before: nat)
    requires forall i :: 0 <= i < |s| ==> Digit(s[i])
    ensures Reads(s, before) >= before && (s != "" && s[0] != '0' ==> Reads(s, before) > 0)
    decreases |s|
  {
    if s != "" { ReadsMore(s[1..], 10 * before + Value(s[0])); }
  }

  ghost function Numeral(n: nat): (s: string)
    ensures NumeralOf(s, n)
  {
    DecimalReads(n);
    var s :| NumeralOf(s, n);
    s
  }

  lemma NumeralIs(n: nat)
    ensures Numeral(n) == Decimal(n)
  {
    NumeralUnique(Numeral(n), n);
  }
}
