/** Decimal notation as a list of digit values, most significant first, and as text. */
module Decimal {

  type Digit = d: int | 0 <= d < 10

  function Digits(n: nat): (r: seq<Digit>)
    ensures r != []
    ensures n > 0 ==> r[0] != 0
  {
    if n < 10 then [n] else Digits(n / 10) + [n % 10]
  }

  function Value(ds: seq<Digit>): nat {
    if ds == [] then 0 else 10 * Value(ds[..|ds| - 1]) + ds[|ds| - 1]
  }

  /** Reading back what was written. */
  lemma {:induction false} ValueOfDigits(n: nat)
    ensures Value(Digits(n)) == n
  {
    if n >= 10 {
      ValueOfDigits(n / 10);
      var ds := Digits(n);
      assert ds[..|ds| - 1] == Digits(n / 10);
    } else {
      assert [n as Digit][..0] == [];
    }
  }

  // ---- As text -----------------------------------------------------------

  predicate IsDigitChar(c: char) { '0' <= c <= '9' }

  predicate AllDigitChars(s: string) {
    forall i :: 0 <= i < |s| ==> IsDigitChar(s[i])
  }

  predicate IsNumber(s: string) { s != [] && AllDigitChars(s) }

  function DigitValue(c: char): Digit {
    if IsDigitChar(c) then c as int - '0' as int else 0
  }

  function DigitChar(d: Digit): char {
    ['0', '1', '2', '3', '4', '5', '6', '7', '8', '9'][d]
  }

  function DigitValues(s: string): (r: seq<Digit>)
    ensures |r| == |s| && forall i :: 0 <= i < |r| ==> r[i] == DigitValue(s[i])
  {
    seq(|s|, i requires 0 <= i < |s| => DigitValue(s[i]))
  }

  function NumberOf(s: string): nat { Value(DigitValues(s)) }

  function Written(n: nat): (r: string)
    ensures IsNumber(r)
  {
    var ds := Digits(n);
    seq(|ds|, i requires 0 <= i < |ds| => DigitChar(ds[i]))
  }

  lemma NumberRoundTrip(n: nat)
    ensures NumberOf(Written(n)) == n
  {
    assert DigitValues(Written(n)) == Digits(n);
    ValueOfDigits(n);
  }
}
