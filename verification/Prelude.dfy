/** Small shared datatypes. */
module Prelude {
  datatype Option<+T> = None | Some(value: T)

  /** Whether a statement raises, and on which side of its commit. */
  datatype Fault = NoFault | RaisedBefore | RaisedAfter

  predicate Distinct<T(==)>(xs: seq<T>) {
    forall i, j :: 0 <= i < j < |xs| ==> xs[i] != xs[j]
  }

  function Decimal(n: nat): string {
    (if n < 10 then "" else Decimal(n / 10)) + [('0' as int + n % 10) as char]
  }

  /** The number that a numeral of ASCII digits stands for. */
  function NumberOf(s: string): int {
    if s == "" then 0 else 10 * NumberOf(s[..|s| - 1]) + (s[|s| - 1] as int - '0' as int)
  }

  lemma NumberSnoc(s: string, c: char)
    ensures NumberOf(s + [c]) == 10 * NumberOf(s) + (c as int - '0' as int)
  {
    assert (s + [c])[..|s|] == s;
  }

  /** A printed number reads as that number. */
  lemma {:induction false} DecimalReads(n: nat)
    ensures NumberOf(Decimal(n)) == n
  {
    var d := ('0' as int + n % 10) as char;
    if n >= 10 { DecimalReads(n / 10); }
    NumberSnoc(if n < 10 then "" else Decimal(n / 10), d);
  }

  /** It is printed in ASCII digits and without leading zeros. */
  lemma {:induction false} DecimalPlain(n: nat)
    ensures Decimal(n) != "" && forall i :: 0 <= i < |Decimal(n)| ==> '0' <= Decimal(n)[i] <= '9'
    ensures Decimal(n)[0] == '0' ==> n == 0
  {
    if n >= 10 { DecimalPlain(n / 10); }
  }

  /** SQL `COALESCE(a, b)`. */
  function Coalesce<T>(a: Option<T>, b: Option<T>): Option<T> {
    if a.Some? then a else b
  }
}
