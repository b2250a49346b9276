/** Decimal text: std::to_string, reading it back, and std::string's ordering. */
module Decimal {

  predicate IsDigit(c: char) { '0' <= c <= '9' }

  function Digit(d: nat): (c: char)
    requires d < 10
  {
    '0' + d as char
  }

  function DigitValue(c: char): (d: nat)
    requires IsDigit(c)
  {
    (c - '0') as nat
  }

  function ToText(n: nat): (s: string)
    ensures s != [] && forall c :: c in s ==> IsDigit(c)
  {
    if n < 10 then [Digit(n)] else ToText(n / 10) + [Digit(n % 10)]
  }

  function ToNat(s: string): (n: nat)
    requires forall c :: c in s ==> IsDigit(c)
  {
    if s == [] then 0 else ToNat(s[..|s| - 1]) * 10 + DigitValue(s[|s| - 1])
  }

  lemma {:induction false} ReadsBack(n: nat)
    ensures ToNat(ToText(n)) == n
  {
    if n < 10 {
      assert ToNat([Digit(n)][..0]) == 0;
    } else {
      ReadsBack(n / 10);
      var s := ToText(n);
      assert s[..|s| - 1] == ToText(n / 10);
    }
  }

  /** No number is written with a leading zero, but zero itself is "0". */
  lemma {:induction false} NoLeadingZero(n: nat)
    ensures n == 0 ==> ToText(n) == "0"
    ensures n > 0 ==> ToText(n)[0] != '0'
  {
    if n >= 10 { NoLeadingZero(n / 10); }
  }

  /** a <= b in the character-by-character order of std::string. */
  predicate TextLeq(a: string, b: string) {
    if a == [] then true
    else if b == [] then false
    else if a[0] != b[0] then a[0] < b[0]
    else TextLeq(a[1..], b[1..])
  }

  lemma {:induction false} TextLeqTotal(a: string, b: string)
    ensures TextLeq(a, b) || TextLeq(b, a)
  {
    if a != [] && b != [] { TextLeqTotal(a[1..], b[1..]); }
  }

  lemma {:induction false} TextLeqTransitive(a: string, b: string, c: string)
    requires TextLeq(a, b) && TextLeq(b, c)
    ensures TextLeq(a, c)
  {
    if a != [] && b != [] && c != [] && a[0] == b[0] && b[0] == c[0] {
      TextLeqTransitive(a[1..], b[1..], c[1..]);
    }
  }

  /** Longer texts are larger numbers, and among texts of one length the order of the texts is numeric. */
  lemma {:induction false} TextOrderIsNumeric(a: nat, b: nat)
    requires a < b
    ensures |ToText(a)| <= |ToText(b)|
    ensures |ToText(a)| == |ToText(b)| ==> TextLeq(ToText(a), ToText(b)) && ToText(a) != ToText(b)
  {
    if b < 10 {
    } else if a >= 10 {
      if a / 10 < b / 10 {
        TextOrderIsNumeric(a / 10, b / 10);
        if |ToText(a)| == |ToText(b)| {
          AppendLarger(ToText(a / 10), ToText(b / 10), Digit(a % 10), Digit(b % 10));
        }
      } else {
        AppendToSame(ToText(a / 10), Digit(a % 10), Digit(b % 10));
      }
    }
  }

  lemma {:induction false} AppendLarger(x: string, y: string, c: char, d: char)
    requires |x| == |y| && TextLeq(x, y) && x != y
    ensures TextLeq(x + [c], y + [d]) && x + [c] != y + [d]
  {
    if x[0] == y[0] {
      assert x == [x[0]] + x[1..] && y == [y[0]] + y[1..];
      AppendLarger(x[1..], y[1..], c, d);
      assert (x + [c])[1..] == x[1..] + [c] && (y + [d])[1..] == y[1..] + [d];
    } else {
      assert (x + [c])[0] != (y + [d])[0];
    }
  }

  lemma {:induction false} AppendToSame(x: string, c: char, d: char)
    requires c < d
    ensures TextLeq(x + [c], x + [d]) && x + [c] != x + [d]
  {
    if x == [] {
      assert [c] != [d];
    } else {
      AppendToSame(x[1..], c, d);
      assert (x + [c])[1..] == x[1..] + [c] && (x + [d])[1..] == x[1..] + [d];
    }
  }
}
