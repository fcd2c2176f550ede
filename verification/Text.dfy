/** Decimal numerals and separators inside keys. A string is the sequence of its bytes. */
module Text {

  function Digit(d: nat): char
    requires d < 10
  {
    "0123456789"[d]
  }

  function Decimal(n: nat): (text: string)
    ensures text != ""
  {
    if n < 10 then [Digit(n)] else Decimal(n / 10) + [Digit(n % 10)]
  }

  function DigitValue(c: char): nat {
    if '0' <= c <= '9' then (c as int) - ('0' as int) else 0
  }

  function Value(text: string): nat {
    if text == "" then 0 else 10 * Value(text[..|text| - 1]) + DigitValue(text[|text| - 1])
  }

  predicate Lacks(text: string, c: char) {
    forall k | 0 <= k < |text| :: text[k] != c
  }

  lemma {:induction false} DecimalReadsBack(n: nat)
    ensures Value(Decimal(n)) == n
    ensures forall k | 0 <= k < |Decimal(n)| :: '0' <= Decimal(n)[k] <= '9'
  {
    var text := Decimal(n);
    if n >= 10 {
      DecimalReadsBack(n / 10);
      assert text[..|text| - 1] == Decimal(n / 10);
    } else {
      assert text[..0] == "";
    }
  }

  /** A numeral is written digit by digit, the last one last. */
  lemma DecimalInFigures(n: nat, d: nat)
    requires d < 10
    ensures Decimal(d) == ["0123456789"[d]]
    ensures n > 0 ==> Decimal(10 * n + d) == Decimal(n) + ["0123456789"[d]]
  {
    assert (10 * n + d) / 10 == n && (10 * n + d) % 10 == d;
  }

  /** No numeral holds a separator. */
  lemma DecimalLacks(n: nat, c: char)
    requires c < '0' || c > '9'
    ensures Lacks(Decimal(n), c)
  {
    DecimalReadsBack(n);
  }

  /** What comes up to the first separator, and what follows it, are determined by the whole. */
  lemma SplitAt(x: string, p: string, y: string, q: string, c: char)
    requires Lacks(x, c) && Lacks(y, c)
    requires p == "" || p[0] == c
    requires q == "" || q[0] == c
    requires x + p == y + q
    ensures x == y && p == q
  {
    var whole := x + p;
    FirstSeparator(x, p, c, whole);
    FirstSeparator(y, q, c, whole);
    assert |x| == |y|;
    assert x == whole[..|x|] == y && p == whole[|x|..] == q;
  }

  lemma FirstSeparator(x: string, p: string, c: char, whole: string)
    requires Lacks(x, c) && (p == "" || p[0] == c) && whole == x + p
    ensures |x| <= |whole| && (forall k | 0 <= k < |x| :: whole[k] != c)
    ensures |x| < |whole| ==> whole[|x|] == c
  {
  }

  /** Likewise for the last separator. */
  lemma SplitAtLast(x: string, p: string, y: string, q: string, c: char)
    requires Lacks(p, c) && Lacks(q, c)
    requires x + ([c] + p) == y + ([c] + q)
    ensures x == y && p == q
  {
    var whole := x + ([c] + p);
    LastSeparator(x, p, c, whole);
    LastSeparator(y, q, c, whole);
    assert |x| == |y|;
    assert x == whole[..|x|] == y && p == whole[|x| + 1..] == q;
  }

  lemma LastSeparator(x: string, p: string, c: char, whole: string)
    requires Lacks(p, c) && whole == x + ([c] + p)
    ensures |x| < |whole| && whole[|x|] == c
    ensures forall k | |x| < k < |whole| :: whole[k] != c
  {
    assert forall k | |x| < k < |whole| :: whole[k] == p[k - |x| - 1];
  }

  /** A numeral and the text behind the separator can be told apart again. */
  lemma NumeralFirst(m: nat, p: string, n: nat, q: string)
    requires Decimal(m) + ":" + p == Decimal(n) + ":" + q
    ensures m == n && p == q
  {
    DecimalLacks(m, ':');
    DecimalLacks(n, ':');
    assert Decimal(m) + (":" + p) == Decimal(m) + ":" + p;
    assert Decimal(n) + (":" + q) == Decimal(n) + ":" + q;
    SplitAt(Decimal(m), ":" + p, Decimal(n), ":" + q, ':');
    assert (":" + p)[1..] == p && (":" + q)[1..] == q;
    DecimalReadsBack(m);
    DecimalReadsBack(n);
  }
}
