/** Texts compared byte by byte, as the database compares its text columns. */
module Text {
  predicate AllDigits(s: string) {
    forall k :: 0 <= k < |s| ==> '0' <= s[k] <= '9'
  }

  /** What the digits of a text read as. */
  function ValueOf(s: string): nat {
    if s == "" then 0
    else
      var c := s[|s| - 1];
      10 * ValueOf(s[..|s| - 1]) + (if '0' <= c <= '9' then c as nat - '0' as nat else 0)
  }

  /** Byte-wise comparison of texts. */
  predicate TextLess(a: string, b: string) {
    b != "" && (a == "" || a[0] < b[0] || (a[0] == b[0] && TextLess(a[1..], b[1..])))
  }

  predicate TextAtMost(a: string, b: string) {
    a == b || TextLess(a, b)
  }

  lemma {:induction false} TextTotal(a: string, b: string)
    ensures a == b || TextLess(a, b) || TextLess(b, a)
    ensures !(TextLess(a, b) && TextLess(b, a)) && !TextLess(a, a)
  {
    if a != "" && b != "" {
      TextTotal(a[1..], b[1..]);
      assert a == [a[0]] + a[1..] && b == [b[0]] + b[1..];
      TextTotal(a[1..], a[1..]);
    } else if a != "" {
      TextTotal(a[1..], a[1..]);
    }
  }

  lemma {:induction false} TextTransitive(a: string, b: string, c: string)
    requires TextLess(a, b) && TextLess(b, c)
    ensures TextLess(a, c)
  {
    if a != "" && a[0] == b[0] == c[0] {
      TextTransitive(a[1..], b[1..], c[1..]);
    }
  }

  lemma {:induction false} TextSamePrefix(x: string, a: string, b: string)
    ensures TextLess(x + a, x + b) <==> TextLess(a, b)
  {
    if x == "" {
      assert x + a == a && x + b == b;
    } else {
      assert (x + a)[1..] == x[1..] + a && (x + b)[1..] == x[1..] + b;
      TextSamePrefix(x[1..], a, b);
    }
  }

  // Texts of equal length decide the comparison before what follows them.
  lemma {:induction false} TextDecided(x: string, y: string, a: string, b: string)
    requires |x| == |y| && x != y
    ensures TextLess(x + a, y + b) <==> TextLess(x, y)
  {
    assert (x + a)[1..] == x[1..] + a && (y + b)[1..] == y[1..] + b;
    if x[0] == y[0] {
      assert x == [x[0]] + x[1..] && y == [y[0]] + y[1..];
      TextDecided(x[1..], y[1..], a, b);
    }
  }

  lemma Lexicographic(x: string, y: string, a: string, b: string)
    requires |x| == |y|
    ensures TextLess(x + a, y + b) <==> TextLess(x, y) || (x == y && TextLess(a, b))
    ensures x + a == y + b <==> x == y && a == b
  {
    TextTotal(x, y);
    if x == y {
      TextSamePrefix(x, a, b);
    } else {
      TextDecided(x, y, a, b);
    }
    assert (x + a)[..|x|] == x && (y + b)[..|y|] == y && (x + a)[|x|..] == a && (y + b)[|y|..] == b;
  }
}
