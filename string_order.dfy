/** The order Python uses to compare `str` values, which is how pandas sorts
    an index of strings: code point by code point, a proper prefix first. */
module StringOrder {

  predicate Less(a: string, b: string)
    decreases |a|
  {
    |b| > 0 && (|a| == 0 || a[0] < b[0] || (a[0] == b[0] && Less(a[1..], b[1..])))
  }

  lemma {:induction false} LessIrreflexive(a: string)
    ensures !Less(a, a)
    decreases |a|
  {
    if |a| > 0 {
      LessIrreflexive(a[1..]);
    }
  }

  lemma {:induction false} LessTransitive(a: string, b: string, c: string)
    requires Less(a, b) && Less(b, c)
    ensures Less(a, c)
    decreases |a|
  {
    if |a| > 0 && a[0] == b[0] && b[0] == c[0] {
      LessTransitive(a[1..], b[1..], c[1..]);
    }
  }

  lemma {:induction false} LessTotal(a: string, b: string)
    requires a != b
    ensures Less(a, b) || Less(b, a)
    decreases |a|
  {
    if |a| > 0 && |b| > 0 && a[0] == b[0] {
      assert a == [a[0]] + a[1..] && b == [b[0]] + b[1..];
      LessTotal(a[1..], b[1..]);
    }
  }

  /** Comparing two strings that start with equally long parts compares those
      parts first and the rests only when the parts are equal. */
  lemma {:induction false} LessConcat(x: string, y: string, u: string, v: string)
    requires |x| == |u|
    ensures Less(x + y, u + v) <==> Less(x, u) || (x == u && Less(y, v))
    decreases |x|
  {
    if |x| == 0 {
      assert x + y == y && u + v == v;
    } else {
      assert (x + y)[1..] == x[1..] + y && (u + v)[1..] == u[1..] + v;
      LessConcat(x[1..], y, u[1..], v);
      assert x == u <==> x[0] == u[0] && x[1..] == u[1..];
    }
  }
}
