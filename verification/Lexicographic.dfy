/** Strict total orders, and the order in which databases keep byte keys. */
module Lexicographic {

  ghost predicate Strict<K(!new)>(less: (K, K) -> bool) {
    (forall a, b :: less(a, b) ==> !less(b, a)) &&
    (forall a, b, c :: less(a, b) && less(b, c) ==> less(a, c)) &&
    (forall a, b :: a == b || less(a, b) || less(b, a))
  }

  /** The first difference decides, and a proper prefix comes first; letters are compared by their code. */
  predicate LexLess<T>(a: seq<T>, b: seq<T>, code: T -> int)
    decreases a
  {
    b != [] && (a == [] || code(a[0]) < code(b[0]) || (code(a[0]) == code(b[0]) && LexLess(a[1..], b[1..], code)))
  }

  ghost predicate Distinguishes<T(!new)>(code: T -> int) { forall x, y :: code(x) == code(y) ==> x == y }

  lemma {:induction false} LexAsymmetric<T>(a: seq<T>, b: seq<T>, code: T -> int)
    requires LexLess(a, b, code)
    ensures !LexLess(b, a, code)
    decreases a
  {
    if a != [] && code(a[0]) == code(b[0]) {
      LexAsymmetric(a[1..], b[1..], code);
    }
  }

  lemma {:induction false} LexTransitive<T>(a: seq<T>, b: seq<T>, c: seq<T>, code: T -> int)
    requires LexLess(a, b, code) && LexLess(b, c, code)
    ensures LexLess(a, c, code)
    decreases a
  {
    if a != [] && code(a[0]) == code(b[0]) && code(b[0]) == code(c[0]) {
      LexTransitive(a[1..], b[1..], c[1..], code);
    }
  }

  lemma {:induction false} LexTotal<T(!new)>(a: seq<T>, b: seq<T>, code: T -> int)
    requires Distinguishes(code)
    ensures a == b || LexLess(a, b, code) || LexLess(b, a, code)
    decreases a
  {
    if a != [] && b != [] && code(a[0]) == code(b[0]) {
      LexTotal(a[1..], b[1..], code);
      assert a == [a[0]] + a[1..] && b == [b[0]] + b[1..];
    }
  }

  /** Between keys of equal length: equal up to some place, and smaller there. */
  ghost predicate DiffersUpward<T(!new)>(a: seq<T>, b: seq<T>, code: T -> int)
    requires |a| == |b|
  {
    exists i :: 0 <= i < |a| && a[..i] == b[..i] && code(a[i]) < code(b[i])
  }

  lemma {:induction false} LexIsFirstDifference<T(!new)>(a: seq<T>, b: seq<T>, code: T -> int)
    requires |a| == |b| && Distinguishes(code)
    ensures LexLess(a, b, code) <==> DiffersUpward(a, b, code)
    decreases a
  {
    if a != [] {
      LexIsFirstDifference(a[1..], b[1..], code);
      if LexLess(a, b, code) {
        if code(a[0]) < code(b[0]) {
          assert a[..0] == b[..0];
        } else {
          var i :| 0 <= i < |a| - 1 && a[1..][..i] == b[1..][..i] && code(a[1..][i]) < code(b[1..][i]);
          assert a[..i + 1] == [a[0]] + a[1..][..i] && b[..i + 1] == [b[0]] + b[1..][..i];
          assert code(a[i + 1]) < code(b[i + 1]);
        }
      }
      if DiffersUpward(a, b, code) {
        var i :| 0 <= i < |a| && a[..i] == b[..i] && code(a[i]) < code(b[i]);
        if i > 0 {
          assert a[0] == a[..i][0] && b[0] == b[..i][0];
          assert a[1..][..i - 1] == a[..i][1..] && b[1..][..i - 1] == b[..i][1..];
          assert code(a[1..][i - 1]) < code(b[1..][i - 1]);
        }
      }
    }
  }
}
