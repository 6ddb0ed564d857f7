/**
 Lexicographic order on strings, used to make "the first row of a query
 without ORDER BY" a definite row: the least key of the matching rows.
 */
module LexOrder {

  /** `a` sorts before or equal to `b`, character by character. */
  predicate LexLe(a: string, b: string)
  {
    |a| == 0 || (|b| > 0 && (a[0] < b[0] || (a[0] == b[0] && LexLe(a[1..], b[1..]))))
  }

  lemma {:induction false} LexLeTotal(a: string, b: string)
    ensures LexLe(a, b) || LexLe(b, a)
  {
    if |a| > 0 && |b| > 0 && a[0] == b[0] {
      LexLeTotal(a[1..], b[1..]);
    }
  }

  lemma {:induction false} LexLeAntisymmetric(a: string, b: string)
    requires LexLe(a, b) && LexLe(b, a)
    ensures a == b
  {
    if |a| > 0 {
      LexLeAntisymmetric(a[1..], b[1..]);
      assert a == [a[0]] + a[1..];
      assert b == [b[0]] + b[1..];
    }
  }

  lemma {:induction false} LexLeTransitive(a: string, b: string, c: string)
    requires LexLe(a, b) && LexLe(b, c)
    ensures LexLe(a, c)
  {
    if |a| > 0 && a[0] == b[0] && b[0] == c[0] {
      LexLeTransitive(a[1..], b[1..], c[1..]);
    }
  }

  /** Every non-empty finite set of strings has a least element. */
  lemma {:induction false} LeastExists(s: set<string>)
    requires s != {}
    ensures exists m :: m in s && forall x :: x in s ==> LexLe(m, x)
    decreases |s|
  {
    var x :| x in s;
    if s == {x} {
      assert forall y :: y in s ==> y == x;
      LexLeTotal(x, x);
    } else {
      var rest := s - {x};
      LeastExists(rest);
      var m :| m in rest && forall y :: y in rest ==> LexLe(m, y);
      LexLeTotal(m, x);
      if LexLe(m, x) {
        assert m in s && forall y :: y in s ==> LexLe(m, y);
      } else {
        forall y | y in s
          ensures LexLe(x, y)
        {
          if y != x {
            LexLeTransitive(x, m, y);
          } else {
            LexLeTotal(x, x);
          }
        }
      }
    }
  }

  /** The least element of a non-empty set of strings. */
  function Least(s: set<string>): (m: string)
    requires s != {}
    ensures m in s && forall x :: x in s ==> LexLe(m, x)
  {
    LeastExists(s);
    assert forall a, b :: a in s && b in s && LexLe(a, b) && LexLe(b, a) ==> a == b by {
      forall a, b | a in s && b in s && LexLe(a, b) && LexLe(b, a) ensures a == b {
        LexLeAntisymmetric(a, b);
      }
    }
    var m :| m in s && forall x :: x in s ==> LexLe(m, x);
    m
  }
}
