/** Option and Result, the order Go's sort.Strings uses, and sorted key lists. */
module Prelude {

  datatype Option<+T> = None | Some(value: T)

  /** A Go (value, error) pair of which exactly one half is meaningful. */
  datatype Result<+T> = Ok(value: T) | Err(error: string)

  /** Lexicographic order on strings. */
  predicate Leq(a: string, b: string) {
    a == "" || (b != "" && (a[0] < b[0] || (a[0] == b[0] && Leq(a[1..], b[1..]))))
  }

  lemma {:induction false} LeqTotal(a: string, b: string)
    ensures Leq(a, b) || Leq(b, a)
  {
    if a != "" && b != "" && a[0] == b[0] {
      LeqTotal(a[1..], b[1..]);
    }
  }

  lemma {:induction false} LeqAntisymmetric(a: string, b: string)
    requires Leq(a, b) && Leq(b, a)
    ensures a == b
  {
    if a != "" {
      LeqAntisymmetric(a[1..], b[1..]);
      assert a == [a[0]] + a[1..] && b == [b[0]] + b[1..];
    }
  }

  lemma {:induction false} LeqTransitive(a: string, b: string, c: string)
    requires Leq(a, b) && Leq(b, c)
    ensures Leq(a, c)
  {
    if a != "" && a[0] == b[0] && b[0] == c[0] {
      LeqTransitive(a[1..], b[1..], c[1..]);
    }
  }

  /** The order is that of dictionaries: a prefix comes first, otherwise the first difference decides. */
  lemma {:induction false} LeqIsDictionaryOrder(a: string, b: string)
    ensures Leq(a, b) <==> a <= b || exists k :: 0 <= k < |a| && k < |b| && a[..k] == b[..k] && a[k] < b[k]
  {
    if a != "" && b != "" {
      LeqIsDictionaryOrder(a[1..], b[1..]);
      assert a == [a[0]] + a[1..] && b == [b[0]] + b[1..];
      forall k | 0 < k <= |a| && k <= |b| && a[..k] == b[..k] ensures a[0] == b[0] {
        assert a[..k][0] == a[0] && b[..k][0] == b[0];
      }
      if a[0] == b[0] {
        if k :| 0 <= k < |a| && k < |b| && a[..k] == b[..k] && a[k] < b[k] {
          assert a[1..][..k - 1] == a[..k][1..] && b[1..][..k - 1] == b[..k][1..];
          assert a[1..][k - 1] < b[1..][k - 1];
        }
        if k :| 0 <= k < |a[1..]| && k < |b[1..]| && a[1..][..k] == b[1..][..k] && a[1..][k] < b[1..][k] {
          assert a[..k + 1] == [a[0]] + a[1..][..k] && b[..k + 1] == [b[0]] + b[1..][..k];
          assert a[k + 1] < b[k + 1];
        }
      } else {
        if a[0] < b[0] { assert a[..0] == b[..0]; }
      }
    }
  }

  ghost predicate IsLeast(m: string, s: set<string>) {
    m in s && forall y :: y in s ==> Leq(m, y)
  }

  lemma {:induction false} LeastExists(s: set<string>) returns (m: string)
    requires s != {}
    ensures IsLeast(m, s)
    decreases |s|
  {
    var x :| x in s;
    var rest := s - {x};
    LeqTotal(x, x);
    if rest == {} {
      m := x;
      assert s == {x};
    } else {
      var r := LeastExists(rest);
      LeqTotal(x, r);
      if Leq(x, r) {
        m := x;
        forall y | y in s ensures Leq(x, y) {
          if y != x { LeqTransitive(x, r, y); }
        }
      } else {
        m := r;
        forall y | y in s ensures Leq(r, y) {
          if y != x { assert y in rest; }
        }
      }
    }
  }

  /** The elements of s in increasing order. */
  ghost function Sorted(s: set<string>): (keys: seq<string>)
    decreases |s|
  {
    if s == {} then []
    else
      assert exists m :: IsLeast(m, s) by { var m := LeastExists(s); }
      var m :| IsLeast(m, s);
      [m] + Sorted(s - {m})
  }

  lemma {:induction false} SortedMembers(s: set<string>)
    ensures forall k :: k in Sorted(s) <==> k in s
    decreases |s|
  {
    if s != {} {
      var least := LeastExists(s);
      assert exists m :: IsLeast(m, s);
      SortedMembers(s - {Sorted(s)[0]});
    }
  }

  lemma {:induction false} SortedIsOrdered(s: set<string>)
    ensures forall i, j :: 0 <= i < j < |Sorted(s)| ==> Sorted(s)[i] != Sorted(s)[j] && Leq(Sorted(s)[i], Sorted(s)[j])
    decreases |s|
  {
    if s != {} {
      var least := LeastExists(s);
      assert exists m :: IsLeast(m, s);
      var rest := s - {Sorted(s)[0]};
      SortedMembers(rest);
      SortedIsOrdered(rest);
      assert forall j :: 0 < j < |Sorted(s)| ==> Sorted(s)[j] in rest;
    }
  }

  lemma SortedUnfold(s: set<string>, m: string)
    requires IsLeast(m, s)
    ensures Sorted(s) == [m] + Sorted(s - {m})
  {
    LeqAntisymmetric(m, Sorted(s)[0]);
  }

  /** Collects the keys and sorts them, the way the repository makes every map walk deterministic. */
  method SortedKeys<V>(m: map<string, V>) returns (keys: seq<string>)
    ensures keys == Sorted(m.Keys)
  {
    keys := [];
    var rest := m.Keys;
    while rest != {}
      invariant keys + Sorted(rest) == Sorted(m.Keys)
      decreases |rest|
    {
      ghost var least := LeastExists(rest);
      var k :| k in rest && forall y :: y in rest ==> Leq(k, y);
      SortedUnfold(rest, k);
      assert keys + ([k] + Sorted(rest - {k})) == (keys + [k]) + Sorted(rest - {k});
      keys, rest := keys + [k], rest - {k};
    }
    assert keys + [] == keys;
  }

  /** A non-zero multiple of n is at least n away from 0. */
  lemma MultipleBounds(n: nat, m: int)
    ensures m >= 1 ==> n * m >= n
    ensures m <= -1 ==> n * m + n <= 0
  {
    if m >= 1 { assert n * (m - 1) >= 0; }
    if m <= -1 { assert n * (-m - 1) >= 0; }
  }
}
