/** Lexicographic orders on names and paths, and sorted sequences without duplicates. */
module Ordering {

  type Less<!T> = (T, T) -> bool

  /** Python's `<` on sequences: the first difference decides, and a proper prefix comes first. */
  predicate Lex<T(==)>(lt: Less<T>, a: seq<T>, b: seq<T>) {
    b != [] && (a == [] || lt(a[0], b[0]) || (a[0] == b[0] && Lex(lt, a[1..], b[1..])))
  }

  predicate CodeBefore(a: char, b: char) { a < b }

  /** Python's `<` on strings. */
  predicate Before(a: string, b: string) { Lex(CodeBefore, a, b) }

  /** `PurePath.__lt__`: part by part. */
  predicate PathBefore(a: seq<string>, b: seq<string>) { Lex(Before, a, b) }

  /** The sequences are alike up to a place where the first ends or has the lesser element. */
  ghost predicate FirstDifference<T>(lt: Less<T>, a: seq<T>, b: seq<T>, k: int) {
    0 <= k <= |a| && k < |b| && a[..k] == b[..k] && (k == |a| || lt(a[k], b[k]))
  }

  lemma {:induction false} LexMeans<T>(lt: Less<T>, a: seq<T>, b: seq<T>)
    ensures Lex(lt, a, b) <==> exists k :: FirstDifference(lt, a, b, k)
  {
    if b != [] {
      if a == [] || lt(a[0], b[0]) {
        assert FirstDifference(lt, a, b, 0);
      } else {
        LexMeans(lt, a[1..], b[1..]);
        if a[0] == b[0] {
          if k :| FirstDifference(lt, a[1..], b[1..], k) {
            assert a[..k + 1] == [a[0]] + a[1..][..k] && b[..k + 1] == [b[0]] + b[1..][..k];
            assert FirstDifference(lt, a, b, k + 1);
          }
          if k :| FirstDifference(lt, a, b, k) {
            assert k > 0 && a[1..][..k - 1] == a[..k][1..] && b[1..][..k - 1] == b[..k][1..];
            assert FirstDifference(lt, a[1..], b[1..], k - 1);
          }
        } else {
          forall k | FirstDifference(lt, a, b, k)
            ensures k == 0
          {
            SharedStart(lt, a, b, k);
          }
        }
      }
    }
  }

  lemma SharedStart<T>(lt: Less<T>, a: seq<T>, b: seq<T>, k: int)
    requires FirstDifference(lt, a, b, k)
    ensures k > 0 ==> a != [] && a[0] == b[0]
  {
    assert k > 0 ==> a[0] == a[..k][0] == b[..k][0] == b[0];
  }

  /** The strings are alike up to a place where the first ends or has the lesser character. */
  ghost predicate Sooner(a: string, b: string, k: int) {
    0 <= k <= |a| && k < |b| && a[..k] == b[..k] && (k == |a| || a[k] < b[k])
  }

  /** Names are ordered by their first different character, paths by their first different part. */
  lemma OrdersMean(a: string, b: string, p: seq<string>, q: seq<string>)
    ensures Before(a, b) <==> exists k :: Sooner(a, b, k)
    ensures PathBefore(p, q) <==> exists k :: FirstDifference(Before, p, q, k)
  {
    LexMeans(CodeBefore, a, b);
    LexMeans(Before, p, q);
    assert forall k :: FirstDifference(CodeBefore, a, b, k) <==> Sooner(a, b, k);
  }

  /** A strict total order. */
  ghost predicate Total<T(!new)>(lt: Less<T>) {
    && (forall a, b :: lt(a, b) || a == b || lt(b, a))
    && (forall a :: !lt(a, a))
    && (forall a, b, c :: lt(a, b) && lt(b, c) ==> lt(a, c))
  }

  lemma {:induction false} LexTransitive<T(!new)>(lt: Less<T>, a: seq<T>, b: seq<T>, c: seq<T>)
    requires Total(lt) && Lex(lt, a, b) && Lex(lt, b, c)
    ensures Lex(lt, a, c)
  {
    if a != [] && a[0] == b[0] == c[0] {
      LexTransitive(lt, a[1..], b[1..], c[1..]);
    }
  }

  lemma {:induction false} LexTrichotomy<T(!new)>(lt: Less<T>, a: seq<T>, b: seq<T>)
    requires Total(lt)
    ensures Lex(lt, a, b) || a == b || Lex(lt, b, a)
  {
    if a != [] && b != [] {
      LexTrichotomy(lt, a[1..], b[1..]);
      assert a == [a[0]] + a[1..] && b == [b[0]] + b[1..];
    }
  }

  lemma {:induction false} LexIrreflexive<T(!new)>(lt: Less<T>, a: seq<T>)
    requires Total(lt)
    ensures !Lex(lt, a, a)
  {
    if a != [] {
      LexIrreflexive(lt, a[1..]);
    }
  }

  lemma BeforeTotal()
    ensures Total(Before)
  {
    assert Total(CodeBefore);
    forall a, b
      ensures Before(a, b) || a == b || Before(b, a)
    {
      LexTrichotomy(CodeBefore, a, b);
    }
    forall a
      ensures !Before(a, a)
    {
      LexIrreflexive(CodeBefore, a);
    }
    forall a, b, c | Before(a, b) && Before(b, c)
      ensures Before(a, c)
    {
      LexTransitive(CodeBefore, a, b, c);
    }
  }

  lemma PathBeforeTotal()
    ensures Total(PathBefore)
  {
    BeforeTotal();
    forall a, b
      ensures PathBefore(a, b) || a == b || PathBefore(b, a)
    {
      LexTrichotomy(Before, a, b);
    }
    forall a
      ensures !PathBefore(a, a)
    {
      LexIrreflexive(Before, a);
    }
    forall a, b, c | PathBefore(a, b) && PathBefore(b, c)
      ensures PathBefore(a, c)
    {
      LexTransitive(Before, a, b, c);
    }
  }

  ghost predicate Sorted<T(!new)>(lt: Less<T>, s: seq<T>) {
    forall i, j :: 0 <= i < j < |s| ==> lt(s[i], s[j])
  }

  lemma {:induction false} Least<T(!new)>(lt: Less<T>, s: set<T>) returns (m: T)
    requires Total(lt) && s != {}
    ensures m in s && forall x :: x in s ==> x == m || lt(m, x)
  {
    m :| m in s;
    if s != {m} {
      var r := Least(lt, s - {m});
      assert lt(m, r) || lt(r, m);
      var least := if lt(m, r) then m else r;
      forall x | x in s
        ensures x == least || lt(least, x)
      {
        assert x == m || x in s - {m};
      }
      m := least;
    }
  }

  /** `sorted(set)`: ascending, every element once. */
  method SortedList<T(==, !new)>(lt: Less<T>, s: set<T>) returns (r: seq<T>)
    requires Total(lt)
    ensures Sorted(lt, r) && forall x :: x in r <==> x in s
    ensures |r| == |s|
  {
    r := [];
    var todo := s;
    while todo != {}
      invariant todo <= s && Sorted(lt, r) && |r| + |todo| == |s|
      invariant forall x :: x in r <==> x in s && x !in todo
      invariant forall x, y :: x in r && y in todo ==> lt(x, y)
      decreases todo
    {
      ghost var least := Least(lt, todo);
      var x :| x in todo && forall y :: y in todo ==> y == x || lt(x, y);
      r := r + [x];
      todo := todo - {x};
    }
  }

  /** A sorted list is determined by its elements. */
  lemma {:induction false} SortedUnique<T(!new)>(lt: Less<T>, a: seq<T>, b: seq<T>)
    requires Total(lt) && Sorted(lt, a) && Sorted(lt, b) && forall x :: x in a <==> x in b
    ensures a == b
  {
    if b != [] {
      assert b[0] in a;
    }
    if a != [] {
      assert a[0] in b && b != [];
      var i :| 0 <= i < |b| && b[i] == a[0];
      var j :| 0 <= j < |a| && a[j] == b[0];
      assert a[0] == b[0];
      forall x
        ensures x in a[1..] <==> x in b[1..]
      {
        if x in a[1..] {
          var k :| 1 <= k < |a| && a[k] == x;
          assert lt(a[0], x) && x in b;
        }
        if x in b[1..] {
          var k :| 1 <= k < |b| && b[k] == x;
          assert lt(b[0], x) && x in a;
        }
      }
      SortedUnique(lt, a[1..], b[1..]);
      assert a == [a[0]] + a[1..] && b == [b[0]] + b[1..];
    }
  }

  /** The one sorted list of a set's elements. */
  ghost function Listed<T(!new)>(lt: Less<T>, s: set<T>): (r: seq<T>)
    requires Total(lt)
    ensures Sorted(lt, r) && forall x :: x in r <==> x in s
  {
    ListedExists(lt, s);
    var r :| Sorted(lt, r) && forall x :: x in r <==> x in s;
    r
  }

  lemma {:induction false} ListedExists<T(!new)>(lt: Less<T>, s: set<T>)
    requires Total(lt)
    ensures exists r :: Sorted(lt, r) && forall x :: x in r <==> x in s
  {
    if s == {} {
      assert Sorted<T>(lt, []);
    } else {
      var m := Least(lt, s);
      ListedExists(lt, s - {m});
      var r :| Sorted(lt, r) && forall x :: x in r <==> x in s - {m};
      assert Sorted(lt, [m] + r);
      assert forall x :: x in [m] + r <==> x in s;
    }
  }
}
