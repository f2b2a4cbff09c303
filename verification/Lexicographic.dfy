/** The byte-wise string order Go's `<` and slices.Sorted use, and the sorted
    listing of a finite set of names. */
module Lexicographic {

  predicate Before(a: string, b: string) {
    b != [] && (a == [] || a[0] < b[0] || (a[0] == b[0] && Before(a[1..], b[1..])))
  }

  lemma {:induction false} BeforeTransitive(a: string, b: string, c: string)
    requires Before(a, b) && Before(b, c)
    ensures Before(a, c)
  {
    if a != [] && a[0] == b[0] == c[0] {
      BeforeTransitive(a[1..], b[1..], c[1..]);
    }
  }

  lemma {:induction false} BeforeIrreflexive(a: string)
    ensures !Before(a, a)
  {
    if a != [] {
      BeforeIrreflexive(a[1..]);
    }
  }

  lemma {:induction false} BeforeTotal(a: string, b: string)
    ensures a == b || Before(a, b) || Before(b, a)
  {
    if a != [] && b != [] && a[0] == b[0] {
      BeforeTotal(a[1..], b[1..]);
      assert a == [a[0]] + a[1..] && b == [b[0]] + b[1..];
    }
  }

  predicate AtOrBefore(a: string, b: string) {
    a == b || Before(a, b)
  }

  predicate IsFirst(names: set<string>, f: string) {
    f in names && forall n | n in names :: AtOrBefore(f, n)
  }

  lemma {:induction false} FirstExists(names: set<string>)
    requires names != {}
    ensures exists f :: IsFirst(names, f)
    decreases |names|
  {
    var x :| x in names;
    var rest := names - {x};
    if rest == {} {
      assert names == {x};
      assert IsFirst(names, x);
    } else {
      FirstExists(rest);
      var f :| IsFirst(rest, f);
      BeforeTotal(x, f);
      if Before(x, f) {
        forall n | n in names ensures AtOrBefore(x, n) {
          if n != x && n != f {
            assert n in rest;
            BeforeTransitive(x, f, n);
          }
        }
        assert IsFirst(names, x);
      } else {
        assert IsFirst(names, f);
      }
    }
  }

  lemma FirstIsUnique(names: set<string>, f: string, g: string)
    requires IsFirst(names, f) && IsFirst(names, g)
    ensures f == g
  {
    if f != g {
      assert AtOrBefore(f, g) && AtOrBefore(g, f);
      BeforeTransitive(f, g, f);
      BeforeIrreflexive(f);
    }
  }

  function First(names: set<string>): (f: string)
    requires names != {}
    ensures IsFirst(names, f)
  {
    FirstExists(names);
    assert forall f, g | IsFirst(names, f) && IsFirst(names, g) :: f == g by {
      forall f, g | IsFirst(names, f) && IsFirst(names, g) ensures f == g {
        FirstIsUnique(names, f, g);
      }
    }
    var f :| f in names && IsFirst(names, f);
    f
  }

  predicate Ascending(names: seq<string>) {
    forall i, j :: 0 <= i < j < |names| ==> Before(names[i], names[j])
  }

  /** The names of a set in ascending order, each exactly once. */
  function SortedNames(names: set<string>): (r: seq<string>)
    ensures (forall n :: n in r <==> n in names) && |r| == |names|
    ensures Ascending(r)
  {
    if names == {} then
      []
    else
      var f := First(names);
      var rest := SortedNames(names - {f});
      assert forall k | 0 <= k < |rest| :: Before(f, rest[k]) by {
        forall k | 0 <= k < |rest| ensures Before(f, rest[k]) {
          assert rest[k] in rest && AtOrBefore(f, rest[k]);
        }
      }
      [f] + rest
  }
}
