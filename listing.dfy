/** The list of installed applications the window shows:
    `sorted(self.installed_apps.keys())`, with Python's ordering of strings
    (code point by code point, a proper prefix first). */
module Listing {

  /** `a <= b` on Python strings. */
  predicate Below(a: string, b: string)
    decreases |a|
  {
    a == [] || (b != [] && (a[0] < b[0] || (a[0] == b[0] && Below(a[1..], b[1..]))))
  }

  lemma {:induction false} BelowTotal(a: string, b: string)
    ensures Below(a, b) || Below(b, a)
    decreases |a|
  {
    if a != [] && b != [] && a[0] == b[0] {
      BelowTotal(a[1..], b[1..]);
    }
  }

  lemma {:induction false} BelowAntisymmetric(a: string, b: string)
    requires Below(a, b) && Below(b, a)
    ensures a == b
    decreases |a|
  {
    if a != [] {
      BelowAntisymmetric(a[1..], b[1..]);
      assert a == [a[0]] + a[1..] && b == [b[0]] + b[1..];
    }
  }

  lemma {:induction false} BelowTransitive(a: string, b: string, c: string)
    requires Below(a, b) && Below(b, c)
    ensures Below(a, c)
    decreases |a|
  {
    if a != [] && a[0] == b[0] && b[0] == c[0] {
      BelowTransitive(a[1..], b[1..], c[1..]);
    }
  }

  /** Every non-empty set of names has a least one. */
  lemma {:induction false} LeastExists(names: set<string>)
    requires names != {}
    ensures exists m :: m in names && forall k :: k in names ==> Below(m, k)
    decreases |names|
  {
    var x :| x in names;
    var rest := names - {x};
    BelowTotal(x, x);
    if rest == {} {
      assert names == {x};
      assert forall k :: k in names ==> Below(x, k);
    } else {
      LeastExists(rest);
      var m :| m in rest && forall k :: k in rest ==> Below(m, k);
      BelowTotal(x, m);
      if Below(x, m) {
        forall k | k in names
          ensures Below(x, k)
        {
          if k != x {
            BelowTransitive(x, m, k);
          }
        }
        assert x in names && forall k :: k in names ==> Below(x, k);
      } else {
        forall k | k in names
          ensures Below(m, k)
        {
          if k != x {
            assert k in rest;
          }
        }
        assert m in names && forall k :: k in names ==> Below(m, k);
      }
    }
  }

  /** `names` lists `keys` in strictly increasing order. */
  ghost predicate IsListing(names: seq<string>, keys: set<string>)
  {
    && (forall i, j :: 0 <= i < j < |names| ==> Below(names[i], names[j]) && names[i] != names[j])
    && (forall x :: x in names <==> x in keys)
  }

  lemma HeadIsMember(s: seq<string>)
    ensures s != [] ==> s[0] in s
  {
  }

  /** There is only one such listing, so it is the one `sorted` produces. */
  lemma {:induction false} ListingUnique(a: seq<string>, b: seq<string>, keys: set<string>)
    requires IsListing(a, keys) && IsListing(b, keys)
    ensures a == b
    decreases |a|
  {
    if a == [] {
      assert keys == {};
      HeadIsMember(b);
    } else {
      assert a[0] in keys;
      assert b != [] by { assert a[0] in b; }
      assert b[0] in keys && b[0] in a;
      var ia :| 0 <= ia < |a| && a[ia] == b[0];
      var ib :| 0 <= ib < |b| && b[ib] == a[0];
      if ia > 0 && ib > 0 {
        BelowAntisymmetric(a[0], b[0]);
      }
      var rest := keys - {a[0]};
      forall x
        ensures x in a[1..] <==> x in rest
      {
        if x in a[1..] {
          var i :| 0 <= i < |a[1..]| && a[1..][i] == x;
          assert a[i + 1] == x;
        }
        if x in rest {
          assert x in a;
          var i :| 0 <= i < |a| && a[i] == x;
          assert a[1..][i - 1] == x;
        }
      }
      forall x
        ensures x in b[1..] <==> x in rest
      {
        if x in b[1..] {
          var i :| 0 <= i < |b[1..]| && b[1..][i] == x;
          assert b[i + 1] == x;
        }
        if x in rest {
          assert x in b;
          var i :| 0 <= i < |b| && b[i] == x;
          assert b[1..][i - 1] == x;
        }
      }
      ListingUnique(a[1..], b[1..], rest);
      assert a == [a[0]] + a[1..] && b == [b[0]] + b[1..];
    }
  }

  /** The names of `keys` in sorted order, built by taking the least
      remaining name each time. */
  method SortedNames(keys: set<string>) returns (names: seq<string>)
    ensures IsListing(names, keys)
  {
    names := [];
    var rest := keys;
    while rest != {}
      invariant forall x :: x in keys <==> x in rest || x in names
      invariant forall x :: x in names ==> x !in rest
      invariant forall i, j :: 0 <= i < j < |names| ==> Below(names[i], names[j]) && names[i] != names[j]
      invariant forall i, y :: 0 <= i < |names| && y in rest ==> Below(names[i], y)
      decreases rest
    {
      LeastExists(rest);
      var m :| m in rest && forall k :: k in rest ==> Below(m, k);
      names := names + [m];
      rest := rest - {m};
    }
  }
}
