/**
 The byte order on strings that Go's `sort.Strings` uses, and the sorted
 enumeration of a map's keys. Map iteration order is arbitrary in Go, so the
 point of the module is that sorting makes the enumeration unique.
 */
module Strings {

  /** Strict lexicographic order. */
  predicate Less(a: string, b: string) {
    && b != []
    && (a == [] || a[0] < b[0] || (a[0] == b[0] && Less(a[1..], b[1..])))
  }

  /** A common prefix, and then either the end of `a` alone or a smaller character. */
  ghost predicate SmallerAt(a: string, b: string, i: nat) {
    && i <= |a| && i < |b| && a[..i] == b[..i]
    && (i == |a| || a[i] < b[i])
  }

  /** The order, without recursion. */
  lemma {:induction false} LessIs(a: string, b: string)
    ensures Less(a, b) <==> exists i: nat :: SmallerAt(a, b, i)
  {
    if b != [] && (a == [] || a[0] < b[0]) {
      assert SmallerAt(a, b, 0);
    } else if a != [] && b != [] && a[0] == b[0] {
      LessIs(a[1..], b[1..]);
      if i: nat :| SmallerAt(a[1..], b[1..], i) {
        assert a[..i + 1] == [a[0]] + a[1..][..i] && b[..i + 1] == [b[0]] + b[1..][..i];
        assert SmallerAt(a, b, i + 1);
      }
      if i: nat :| SmallerAt(a, b, i) {
        assert i > 0;
        assert a[1..][..i - 1] == a[..i][1..] && b[1..][..i - 1] == b[..i][1..];
        assert SmallerAt(a[1..], b[1..], i - 1);
      }
    } else {
      forall i: nat ensures !SmallerAt(a, b, i) {
        if 0 < i <= |a| && i < |b| {
          assert a[..i][0] == a[0] && b[..i][0] == b[0];
        }
      }
    }
  }

  /** Strictly ascending, hence without repetition. */
  predicate Ascending(s: seq<string>) {
    forall i, j :: 0 <= i < j < |s| ==> Less(s[i], s[j])
  }

  function Elems(s: seq<string>): set<string> {
    set x | x in s
  }

  lemma {:induction false} LessTransitive(a: string, b: string, c: string)
    requires Less(a, b) && Less(b, c)
    ensures Less(a, c)
  {
    if a != [] && a[0] == b[0] && b[0] == c[0] {
      LessTransitive(a[1..], b[1..], c[1..]);
    }
  }

  lemma {:induction false} LessTrichotomy(a: string, b: string)
    ensures a == b || Less(a, b) || Less(b, a)
    ensures !(Less(a, b) && Less(b, a))
  {
    if a != [] && b != [] && a[0] == b[0] {
      LessTrichotomy(a[1..], b[1..]);
      assert a == [a[0]] + a[1..];
      assert b == [b[0]] + b[1..];
    }
  }

  /** Insertion into an ascending sequence that does not hold `x` yet. */
  function Insert(x: string, s: seq<string>): (r: seq<string>)
    requires Ascending(s) && x !in s
    ensures Ascending(r)
    ensures Elems(r) == Elems(s) + {x}
    ensures |r| == |s| + 1
  {
    if s == [] then [x]
    else if Less(x, s[0]) then
      assert Ascending([x] + s) by {
        forall j | 0 <= j < |s| ensures Less(x, s[j]) {
          if j > 0 { LessTransitive(x, s[0], s[j]); }
        }
      }
      assert Elems([x] + s) == Elems(s) + {x};
      [x] + s
    else
      var t := Insert(x, s[1..]);
      assert Elems(s) == Elems(s[1..]) + {s[0]} by { assert s == [s[0]] + s[1..]; }
      assert Ascending([s[0]] + t) by {
        LessTrichotomy(x, s[0]);
        forall j | 0 <= j < |t| ensures Less(s[0], t[j]) {
          assert t[j] in Elems(t);
        }
      }
      assert Elems([s[0]] + t) == Elems(t) + {s[0]};
      [s[0]] + t
  }

  /** What `sort.Strings` makes of a slice of distinct strings. */
  function Sort(s: seq<string>): (r: seq<string>)
    requires forall i, j :: 0 <= i < j < |s| ==> s[i] != s[j]
    ensures Ascending(r)
    ensures Elems(r) == Elems(s)
    ensures |r| == |s|
  {
    if s == [] then []
    else
      assert s == [s[0]] + s[1..];
      assert Elems(s) == Elems(s[1..]) + {s[0]};
      var t := Sort(s[1..]);
      assert forall x :: x in t <==> x in Elems(t);
      Insert(s[0], t)
  }

  /** The ascending enumeration of a finite set of keys. */
  ghost function SortedOf(s: set<string>): (r: seq<string>)
    ensures Ascending(r)
    ensures Elems(r) == s
    ensures |r| == |s|
  {
    if s == {} then []
    else
      var x :| x in s;
      var t := SortedOf(s - {x});
      assert forall y :: y in t <==> y in Elems(t);
      Insert(x, t)
  }

  /** Two ascending sequences over the same strings are the same sequence. */
  lemma {:induction false} AscendingUnique(a: seq<string>, b: seq<string>)
    requires Ascending(a) && Ascending(b)
    requires Elems(a) == Elems(b)
    ensures a == b
  {
    assert |a| > 0 ==> a[0] in Elems(a);
    assert |b| > 0 ==> b[0] in Elems(b);
    if a != [] && b != [] {
      var i :| 0 <= i < |b| && b[i] == a[0];
      var j :| 0 <= j < |a| && a[j] == b[0];
      if i > 0 && j > 0 {
        LessTrichotomy(a[0], b[0]);
        assert false;
      }
      assert a[0] == b[0];
      TailElems(a);
      TailElems(b);
      AscendingUnique(a[1..], b[1..]);
      assert a == [a[0]] + a[1..];
      assert b == [b[0]] + b[1..];
    }
  }

  lemma TailElems(a: seq<string>)
    requires Ascending(a) && a != []
    ensures Elems(a[1..]) == Elems(a) - {a[0]}
  {
    assert a == [a[0]] + a[1..];
    forall k | 0 <= k < |a[1..]| ensures a[1..][k] != a[0] {
      LessTrichotomy(a[0], a[0]);
      assert Less(a[0], a[k + 1]);
    }
  }

  lemma AscendingDistinct(a: seq<string>, i: nat, j: nat)
    requires Ascending(a) && i < |a| && j < |a| && i != j
    ensures a[i] != a[j]
  {
    LessTrichotomy(a[i], a[i]);
    assert if i < j then Less(a[i], a[j]) else Less(a[j], a[i]);
  }

  /**
   Collecting the keys of a Go map in any iteration order and sorting them:
   the result does not depend on the order.
   */
  method SortedKeys(keys: set<string>) returns (r: seq<string>)
    ensures r == SortedOf(keys)
  {
    var rest := keys;
    var users: seq<string> := [];
    while rest != {}
      invariant rest <= keys
      invariant Elems(users) == keys - rest
      invariant forall i, j :: 0 <= i < j < |users| ==> users[i] != users[j]
      decreases rest
    {
      var u :| u in rest;
      assert u in users ==> u in Elems(users);
      assert Elems(users + [u]) == Elems(users) + {u};
      users := users + [u];
      rest := rest - {u};
    }
    r := Sort(users);
    AscendingUnique(r, SortedOf(keys));
  }
}
