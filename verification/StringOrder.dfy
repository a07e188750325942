/** Go's order on strings, sorting by it, and the one ascending listing of a set of strings. */
module StringOrder {

  /** Comparison by code, a prefix first. */
  predicate Le(a: string, b: string) {
    a == "" || (b != "" && (a[0] < b[0] || (a[0] == b[0] && Le(a[1..], b[1..]))))
  }

  /** The strings agree up to position `i` and differ there, with `a` below. */
  ghost predicate LessAt(a: string, b: string, i: nat) {
    i < |a| && i < |b| && a[..i] == b[..i] && a[i] < b[i]
  }

  lemma LessAtHead(a: string, b: string, i: nat)
    requires LessAt(a, b, i)
    ensures a[0] <= b[0]
  {
    if i > 0 {
      assert a[..i][0] == b[..i][0];
    }
  }

  /** Up to the first difference, or a prefix. */
  lemma {:induction false} LeExact(a: string, b: string)
    ensures Le(a, b) <==> a <= b || exists i: nat :: LessAt(a, b, i)
  {
    if a != "" && b != "" {
      if a[0] < b[0] {
        assert LessAt(a, b, 0);
      } else if a[0] == b[0] {
        LeExact(a[1..], b[1..]);
        assert a == [a[0]] + a[1..] && b == [b[0]] + b[1..];
        if Le(a, b) && !(a <= b) {
          var i: nat :| LessAt(a[1..], b[1..], i);
          assert a[..i + 1] == [a[0]] + a[1..][..i] && b[..i + 1] == [b[0]] + b[1..][..i];
          assert LessAt(a, b, i + 1);
        }
        if i: nat :| LessAt(a, b, i) {
          assert a[1..][..i - 1] == a[..i][1..] && b[1..][..i - 1] == b[..i][1..];
          assert LessAt(a[1..], b[1..], i - 1);
        }
      } else if i: nat :| LessAt(a, b, i) {
        LessAtHead(a, b, i);
      }
    }
  }

  lemma {:induction false} LeTotal(a: string, b: string)
    ensures Le(a, b) || Le(b, a)
  {
    if a != "" && b != "" {
      LeTotal(a[1..], b[1..]);
    }
  }

  lemma {:induction false} LeAntisymmetric(a: string, b: string)
    requires Le(a, b) && Le(b, a)
    ensures a == b
  {
    if a != "" && b != "" {
      LeAntisymmetric(a[1..], b[1..]);
      assert a == [a[0]] + a[1..] && b == [b[0]] + b[1..];
    }
  }

  lemma {:induction false} LeTransitive(a: string, b: string, c: string)
    requires Le(a, b) && Le(b, c)
    ensures Le(a, c)
  {
    if a != "" && b != "" && a[0] == b[0] == c[0] {
      LeTransitive(a[1..], b[1..], c[1..]);
    }
  }

  ghost predicate Sorted(s: seq<string>) { forall i, j | 0 <= i < j < |s| :: Le(s[i], s[j]) }

  ghost predicate Distinct(s: seq<string>) { forall i, j | 0 <= i < j < |s| :: s[i] != s[j] }

  ghost function Elements(s: seq<string>): set<string> { set x | x in s }

  /** `s` lists the set `xs` in ascending order, each element once. */
  ghost predicate Lists(s: seq<string>, xs: set<string>) { Sorted(s) && Distinct(s) && Elements(s) == xs }

  /** A set has only one ascending listing, whatever order its elements were met in. */
  lemma {:induction false} ListingIsUnique(s: seq<string>, t: seq<string>, xs: set<string>)
    requires Lists(s, xs) && Lists(t, xs)
    ensures s == t
    decreases |s|
  {
    NoElements(s);
    NoElements(t);
    if s != [] {
      assert s[0] in Elements(s);
      assert s[0] in t && t[0] in Elements(t) && t[0] in s;
      LeRefl(s[0]);
      LeRefl(t[0]);
      LeAntisymmetric(s[0], t[0]);
      TailLists(s, xs);
      TailLists(t, xs);
      ListingIsUnique(s[1..], t[1..], xs - {s[0]});
      assert s == [s[0]] + s[1..] && t == [t[0]] + t[1..];
    }
  }

  lemma NoElements(s: seq<string>)
    ensures Elements(s) == {} <==> s == []
  {
    if s != [] {
      assert s[0] in Elements(s);
    }
  }

  lemma {:induction false} LeRefl(a: string)
    ensures Le(a, a)
  {
    LeTotal(a, a);
  }

  lemma TailLists(s: seq<string>, xs: set<string>)
    requires Lists(s, xs) && s != []
    ensures Lists(s[1..], xs - {s[0]})
  {
    var r := s[1..];
    forall x ensures x in Elements(r) <==> x in xs - {s[0]} {
      if x in r {
        var i :| 0 <= i < |r| && r[i] == x;
        assert s[i + 1] == x && s[0] != s[i + 1];
      }
      if x in xs && x != s[0] {
        assert x in Elements(s);
        var i :| 0 <= i < |s| && s[i] == x;
        assert r[i - 1] == x;
      }
    }
  }

  /** `sort.Strings` on a list without repetitions. */
  method SortStrings(xs: seq<string>) returns (sorted: seq<string>)
    requires Distinct(xs)
    ensures Lists(sorted, Elements(xs))
  {
    sorted := [];
    for i := 0 to |xs|
      invariant Lists(sorted, Elements(xs[..i]))
    {
      assert xs[..i + 1] == xs[..i] + [xs[i]];
      assert xs[i] !in Elements(xs[..i]);
      sorted := Insert(sorted, xs[i]);
      assert Elements(xs[..i + 1]) == Elements(xs[..i]) + {xs[i]};
    }
    assert xs[..|xs|] == xs;
  }

  method Insert(s: seq<string>, x: string) returns (longer: seq<string>)
    requires Sorted(s) && Distinct(s) && x !in s
    ensures Lists(longer, Elements(s) + {x})
  {
    var j := |s|;
    while j > 0 && !Le(s[j - 1], x)
      invariant 0 <= j <= |s|
      invariant forall k | j <= k < |s| :: Le(x, s[k])
    {
      LeTotal(s[j - 1], x);
      j := j - 1;
    }
    longer := s[..j] + [x] + s[j..];
    InsertKeepsOrder(s, j, x);
  }

  lemma InsertKeepsOrder(s: seq<string>, j: nat, x: string)
    requires Sorted(s) && Distinct(s) && x !in s && j <= |s|
    requires j > 0 ==> Le(s[j - 1], x)
    requires forall k | j <= k < |s| :: Le(x, s[k])
    ensures Lists(s[..j] + [x] + s[j..], Elements(s) + {x})
  {
    var r := s[..j] + [x] + s[j..];
    forall a, b | 0 <= a < b < |r| ensures Le(r[a], r[b]) && r[a] != r[b] {
      var a', b' := if a > j then a - 1 else a, if b > j then b - 1 else b;
      assert a != j ==> r[a] == s[a'] && r[a] in s;
      assert b != j ==> r[b] == s[b'] && r[b] in s;
      if b == j && a < j - 1 {
        LeTransitive(s[a], s[j - 1], x);
      }
    }
    forall y ensures y in Elements(r) <==> y in Elements(s) + {x} {
      assert s == s[..j] + s[j..];
    }
  }
}
