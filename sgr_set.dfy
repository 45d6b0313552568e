/**
 * The decoder's set of active attributes, a `BTreeSet<SgrAttribute>` in the
 * source, as a sequence kept strictly increasing in SgrLess: the sequence is
 * the set's iteration order, which is also the order of a span's `codes`.
 */
module SgrSet {

  import opened AnsiTypes

  /** Strictly increasing in SgrLess, as a BTreeSet iterates. */
  predicate Sorted(s: seq<SgrAttribute>) {
    forall i, j :: 0 <= i < j < |s| ==> SgrLess(s[i], s[j])
  }

  /** At most one attribute of each variant, in declaration order. */
  predicate OnePerKind(s: seq<SgrAttribute>) {
    forall i, j :: 0 <= i < j < |s| ==> Rank(s[i]) < Rank(s[j])
  }

  lemma OnePerKindIsSorted(s: seq<SgrAttribute>)
    requires OnePerKind(s)
    ensures Sorted(s)
  {
  }

  /** Two members of the same variant in a OnePerKind sequence are the same member. */
  lemma OnePerKindMembers(s: seq<SgrAttribute>, x: SgrAttribute, y: SgrAttribute)
    requires OnePerKind(s) && x in s && y in s && Rank(x) == Rank(y)
    ensures x == y
  {
    var i :| 0 <= i < |s| && s[i] == x;
    var j :| 0 <= j < |s| && s[j] == y;
  }

  /** A sorted sequence whose members of equal rank are equal holds one attribute per kind. */
  lemma SortedDistinctRanks(s: seq<SgrAttribute>)
    requires Sorted(s)
    requires forall x, y :: x in s && y in s && Rank(x) == Rank(y) ==> x == y
    ensures OnePerKind(s)
  {
    forall i, j | 0 <= i < j < |s| ensures Rank(s[i]) < Rank(s[j]) {
      SgrLessIsStrictTotal(s[i], s[j], s[i]);
    }
  }

  /** The first member of a sorted sequence is below every later one. */
  lemma HeadBelowTail(s: seq<SgrAttribute>)
    requires s != []
    ensures Sorted(s) ==> forall x :: x in s[1..] ==> SgrLess(s[0], x)
    ensures OnePerKind(s) ==> forall x :: x in s[1..] ==> Rank(s[0]) < Rank(x)
  {
    forall x | x in s[1..] ensures exists k :: 1 <= k < |s| && s[k] == x {
      var k :| 0 <= k < |s[1..]| && s[1..][k] == x;
      assert s[k + 1] == x;
    }
  }

  /** `BTreeSet::insert`: add `a` at its place in the order; no change if already present. */
  function Insert(s: seq<SgrAttribute>, a: SgrAttribute): (r: seq<SgrAttribute>)
    requires Sorted(s)
    ensures Sorted(r)
    ensures forall x :: x in r <==> x in s || x == a
    ensures |r| <= |s| + 1
  {
    if s == [] then [a]
    else if SgrLess(a, s[0]) then
      forall j | 0 <= j < |s| ensures SgrLess(a, s[j]) {
        SgrLessIsStrictTotal(a, s[0], s[j]);
      }
      [a] + s
    else if a == s[0] then s
    else
      SgrLessIsStrictTotal(a, s[0], a);
      var rest := Insert(s[1..], a);
      forall x | x in rest ensures SgrLess(s[0], x) {
        if x != a {
          var j :| 1 <= j < |s| && s[j] == x;
        }
      }
      [s[0]] + rest
  }

  /** `BTreeSet::retain`: keep exactly the members `keep` accepts, in order. */
  function Retain(s: seq<SgrAttribute>, keep: SgrAttribute -> bool): (r: seq<SgrAttribute>)
    ensures forall x :: x in r <==> x in s && keep(x)
    ensures Sorted(s) ==> Sorted(r)
    ensures OnePerKind(s) ==> OnePerKind(r)
    decreases |s|
  {
    if s == [] then []
    else
      var rest := Retain(s[1..], keep);
      HeadBelowTail(s);
      if keep(s[0]) then [s[0]] + rest else rest
  }

  /** Two sorted sequences with the same members are equal: comparing them compares the sets. */
  lemma {:induction false} SortedSetEquality(s: seq<SgrAttribute>, t: seq<SgrAttribute>)
    requires Sorted(s) && Sorted(t)
    requires forall x :: x in s <==> x in t
    ensures s == t
    decreases |s|
  {
    assert s != [] ==> s[0] in t;
    assert t != [] ==> t[0] in s;
    if s != [] && t != [] {
      HeadBelowTail(s);
      HeadBelowTail(t);
      SgrLessIsStrictTotal(s[0], t[0], s[0]);
      assert s == [s[0]] + s[1..] && t == [t[0]] + t[1..];
      var a, b, s', t' := s[0], t[0], s[1..], t[1..];
      assert b in s' || b == a;
      assert a in t' || a == b;
      forall x ensures x in s[1..] <==> x in t[1..] {
        assert x in s <==> x == s[0] || x in s[1..];
        assert x in t <==> x == t[0] || x in t[1..];
        SgrLessIsStrictTotal(x, x, x);
      }
      SortedSetEquality(s[1..], t[1..]);
      assert s == [s[0]] + s[1..] && t == [t[0]] + t[1..];
    }
  }
}
