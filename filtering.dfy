/**
 * LINQ's Where over a list: the items the predicate accepts, in list order.
 * The listing filters of the controllers are instances of it; the facts
 * about order and multiplicity are proved here once.
 */
module Filtering {

  /** Enumerable.Where: keeps the items p accepts, in their original order. */
  function Where<T>(s: seq<T>, p: T -> bool): (r: seq<T>)
    ensures |r| <= |s|
  {
    if s == [] then [] else (if p(s[0]) then [s[0]] else []) + Where(s[1..], p)
  }

  /** The positions of s whose item p accepts. */
  ghost function Positions<T>(s: seq<T>, k: nat, p: T -> bool): set<int>
    requires k <= |s|
  {
    set i | 0 <= i < k && p(s[i])
  }

  /** Where distributes over concatenation: filtering keeps the relative order of the two halves. */
  lemma {:induction false} WhereAppend<T>(a: seq<T>, b: seq<T>, p: T -> bool)
    ensures Where(a + b, p) == Where(a, p) + Where(b, p)
  {
    if a == [] {
      assert a + b == b;
    } else {
      assert (a + b)[1..] == a[1..] + b;
      WhereAppend(a[1..], b, p);
      assert Where(a + b, p) == (if p(a[0]) then [a[0]] else []) + (Where(a[1..], p) + Where(b, p));
    }
  }

  /** A single item is kept exactly when p accepts it. */
  lemma WhereSingle<T>(x: T, p: T -> bool)
    ensures Where([x], p) == if p(x) then [x] else []
  {
    assert [x][1..] == [];
  }

  /** Extending the prefix by one position adds that position exactly when its item is accepted. */
  lemma PositionsStep<T>(s: seq<T>, k: nat, p: T -> bool)
    requires 0 < k <= |s|
    ensures Positions(s, k, p) == Positions(s, k - 1, p) + (if p(s[k - 1]) then {k - 1} else {})
    ensures |Positions(s, k, p)| == |Positions(s, k - 1, p)| + (if p(s[k - 1]) then 1 else 0)
  {
    var prev := Positions(s, k - 1, p);
    if p(s[k - 1]) {
      assert k - 1 !in prev;
    }
  }

  lemma {:induction false} WhereCountUpTo<T>(s: seq<T>, k: nat, p: T -> bool)
    requires k <= |s|
    ensures |Where(s[..k], p)| == |Positions(s, k, p)|
  {
    if k == 0 {
      assert Positions(s, 0, p) == {};
    } else {
      WhereCountUpTo(s, k - 1, p);
      assert s[..k] == s[..k - 1] + [s[k - 1]];
      WhereAppend(s[..k - 1], [s[k - 1]], p);
      WhereSingle(s[k - 1], p);
      PositionsStep(s, k, p);
    }
  }

  /** Each accepted item is kept once: the result is as long as the number of accepted positions. */
  lemma WhereCount<T>(s: seq<T>, p: T -> bool)
    ensures |Where(s, p)| == |Positions(s, |s|, p)|
  {
    WhereCountUpTo(s, |s|, p);
    assert s[..|s|] == s;
  }
}
