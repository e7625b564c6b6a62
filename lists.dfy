/** Sequence and map helpers standing for the JavaScript array and object
    operations the components use: `filter`, `map`, `find`, `slice().reverse()`,
    index-based removal and `obj[key] || []`. */
module Lists {

  datatype Option<+T> = None | Some(value: T)

  /** `r` is `s` with some elements left out and the others in their original order
      (matched greedily from the left). */
  ghost predicate IsSubseq<T>(r: seq<T>, s: seq<T>)
  {
    if r == [] then true
    else if s == [] then false
    else if r[0] == s[0] then IsSubseq(r[1..], s[1..])
    else IsSubseq(r, s[1..])
  }

  /** The positions of `s` whose element satisfies `p`. */
  ghost function Positions<T>(p: T -> bool, s: seq<T>): set<int>
  {
    set i | 0 <= i < |s| && p(s[i])
  }

  /** `xs.filter(p)`: the elements satisfying `p`, in their original order, each
      as often as it occurs in `s`. */
  function Filter<T(!new)>(p: T -> bool, s: seq<T>): (r: seq<T>)
    ensures |r| <= |s|
    ensures forall x :: x in r <==> x in s && p(x)
    ensures forall x :: multiset(r)[x] == if p(x) then multiset(s)[x] else 0
    ensures IsSubseq(r, s)
  {
    if s == [] then []
    else
      assert s == [s[0]] + s[1..];
      var rest := Filter(p, s[1..]);
      if p(s[0]) then
        assert ([s[0]] + rest)[1..] == rest;
        [s[0]] + rest
      else
        assert rest != [] ==> rest[0] in rest;
        rest
  }

  /** The positions from `k` on whose element satisfies `p`. */
  ghost function PositionsFrom<T>(p: T -> bool, s: seq<T>, k: nat): set<int>
  {
    set i | k <= i < |s| && p(s[i])
  }

  /** A filter of the suffix from `k` keeps one element per position from `k` on
      whose element satisfies `p`. */
  lemma {:induction false} FilterCountFrom<T(!new)>(p: T -> bool, s: seq<T>, k: nat)
    requires k <= |s|
    ensures |Filter(p, s[k..])| == |PositionsFrom(p, s, k)|
    decreases |s| - k
  {
    if k < |s| {
      FilterCountFrom(p, s, k + 1);
      assert s[k..][1..] == s[k + 1..];
      var here: set<int> := if p(s[k]) then {k} else {};
      assert PositionsFrom(p, s, k) == PositionsFrom(p, s, k + 1) + here;
      assert k !in PositionsFrom(p, s, k + 1);
    } else {
      assert PositionsFrom(p, s, k) == {};
    }
  }

  /** A filter keeps one element per position whose element satisfies it. */
  lemma FilterCount<T(!new)>(p: T -> bool, s: seq<T>)
    ensures |Filter(p, s)| == |Positions(p, s)|
  {
    FilterCountFrom(p, s, 0);
    assert s[0..] == s;
    assert Positions(p, s) == PositionsFrom(p, s, 0);
  }

  /** The conjunction of two conditions. */
  function Both<T>(p: T -> bool, q: T -> bool): T -> bool
  {
    (x: T) => p(x) && q(x)
  }

  /** Filtering twice is filtering once by both conditions. */
  lemma {:induction false} FilterCompose<T(!new)>(p: T -> bool, q: T -> bool, s: seq<T>)
    ensures Filter(q, Filter(p, s)) == Filter(Both(p, q), s)
  {
    if s != [] {
      FilterCompose(p, q, s[1..]);
    }
  }

  /** Filtering twice keeps one element per position that satisfies both conditions. */
  lemma FilterTwiceCount<T(!new)>(p: T -> bool, q: T -> bool, s: seq<T>)
    ensures |Filter(q, Filter(p, s))| == |Positions(Both(p, q), s)|
  {
    FilterCompose(p, q, s);
    FilterCount(Both(p, q), s);
  }

  /** One step of a filter: the first element is kept exactly when it satisfies `p`. */
  lemma FilterUncons<T(!new)>(p: T -> bool, s: seq<T>)
    requires s != []
    ensures Filter(p, s) == (if p(s[0]) then [s[0]] else []) + Filter(p, s[1..])
  {
  }

  /** Concatenation is associative. */
  lemma AppendAssoc<T>(u: seq<T>, v: seq<T>, w: seq<T>)
    ensures u + (v + w) == (u + v) + w
  {
  }

  /** Filtering distributes over concatenation: the kept elements keep their order. */
  lemma {:induction false} FilterConcat<T(!new)>(p: T -> bool, a: seq<T>, b: seq<T>)
    ensures Filter(p, a + b) == Filter(p, a) + Filter(p, b)
  {
    if a == [] {
      assert a + b == b;
    } else {
      assert (a + b)[0] == a[0] && (a + b)[1..] == a[1..] + b;
      FilterUncons(p, a);
      FilterUncons(p, a + b);
      FilterConcat(p, a[1..], b);
      AppendAssoc(if p(a[0]) then [a[0]] else [], Filter(p, a[1..]), Filter(p, b));
    }
  }

  /** A filter that rejects nothing returns its input unchanged. */
  lemma {:induction false} FilterKeepsAll<T(!new)>(p: T -> bool, s: seq<T>)
    requires forall x :: x in s ==> p(x)
    ensures Filter(p, s) == s
  {
    if s != [] {
      var tail := s[1..];
      assert s == [s[0]] + tail;
      assert p(s[0]) by { assert s[0] in s; }
      assert forall x :: x in tail ==> p(x) by {
        forall x | x in tail ensures p(x) { assert x in s; }
      }
      FilterUncons(p, s);
      FilterKeepsAll(p, tail);
    }
  }

  /** A filter rejects something exactly when the result is shorter. */
  lemma {:induction false} FilterShrinks<T(!new)>(p: T -> bool, s: seq<T>)
    ensures |Filter(p, s)| < |s| <==> exists x :: x in s && !p(x)
  {
    if s != [] {
      FilterShrinks(p, s[1..]);
      assert s[0] in s;
      assert forall x :: x in s[1..] ==> x in s;
      assert forall x :: x in s ==> x == s[0] || x in s[1..];
    }
  }

  /** A filter comes back empty exactly when nothing satisfies it. */
  lemma FilterEmpty<T(!new)>(p: T -> bool, s: seq<T>)
    ensures Filter(p, s) == [] <==> forall x :: x in s ==> !p(x)
  {
    var r := Filter(p, s);
    if r != [] {
      assert r[0] in r;
    }
  }

  /** Filters by predicates that agree everywhere give the same result. */
  lemma {:induction false} FilterExtensional<T(!new)>(p: T -> bool, q: T -> bool, s: seq<T>)
    requires forall x :: p(x) == q(x)
    ensures Filter(p, s) == Filter(q, s)
  {
    if s != [] {
      FilterExtensional(p, q, s[1..]);
    }
  }

  /** Filtering by one of two exclusive conditions keeps as many elements as
      filtering by each and adding the counts. */
  lemma {:induction false} FilterDisjointCount<T(!new)>(p: T -> bool, q: T -> bool, s: seq<T>)
    requires forall x :: !(p(x) && q(x))
    ensures |Filter((x: T) => p(x) || q(x), s)| == |Filter(p, s)| + |Filter(q, s)|
  {
    if s != [] {
      FilterDisjointCount(p, q, s[1..]);
    }
  }

  /** A filter by a condition that is one of two exclusive conditions keeps as many
      elements as the two filters together. */
  lemma FilterSplitCount<T(!new)>(r: T -> bool, p: T -> bool, q: T -> bool, s: seq<T>)
    requires forall x :: r(x) == (p(x) || q(x))
    requires forall x :: !(p(x) && q(x))
    ensures |Filter(r, s)| == |Filter(p, s)| + |Filter(q, s)|
  {
    FilterDisjointCount(p, q, s);
    FilterExtensional((x: T) => p(x) || q(x), r, s);
  }

  /** Two filters applied in either order keep the same elements in the same order. */
  lemma {:induction false} FilterCommute<T(!new)>(p: T -> bool, q: T -> bool, s: seq<T>)
    ensures Filter(q, Filter(p, s)) == Filter(p, Filter(q, s))
  {
    if s != [] {
      FilterCommute(p, q, s[1..]);
    }
  }

  /** `xs.map(f)`. */
  function Map<T, U>(f: T -> U, s: seq<T>): (r: seq<U>)
    ensures |r| == |s|
    ensures forall i :: 0 <= i < |s| ==> r[i] == f(s[i])
  {
    if s == [] then [] else [f(s[0])] + Map(f, s[1..])
  }

  /** `xs.find(p)`: the first element satisfying `p`, or nothing. */
  function Find<T(!new)>(p: T -> bool, s: seq<T>): (r: Option<T>)
    ensures r.None? <==> forall x :: x in s ==> !p(x)
    ensures r.Some? ==> r.value in s && p(r.value)
    ensures r.Some? ==> exists i :: 0 <= i < |s| && s[i] == r.value && forall j :: 0 <= j < i ==> !p(s[j])
  {
    if s == [] then None
    else if p(s[0]) then Some(s[0])
    else
      var r := Find(p, s[1..]);
      assert r.Some? ==> exists i :: 1 <= i < |s| && s[i] == r.value && forall j :: 1 <= j < i ==> !p(s[j]);
      r
  }

  /** `xs.slice().reverse()`: a reversed copy; the input is not touched. */
  function Reverse<T>(s: seq<T>): (r: seq<T>)
    ensures |r| == |s|
    ensures forall i :: 0 <= i < |s| ==> r[i] == s[|s| - 1 - i]
  {
    if s == [] then [] else Reverse(s[1..]) + [s[0]]
  }

  /** `xs.filter((_, i) => i !== idx)`: drops the element at `idx`, if there is one. */
  function RemoveAt<T>(s: seq<T>, idx: nat): (r: seq<T>)
    ensures |r| == if idx < |s| then |s| - 1 else |s|
    ensures forall j :: 0 <= j < |r| ==> r[j] == if j < idx then s[j] else s[j + 1]
    ensures idx < |s| ==> multiset(r) + multiset{s[idx]} == multiset(s)
  {
    if idx < |s| then
      assert s == s[..idx] + [s[idx]] + s[idx + 1..];
      s[..idx] + s[idx + 1..]
    else s
  }

  /** `obj[key] || []`: the list stored under `key`, or the empty list. */
  function Lookup<K, V>(m: map<K, seq<V>>, k: K): (r: seq<V>)
    ensures k in m ==> r == m[k]
    ensures k !in m ==> r == []
  {
    if k in m then m[k] else []
  }

  /** `Math.min(a, b)` on naturals. */
  function Min(a: nat, b: nat): (r: nat)
    ensures r <= a && r <= b && (r == a || r == b)
  {
    if a <= b then a else b
  }
}
