/** The LINQ operators the generators use, over sequences: `Select`, `Where`+`Select`
    (a filter-map), `SelectMany` and `Distinct`. */
module Seqs {
  import opened Maybe

  /** `Select`: one result per element, in order. */
  function Map<A, B>(f: A -> B, s: seq<A>): (r: seq<B>)
    ensures |r| == |s|
    ensures forall i :: 0 <= i < |s| ==> r[i] == f(s[i])
  {
    if s == [] then [] else [f(s[0])] + Map(f, s[1..])
  }

  /** `Select` over one more element. */
  lemma MapSnoc<A, B>(f: A -> B, s: seq<A>, i: nat)
    requires i < |s|
    ensures Map(f, s[..i + 1]) == Map(f, s[..i]) + [f(s[i])]
  {
    assert |Map(f, s[..i + 1])| == |Map(f, s[..i]) + [f(s[i])]|;
  }

  /** `Select` over a concatenation. */
  lemma MapAppend<A, B>(f: A -> B, a: seq<A>, b: seq<A>)
    ensures Map(f, a + b) == Map(f, a) + Map(f, b)
  {
    var l, r := Map(f, a + b), Map(f, a) + Map(f, b);
    assert |l| == |r|;
    forall i | 0 <= i < |l|
      ensures l[i] == r[i]
    {
      if i < |a| {
        assert (a + b)[i] == a[i];
      } else {
        assert (a + b)[i] == b[i - |a|];
      }
    }
  }

  /** The element an optional value contributes to a filter-map. */
  function Contribution<B>(o: Option<B>): seq<B>
  {
    match o
    case Some(b) => [b]
    case None => []
  }

  /** `from x in s let y = f(x) where y is not null select y`, written from the back
      so that a loop over a prefix of `s` follows it step by step. */
  function FilterMap<A, B>(f: A -> Option<B>, s: seq<A>): (r: seq<B>)
    ensures |r| <= |s|
  {
    if s == [] then [] else FilterMap(f, s[..|s| - 1]) + Contribution(f(s[|s| - 1]))
  }

  /** One more element handled by the loop. */
  lemma FilterMapSnoc<A, B>(f: A -> Option<B>, s: seq<A>, i: nat)
    requires i < |s|
    ensures FilterMap(f, s[..i + 1]) == FilterMap(f, s[..i]) + Contribution(f(s[i]))
  {
    assert s[..i + 1][..i] == s[..i];
  }

  /** Filtering a concatenation filters each part. */
  lemma {:induction false} FilterMapAppend<A, B>(f: A -> Option<B>, a: seq<A>, b: seq<A>)
    ensures FilterMap(f, a + b) == FilterMap(f, a) + FilterMap(f, b)
  {
    if b == [] {
      assert a + b == a;
    } else {
      var n := |b| - 1;
      assert (a + b)[..|a + b| - 1] == a + b[..n];
      FilterMapAppend(f, a, b[..n]);
    }
  }

  /** The positions of `s` that a filter-map keeps, in increasing order. */
  function Kept<A, B>(f: A -> Option<B>, s: seq<A>): (idx: seq<nat>)
    ensures forall k :: 0 <= k < |idx| ==> idx[k] < |s| && f(s[idx[k]]).Some?
    ensures forall j, k :: 0 <= j < k < |idx| ==> idx[j] < idx[k]
    ensures forall i :: 0 <= i < |s| && f(s[i]).Some? ==> i in idx
  {
    if s == [] then []
    else
      var n := |s| - 1;
      var prefix := Kept(f, s[..n]);
      assert forall k :: 0 <= k < |prefix| ==> s[..n][prefix[k]] == s[prefix[k]];
      prefix + (if f(s[n]).Some? then [n] else [])
  }

  /** A filter-map keeps exactly the elements that map to a value, in their original
      order: its k-th result comes from the k-th kept position. */
  lemma {:induction false} FilterMapKept<A, B>(f: A -> Option<B>, s: seq<A>)
    ensures |Kept(f, s)| == |FilterMap(f, s)|
    ensures forall k :: 0 <= k < |Kept(f, s)| ==> f(s[Kept(f, s)[k]]) == Some(FilterMap(f, s)[k])
  {
    if s != [] {
      var n := |s| - 1;
      FilterMapKept(f, s[..n]);
      var prefix := Kept(f, s[..n]);
      var values := FilterMap(f, s[..n]);
      var idx := Kept(f, s);
      var r := FilterMap(f, s);
      assert idx == prefix + (if f(s[n]).Some? then [n] else []);
      assert r == values + Contribution(f(s[n]));
      forall k | 0 <= k < |idx|
        ensures f(s[idx[k]]) == Some(r[k])
      {
        if k < |prefix| {
          assert s[..n][prefix[k]] == s[prefix[k]];
          assert idx[k] == prefix[k] && r[k] == values[k];
        }
      }
    }
  }

  /** An element is in the result exactly when some input element maps to it. */
  lemma {:induction false} FilterMapMember<A, B>(f: A -> Option<B>, s: seq<A>, y: B)
    ensures y in FilterMap(f, s) <==> exists i :: 0 <= i < |s| && f(s[i]) == Some(y)
  {
    if s != [] {
      var n := |s| - 1;
      var init := s[..n];
      FilterMapMember(f, init, y);
      assert FilterMap(f, s) == FilterMap(f, init) + Contribution(f(s[n]));
      if y in FilterMap(f, init) {
        var i :| 0 <= i < n && f(init[i]) == Some(y);
        assert s[i] == init[i];
      } else if y in FilterMap(f, s) {
        assert f(s[n]) == Some(y);
      }
      if exists i :: 0 <= i < |s| && f(s[i]) == Some(y) {
        var i :| 0 <= i < |s| && f(s[i]) == Some(y);
        if i < n {
          assert f(init[i]) == Some(y);
        }
      }
    }
  }

  /** The k-th image of the kept results is the image of the k-th kept input element. */
  lemma FilterMapThenMapKept<A, B, C>(f: A -> Option<B>, g: B -> C, s: seq<A>)
    ensures |Kept(f, s)| == |Map(g, FilterMap(f, s))|
    ensures forall k :: 0 <= k < |Kept(f, s)| ==>
      f(s[Kept(f, s)[k]]).Some? && g(f(s[Kept(f, s)[k]]).value) == Map(g, FilterMap(f, s))[k]
  {
    FilterMapKept(f, s);
  }

  /** A value is among the images of the kept results exactly when some input element is
      kept and its result has that image. */
  lemma FilterMapThenMapMember<A, B, C>(f: A -> Option<B>, g: B -> C, s: seq<A>, y: C)
    ensures y in Map(g, FilterMap(f, s)) <==> exists i :: 0 <= i < |s| && f(s[i]).Some? && g(f(s[i]).value) == y
  {
    var r := FilterMap(f, s);
    if y in Map(g, r) {
      var k :| 0 <= k < |r| && Map(g, r)[k] == y;
      FilterMapMember(f, s, r[k]);
    }
    if exists i :: 0 <= i < |s| && f(s[i]).Some? && g(f(s[i]).value) == y {
      var i :| 0 <= i < |s| && f(s[i]).Some? && g(f(s[i]).value) == y;
      FilterMapMember(f, s, f(s[i]).value);
      var k :| 0 <= k < |r| && r[k] == f(s[i]).value;
      assert Map(g, r)[k] == y;
    }
  }

  /** The same, for results whose images are sequences and an element of one of them. */
  lemma FilterMapThenMapContains<A, B, C>(f: A -> Option<B>, g: B -> seq<C>, s: seq<A>, y: C)
    ensures (exists k :: 0 <= k < |Map(g, FilterMap(f, s))| && y in Map(g, FilterMap(f, s))[k]) <==>
      exists i :: 0 <= i < |s| && f(s[i]).Some? && y in g(f(s[i]).value)
  {
    var r := FilterMap(f, s);
    if exists k :: 0 <= k < |Map(g, r)| && y in Map(g, r)[k] {
      var k :| 0 <= k < |Map(g, r)| && y in Map(g, r)[k];
      FilterMapMember(f, s, r[k]);
    }
    if exists i :: 0 <= i < |s| && f(s[i]).Some? && y in g(f(s[i]).value) {
      var i :| 0 <= i < |s| && f(s[i]).Some? && y in g(f(s[i]).value);
      FilterMapMember(f, s, f(s[i]).value);
      var k :| 0 <= k < |r| && r[k] == f(s[i]).value;
      assert y in Map(g, r)[k];
    }
  }

  /** Enumerating `Select(f)` when `f` may throw: the results in order, or the failure of
      the first element that fails. */
  function Traverse<A, B>(f: A -> Result<B>, s: seq<A>): (r: Result<seq<B>>)
    ensures r.Success? <==> forall k :: 0 <= k < |s| ==> f(s[k]).Success?
    ensures r.Success? ==> |r.value| == |s| && forall k :: 0 <= k < |s| ==> f(s[k]) == Success(r.value[k])
    ensures r.Failure? ==> exists k :: 0 <= k < |s| && f(s[k]) == Failure(r.error)
  {
    if s == [] then Success([])
    else
      match f(s[0])
      case Failure(e) => Failure(e)
      case Success(b) =>
        match Traverse(f, s[1..])
        case Failure(e) =>
          var k :| 0 <= k < |s[1..]| && f(s[1..][k]) == Failure(e);
          assert f(s[k + 1]) == Failure(e);
          Failure(e)
        case Success(rest) => Success([b] + rest)
  }

  /** `SelectMany`: the concatenation of the parts, written from the back so that a
      loop of appends follows it step by step. */
  function Flatten<T>(ss: seq<seq<T>>): seq<T>
  {
    if ss == [] then [] else Flatten(ss[..|ss| - 1]) + ss[|ss| - 1]
  }

  /** One more part. */
  lemma FlattenSnoc<T>(ss: seq<seq<T>>, x: seq<T>)
    ensures Flatten(ss + [x]) == Flatten(ss) + x
  {
    assert (ss + [x])[..|ss|] == ss;
  }

  /** Flattening a concatenation flattens each part. */
  lemma {:induction false} FlattenAppend<T>(a: seq<seq<T>>, b: seq<seq<T>>)
    ensures Flatten(a + b) == Flatten(a) + Flatten(b)
  {
    if b != [] {
      var n := |b| - 1;
      assert (a + b)[..|a + b| - 1] == a + b[..n];
      FlattenAppend(a, b[..n]);
    } else {
      assert a + b == a;
    }
  }

  /** The first `k + 1` parts are the first `k` parts and one more. */
  lemma FlattenTake<T>(ss: seq<seq<T>>, k: nat)
    requires k < |ss|
    ensures Flatten(ss[..k + 1]) == Flatten(ss[..k]) + ss[k]
  {
    assert ss[..k + 1][..k] == ss[..k];
  }

  /** The parts from `k` on are part `k` followed by the parts after it. */
  lemma FlattenDrop<T>(ss: seq<seq<T>>, k: nat)
    requires k < |ss|
    ensures Flatten(ss[k..]) == ss[k] + Flatten(ss[k + 1..])
  {
    assert ss[k..] == [ss[k]] + ss[k + 1..];
    FlattenAppend([ss[k]], ss[k + 1..]);
    assert [ss[k]][..0] == [];
  }

  /** Splitting the parts splits their concatenation. */
  lemma FlattenSplit<T>(ss: seq<seq<T>>, k: nat)
    requires k <= |ss|
    ensures Flatten(ss) == Flatten(ss[..k]) + Flatten(ss[k..])
  {
    assert ss == ss[..k] + ss[k..];
    FlattenAppend(ss[..k], ss[k..]);
  }

  /** What `SelectMany` collects is exactly what the parts hold. */
  lemma {:induction false} FlattenMember<T>(ss: seq<seq<T>>, x: T)
    ensures x in Flatten(ss) <==> exists i :: 0 <= i < |ss| && x in ss[i]
  {
    if ss != [] {
      var n := |ss| - 1;
      FlattenMember(ss[..n], x);
      if exists i :: 0 <= i < |ss| && x in ss[i] {
        var i :| 0 <= i < |ss| && x in ss[i];
        if i < n {
          assert x in ss[..n][i];
        }
      }
      if x in Flatten(ss[..n]) {
        var i :| 0 <= i < n && x in ss[..n][i];
        assert x in ss[i];
      }
    }
  }

  /** An element whose part is empty can be dropped from a `SelectMany`. */
  lemma FlattenMapDrop<A, B>(f: A -> seq<B>, a: seq<A>, x: A, b: seq<A>)
    requires f(x) == []
    ensures Flatten(Map(f, a + [x] + b)) == Flatten(Map(f, a + b))
  {
    MapAppend(f, a + [x], b);
    MapAppend(f, a, [x]);
    MapAppend(f, a, b);
    assert Map(f, [x]) == [[]];
    FlattenAppend(Map(f, a) + [[]], Map(f, b));
    FlattenSnoc(Map(f, a), []);
    FlattenAppend(Map(f, a), Map(f, b));
  }

  predicate NoDuplicates<T(==)>(s: seq<T>)
  {
    forall i, j :: 0 <= i < j < |s| ==> s[i] != s[j]
  }

  /** `Distinct` (and `Union`): the first occurrence of each element, in order. */
  function Distinct<T(==)>(s: seq<T>): (r: seq<T>)
    ensures NoDuplicates(r)
    ensures forall i :: 0 <= i < |r| ==> r[i] in s
    ensures forall i :: 0 <= i < |s| ==> s[i] in r
  {
    if s == [] then []
    else
      var d := Distinct(s[..|s| - 1]);
      assert forall i :: 0 <= i < |s| - 1 ==> s[i] == s[..|s| - 1][i];
      if s[|s| - 1] in d then d else d + [s[|s| - 1]]
  }

  /** A sequence without duplicates is its own `Distinct`. */
  lemma {:induction false} DistinctNoDuplicates<T>(s: seq<T>)
    requires NoDuplicates(s)
    ensures Distinct(s) == s
  {
    if s != [] {
      var n := |s| - 1;
      DistinctNoDuplicates(s[..n]);
      assert s[n] !in s[..n];
      assert s[..n] + [s[n]] == s;
    }
  }

  /** Appending elements never reorders what `Distinct` already produced: the result
      for `a` is a prefix of the result for `a + b`. */
  lemma {:induction false} DistinctPrefix<T>(a: seq<T>, b: seq<T>)
    ensures Distinct(a) <= Distinct(a + b)
  {
    if b != [] {
      var n := |b| - 1;
      assert (a + b)[..|a + b| - 1] == a + b[..n];
      DistinctPrefix(a, b[..n]);
    } else {
      assert a + b == a;
    }
  }
}
