/**
 The order in which message definitions are emitted
 (Tools/msg/px_generate_uorb_compressed_fields.py): depth first over the dependencies of every
 definition, then reversed, so that what a definition depends on comes after it.
 */
module DependencyOrder {

  type Name = string

  /** The definitions in the order of the dictionary, and what each depends on. */
  datatype Graph = Graph(names: seq<Name>, deps: map<Name, seq<Name>>) {
    ghost predicate Valid() {
      && Distinct(names)
      && (forall n :: n in names <==> n in deps)
      && forall n, d | n in deps && d in deps[n] :: d in deps
    }

    predicate DependsOn(n: Name, d: Name) { n in deps && d in deps[n] }

    /** A chain of definitions, each depending on the next. */
    ghost predicate IsPath(p: seq<Name>) {
      && (forall k | 0 <= k < |p| :: p[k] in deps)
      && forall k | 0 <= k < |p| - 1 :: p[k + 1] in deps[p[k]]
    }

    ghost predicate Acyclic() {
      forall p | |p| > 1 && IsPath(p) :: p[0] != p[|p| - 1]
    }

    ghost predicate IsRank(rank: Name -> nat) {
      forall n, d | n in deps && d in deps[n] :: rank(d) < rank(n)
    }
  }

  ghost predicate Distinct<T>(s: seq<T>) {
    forall a, b | 0 <= a < b < |s| :: s[a] != s[b]
  }

  function Elements<T>(s: seq<T>): set<T> { set x | x in s }

  // ---------- an acyclic graph has a rank ----------

  /** Longest chain of dependencies from n, up to length `limit`. */
  ghost function Height(g: Graph, n: Name, limit: nat): nat
    requires g.Valid() && n in g.deps
    decreases limit, 1, 0
  {
    if limit == 0 then 0 else Heights(g, g.deps[n], limit - 1)
  }

  ghost function Heights(g: Graph, ds: seq<Name>, limit: nat): nat
    requires g.Valid() && forall d | d in ds :: d in g.deps
    decreases limit, 2, |ds|
  {
    if ds == [] then 0
    else
      var h, rest := 1 + Height(g, ds[0], limit), Heights(g, ds[1..], limit);
      if h > rest then h else rest
  }

  /** Heights is the maximum over the dependencies, of one more than their height. */
  lemma {:induction false} HeightsIsMax(g: Graph, ds: seq<Name>, limit: nat)
    requires g.Valid() && forall d | d in ds :: d in g.deps
    ensures forall d | d in ds :: Height(g, d, limit) < Heights(g, ds, limit)
    ensures ds != [] ==> exists d | d in ds :: Heights(g, ds, limit) == 1 + Height(g, d, limit)
    ensures ds == [] ==> Heights(g, ds, limit) == 0
  {
    if ds != [] {
      HeightsIsMax(g, ds[1..], limit);
      assert ds == [ds[0]] + ds[1..];
      if 1 + Height(g, ds[0], limit) < Heights(g, ds[1..], limit) {
        var d :| d in ds[1..] && Heights(g, ds[1..], limit) == 1 + Height(g, d, limit);
        assert d in ds;
      } else {
        assert ds[0] in ds;
      }
    }
  }

  /** A height is attained by a path. */
  lemma {:induction false} HeightHasPath(g: Graph, n: Name, limit: nat) returns (p: seq<Name>)
    requires g.Valid() && n in g.deps
    ensures g.IsPath(p) && |p| == Height(g, n, limit) + 1 && p[0] == n
    decreases limit
  {
    if limit == 0 || g.deps[n] == [] {
      p := [n];
    } else {
      HeightsIsMax(g, g.deps[n], limit - 1);
      var d :| d in g.deps[n] && Heights(g, g.deps[n], limit - 1) == 1 + Height(g, d, limit - 1);
      var q := HeightHasPath(g, d, limit - 1);
      p := [n] + q;
    }
  }

  /** If the limit never binds, a larger limit gives the same height. */
  lemma {:induction false} HeightStable(g: Graph, n: Name, limit: nat)
    requires g.Valid() && n in g.deps
    requires Height(g, n, limit + 1) <= limit
    ensures Height(g, n, limit) == Height(g, n, limit + 1)
  {
    HeightGrows(g, n, limit);
    if Height(g, n, limit) < Height(g, n, limit + 1) {
      HeightBinds(g, n, limit);
    }
  }

  /** Raising the limit by one raises heights only where the limit was reached. */
  lemma {:induction false} HeightBinds(g: Graph, n: Name, limit: nat)
    requires g.Valid() && n in g.deps
    requires Height(g, n, limit) < Height(g, n, limit + 1)
    ensures Height(g, n, limit + 1) == limit + 1
    decreases limit
  {
    var ds := g.deps[n];
    HeightsIsMax(g, ds, limit);
    var d :| d in ds && Heights(g, ds, limit) == 1 + Height(g, d, limit);
    if limit > 0 {
      HeightsIsMax(g, ds, limit - 1);
      HeightGrows(g, d, limit - 1);
      HeightBinds(g, d, limit - 1);
    }
  }

  lemma {:induction false} HeightGrows(g: Graph, n: Name, limit: nat)
    requires g.Valid() && n in g.deps
    ensures Height(g, n, limit) <= Height(g, n, limit + 1)
    decreases limit
  {
    var ds := g.deps[n];
    if limit > 0 && ds != [] {
      HeightsIsMax(g, ds, limit - 1);
      HeightsIsMax(g, ds, limit);
      var d :| d in ds && Heights(g, ds, limit - 1) == 1 + Height(g, d, limit - 1);
      HeightGrows(g, d, limit - 1);
    }
  }

  lemma {:induction false} DistinctSize<T>(s: seq<T>)
    requires Distinct(s)
    ensures |Elements(s)| == |s|
  {
    if s != [] {
      var front := s[..|s| - 1];
      DistinctSize(front);
      ElementsSnoc(front, s[|s| - 1]);
      assert s == front + [s[|s| - 1]];
    }
  }

  lemma ElementsSnoc<T>(s: seq<T>, x: T)
    ensures Elements(s + [x]) == Elements(s) + {x}
  {
  }

  /** In an acyclic graph no path is longer than there are definitions. */
  lemma PathsAreShort(g: Graph, p: seq<Name>)
    requires g.Valid() && g.Acyclic() && g.IsPath(p)
    ensures |p| <= |g.names|
  {
    forall a, b | 0 <= a < b < |p|
      ensures p[a] != p[b]
    {
      var q := p[a..b + 1];
      assert g.IsPath(q);
    }
    DistinctSize(p);
    DistinctSize(g.names);
    assert Elements(p) <= Elements(g.names);
    assert Elements(g.names) == Elements(p) + (Elements(g.names) - Elements(p));
  }

  ghost function HeightRank(g: Graph): Name -> nat
    requires g.Valid()
  {
    n => if n in g.deps then Height(g, n, |g.names|) else 0
  }

  /** A graph has a rank exactly if it has no cycle. */
  lemma AcyclicIffRanked(g: Graph)
    requires g.Valid()
    ensures g.Acyclic() <==> exists rank :: g.IsRank(rank)
  {
    if g.Acyclic() {
      var limit := |g.names|;
      var rank := HeightRank(g);
      forall n, d | n in g.deps && d in g.deps[n]
        ensures rank(d) < rank(n)
      {
        var p := HeightHasPath(g, n, limit + 1);
        PathsAreShort(g, p);
        HeightStable(g, n, limit);
        HeightsIsMax(g, g.deps[n], limit);
      }
      assert g.IsRank(rank);
    }
    if exists rank :: g.IsRank(rank) {
      var rank :| g.IsRank(rank);
      forall p | |p| > 1 && g.IsPath(p)
        ensures p[0] != p[|p| - 1]
      {
        RankFalls(g, rank, p);
      }
    }
  }

  lemma {:induction false} RankFalls(g: Graph, rank: Name -> nat, p: seq<Name>)
    requires g.IsRank(rank) && g.IsPath(p) && |p| > 1
    ensures rank(p[|p| - 1]) < rank(p[0])
  {
    assert p[1] in g.deps[p[0]];
    if |p| > 2 {
      RankFalls(g, rank, p[1..]);
    }
  }

  // ---------- the depth first search ----------

  /** Every dependency of an element is in `done` or earlier in `s`. */
  ghost predicate DepsFirst(g: Graph, s: seq<Name>, done: set<Name>) {
    forall k, d {:trigger g.DependsOn(s[k], d)} | 0 <= k < |s| && g.DependsOn(s[k], d) :: d in done || d in s[..k]
  }

  lemma DepsFirstAppend(g: Graph, a: seq<Name>, b: seq<Name>, done: set<Name>)
    requires DepsFirst(g, a, done) && DepsFirst(g, b, done + Elements(a))
    ensures DepsFirst(g, a + b, done)
  {
    forall k, d | 0 <= k < |a + b| && g.DependsOn((a + b)[k], d)
      ensures d in done || d in (a + b)[..k]
    {
      if k < |a| {
        assert (a + b)[..k] == a[..k];
        assert (a + b)[k] == a[k];
      } else {
        var j := k - |a|;
        assert (a + b)[k] == b[j];
        assert (a + b)[..k] == a + b[..j];
        assert d in done + Elements(a) || d in b[..j];
      }
    }
  }

  lemma DistinctAppend(a: seq<Name>, b: seq<Name>)
    requires Distinct(a) && Distinct(b) && Elements(a) !! Elements(b)
    ensures Distinct(a + b) && Elements(a + b) == Elements(a) + Elements(b)
  {
    forall i, j | 0 <= i < |a| && 0 <= j < |b|
      ensures a[i] != b[j]
    {
      assert a[i] in Elements(a) && b[j] in Elements(b);
    }
  }

  /** What one search adds: new definitions, each once and after its dependencies. */
  ghost predicate Adds(g: Graph, ret: seq<Name>, before: set<Name>, after: set<Name>) {
    && Distinct(ret)
    && Elements(ret) !! before
    && after == before + Elements(ret)
    && Elements(ret) <= g.deps.Keys
    && DepsFirst(g, ret, before)
  }

  lemma AddsNothing(g: Graph, done: set<Name>)
    ensures Adds(g, [], done, done)
  {
  }

  lemma AddsMore(g: Graph, a: seq<Name>, b: seq<Name>, s0: set<Name>, s1: set<Name>, s2: set<Name>)
    requires Adds(g, a, s0, s1) && Adds(g, b, s1, s2)
    ensures Adds(g, a + b, s0, s2)
  {
    DistinctAppend(a, b);
    DepsFirstAppend(g, a, b, s0);
  }

  class Definitions {
    const graph: Graph
    var completed: set<Name>

    constructor (g: Graph)
      ensures graph == g && completed == {}
    {
      graph, completed := g, {};
    }

    /** get_ordered_list_by_dependency() */
    method OrderedList(name: Name, ghost rank: Name -> nat) returns (ret: seq<Name>)
      requires graph.Valid() && graph.IsRank(rank) && name in graph.deps
      modifies this`completed
      ensures Adds(graph, ret, old(completed), completed)
      ensures name in completed
      ensures forall x | x in ret :: rank(x) <= rank(name)
      decreases rank(name)
    {
      ret := [];
      if name in completed {
        AddsNothing(graph, completed);
        return;
      }
      var dependencies := graph.deps[name];
      AddsNothing(graph, completed);
      for i := 0 to |dependencies|
        invariant Adds(graph, ret, old(completed), completed)
        invariant forall k | 0 <= k < i :: dependencies[k] in completed
        invariant forall x | x in ret :: rank(x) < rank(name)
      {
        ghost var s1 := completed;
        var more := OrderedList(dependencies[i], rank);
        AddsMore(graph, ret, more, old(completed), s1, completed);
        ret := ret + more;
      }
      assert Adds(graph, [name], completed, completed + {name});
      AddsMore(graph, ret, [name], old(completed), completed, completed + {name});
      ret := ret + [name];
      completed := completed + {name};
    }
  }

  function Reverse<T>(s: seq<T>): (r: seq<T>)
    ensures |r| == |s| && forall k | 0 <= k < |s| :: r[k] == s[|s| - 1 - k]
  {
    if s == [] then [] else [s[|s| - 1]] + Reverse(s[..|s| - 1])
  }

  /** The list is a permutation of the definitions in which dependencies come later. */
  ghost predicate IsEmissionOrder(g: Graph, names: seq<Name>) {
    && Distinct(names)
    && |names| == |g.names|
    && (forall n :: n in names <==> n in g.deps)
    && forall k, d | 0 <= k < |names| && g.DependsOn(names[k], d) :: d in names[k + 1..]
  }

  /** main(): every definition as a root, then the reversal, then the two assertions. */
  method EmissionOrder(definitions: Definitions) returns (names: seq<Name>)
    requires definitions.graph.Valid() && definitions.graph.Acyclic() && definitions.completed == {}
    modifies definitions
    ensures IsEmissionOrder(definitions.graph, names)
    ensures forall n | n in definitions.graph.names :: n in definitions.completed
  {
    var g := definitions.graph;
    AcyclicIffRanked(g);
    ghost var rank :| g.IsRank(rank);
    names := [];
    AddsNothing(g, {});
    for i := 0 to |g.names|
      invariant Adds(g, names, {}, definitions.completed)
      invariant forall k | 0 <= k < i :: g.names[k] in definitions.completed
    {
      ghost var s1 := definitions.completed;
      var more := definitions.OrderedList(g.names[i], rank);
      AddsMore(g, names, more, {}, s1, definitions.completed);
      names := names + more;
    }
    ReversalIsEmissionOrder(g, names);
    names := Reverse(names);
    assert |names| == |g.names|;
    assert forall n | n in g.names :: n in definitions.completed;
  }

  lemma {:induction false} ReverseElements<T>(s: seq<T>)
    ensures Elements(Reverse(s)) == Elements(s)
  {
    if s != [] {
      var front := s[..|s| - 1];
      ReverseElements(front);
      assert Elements(s) == Elements(front) + {s[|s| - 1]};
      assert Elements(Reverse(s)) == {s[|s| - 1]} + Elements(Reverse(front));
    }
  }

  /** What comes before position j comes, reversed, after it. */
  lemma {:induction false} ReverseOrder<T>(s: seq<T>, j: nat, d: T)
    requires j < |s| && d in s[..j]
    ensures d in Reverse(s)[|s| - j..]
  {
    var i :| 0 <= i < j && s[i] == d;
    assert Reverse(s)[|s| - j..][j - 1 - i] == Reverse(s)[|s| - 1 - i];
  }

  lemma {:induction false} ReverseDistinct<T>(s: seq<T>)
    requires Distinct(s)
    ensures Distinct(Reverse(s))
  {
  }

  lemma {:induction false} ReversalDepsLater(g: Graph, s: seq<Name>, k: nat, d: Name)
    requires DepsFirst(g, s, {}) && k < |s|
    requires g.DependsOn(Reverse(s)[k], d)
    ensures d in Reverse(s)[k + 1..]
  {
    var j := |s| - 1 - k;
    assert g.DependsOn(s[j], d);
    ReverseOrder(s, j, d);
  }

  lemma {:induction false} ReversalIsEmissionOrder(g: Graph, s: seq<Name>)
    requires g.Valid() && Adds(g, s, {}, g.deps.Keys)
    ensures IsEmissionOrder(g, Reverse(s))
  {
    hide Reverse;
    var r := Reverse(s);
    ReverseElements(s);
    ReverseDistinct(s);
    DistinctSize(s);
    DistinctSize(g.names);
    assert Elements(s) == Elements(g.names);
    assert forall n :: n in r <==> n in Elements(r);
    forall k, d | 0 <= k < |r| && g.DependsOn(r[k], d)
      ensures d in r[k + 1..]
    {
      ReversalDepsLater(g, s, k, d);
    }
  }
}
