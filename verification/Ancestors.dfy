/** The reverse reachability of `docs/analyze.py`: which crates depend, at any distance,
    on one of the seeds. */
module Ancestors {

  type Crate = string
  type Graph = map<Crate, set<Crate>>

  /** `a` lists `b`; a crate that is no key lists nothing. */
  predicate Edge(g: Graph, a: Crate, b: Crate) {
    a in g && b in g[a]
  }

  /** One dependency edge or more, from the first crate to the last. */
  ghost predicate IsPath(deps: Graph, p: seq<Crate>) {
    |p| >= 2 && forall i :: 0 <= i < |p| - 1 ==> Edge(deps, p[i], p[i + 1])
  }

  ghost predicate Joins(deps: Graph, p: seq<Crate>, c: Crate, seeds: set<Crate>) {
    IsPath(deps, p) && p[0] == c && p[|p| - 1] in seeds
  }

  ghost predicate DependsOn(deps: Graph, c: Crate, seeds: set<Crate>) {
    exists p :: Joins(deps, p, c, seeds)
  }

  ghost predicate Reversed(rev: Graph, deps: Graph) {
    forall a, b :: Edge(rev, b, a) <==> Edge(deps, a, b)
  }

  /** `rev.get(n, ())`. */
  function Get(g: Graph, n: Crate): set<Crate> {
    if n in g then g[n] else {}
  }

  method BuildRev(deps: Graph) returns (rev: Graph)
    ensures Reversed(rev, deps)
  {
    rev := map[];
    var froms := deps.Keys;
    while froms != {}
      invariant froms <= deps.Keys
      invariant forall a, b :: Edge(rev, b, a) <==> Edge(deps, a, b) && a !in froms
    {
      var from :| from in froms;
      var tos := deps[from];
      while tos != {}
        invariant tos <= deps[from]
        invariant forall a, b :: Edge(rev, b, a) <==> Edge(deps, a, b) && (a !in froms || (a == from && b !in tos))
      {
        var to :| to in tos;
        rev := rev[to := Get(rev, to) + {from}];
        tos := tos - {to};
      }
      froms := froms - {from};
    }
  }

  method ListOf(s: set<Crate>) returns (list: seq<Crate>)
    ensures forall c :: c in list <==> c in s
  {
    list := [];
    var rest := s;
    while rest != {}
      invariant rest <= s && forall c :: c in list <==> c in s - rest
    {
      var c :| c in rest;
      list := list + [c];
      rest := rest - {c};
    }
  }

  /** A crate that lists a seed or a crate already reached is reached. */
  lemma OneEdgeFurther(deps: Graph, c: Crate, n: Crate, seeds: set<Crate>)
    requires Edge(deps, c, n) && (n in seeds || DependsOn(deps, n, seeds))
    ensures DependsOn(deps, c, seeds)
  {
    if n in seeds {
      assert Joins(deps, [c, n], c, seeds);
    } else {
      var p :| Joins(deps, p, n, seeds);
      var q := [c] + p;
      forall i | 0 <= i < |q| - 1 ensures Edge(deps, q[i], q[i + 1]) {
        assert i > 0 ==> q[i] == p[i - 1];
      }
      assert q[|q| - 1] == p[|p| - 1];
      assert Joins(deps, q, c, seeds);
    }
  }

  /** A set that takes in whatever lists a seed or a member takes in every path. */
  lemma {:induction false} ClosedTakesAll(deps: Graph, p: seq<Crate>, seeds: set<Crate>, closed: set<Crate>)
    requires IsPath(deps, p) && p[|p| - 1] in seeds
    requires forall a, b :: Edge(deps, a, b) && (b in seeds || b in closed) ==> a in closed
    ensures p[0] in closed
  {
    assert Edge(deps, p[0], p[1]);
    if |p| > 2 {
      var q := p[1..];
      forall i | 0 <= i < |q| - 1 ensures Edge(deps, q[i], q[i + 1]) {
        assert q[i] == p[i + 1] && q[i + 1] == p[i + 2];
      }
      ClosedTakesAll(deps, q, seeds, closed);
    }
  }

  /** Ends on every graph, cyclic ones included, with exactly the crates from which a
      seed can be reached by one edge or more. */
  method Find(rev: Graph, seeds: set<Crate>, ghost deps: Graph) returns (seen: set<Crate>)
    requires Reversed(rev, deps)
    ensures forall c :: c in seen <==> DependsOn(deps, c, seeds)
  {
    hide DependsOn;
    seen := {};
    var stack := ListOf(seeds);
    while stack != []
      invariant seen <= deps.Keys && forall c :: c in seen ==> DependsOn(deps, c, seeds)
      invariant forall n :: n in stack ==> n in seeds || n in seen
      invariant forall a, b :: Edge(deps, a, b) && (b in seeds || b in seen) && b !in stack ==> a in seen
      decreases |deps.Keys - seen|, |stack|
    {
      var n := stack[|stack| - 1];
      stack := stack[..|stack| - 1];
      ghost var seenBefore, stackBefore := seen, stack;
      var rest := Get(rev, n);
      while rest != {}
        invariant rest <= Get(rev, n)
        invariant seenBefore <= seen <= deps.Keys && forall c :: c in seen ==> DependsOn(deps, c, seeds)
        invariant seen == seenBefore ==> stack == stackBefore
        invariant forall m :: m in stack ==> m in seeds || m in seen
        invariant forall a, b :: Edge(deps, a, b) && (b in seeds || b in seen) && b !in stack ==>
          a in seen || (b == n && a in rest)
      {
        var p :| p in rest;
        if p !in seen {
          assert Edge(rev, n, p);
          OneEdgeFurther(deps, p, n, seeds);
          seen := seen + {p};
          stack := stack + [p];
        }
        rest := rest - {p};
      }
      if seen != seenBefore {
        Fewer(deps.Keys, seenBefore, seen);
      }
    }
    forall c | DependsOn(deps, c, seeds) ensures c in seen {
      var p := PathOf(deps, c, seeds);
      ClosedTakesAll(deps, p, seeds, seen);
    }
  }

  lemma PathOf(deps: Graph, c: Crate, seeds: set<Crate>) returns (p: seq<Crate>)
    requires DependsOn(deps, c, seeds)
    ensures Joins(deps, p, c, seeds)
  {
    p :| Joins(deps, p, c, seeds);
  }

  lemma Fewer(all: set<Crate>, before: set<Crate>, after: set<Crate>)
    requires before < after <= all
    ensures |all - after| < |all - before|
  {
    assert !(after <= before);
    var c :| c in after && c !in before;
    var rest := all - before - {c};
    assert all - after <= rest;
    assert rest == (all - before) - {c};
    SubsetIsSmaller(all - after, rest);
  }

  lemma {:induction false} SubsetIsSmaller(a: set<Crate>, b: set<Crate>)
    requires a <= b
    ensures |a| <= |b|
  {
    if a != {} {
      var c :| c in a;
      SubsetIsSmaller(a - {c}, b - {c});
    }
  }

  /** `rev` and `ancestors`, as the script puts them together. */
  method Ancestors(deps: Graph, seeds: set<Crate>) returns (seen: set<Crate>)
    ensures forall c :: c in seen <==> DependsOn(deps, c, seeds)
  {
    var rev := BuildRev(deps);
    seen := Find(rev, seeds, deps);
  }
}
