/**
 The worklist at the heart of the import tracer, over an abstract import graph.

 A graph maps each file that has imports to those imports, in source order. The worklist
 is a stack: files are popped from the end, skipped when they lie beyond the depth bound or
 were visited before, and otherwise visited and followed by their imports, one level deeper.
 */
module ImportGraph {
  import opened Wrappers

  /** An absolute path, as its components below the root directory. */
  type Path = seq<string>

  type Graph = map<Path, seq<Path>>

  datatype Queued = Queued(file: Path, depth: nat)

  function Imports(g: Graph, file: Path): seq<Path> {
    if file in g then g[file] else []
  }

  function Enqueue(files: seq<Path>, depth: nat): seq<Queued> {
    seq(|files|, i requires 0 <= i < |files| => Queued(files[i], depth))
  }

  predicate Beyond(depth: nat, bound: Option<nat>) {
    bound.Some? && depth > bound.value
  }

  /** The files visited, in order, from the given stack on. The unvisited files with imports become
      fewer, or stay the same while the stack becomes shorter. */
  function Work(g: Graph, stack: seq<Queued>, visited: seq<Path>, bound: Option<nat>): seq<Path>
    decreases g.Keys - Elements(visited), |stack|
  {
    if stack == [] then visited
    else
      var top, rest := stack[|stack| - 1], stack[..|stack| - 1];
      if Beyond(top.depth, bound) || top.file in visited then
        Work(g, rest, visited, bound)
      else
        assert top.file in Elements(visited + [top.file]) && top.file !in Elements(visited);
        assert Elements(visited) <= Elements(visited + [top.file]);
        assert top.file !in g ==> g.Keys - Elements(visited + [top.file]) == g.Keys - Elements(visited);
        Work(g, rest + Enqueue(Imports(g, top.file), top.depth + 1), visited + [top.file], bound)
  }

  function Trace(g: Graph, roots: seq<Path>, bound: Option<nat>): seq<Path> {
    Work(g, Enqueue(roots, 0), [], bound)
  }

  // ---------- Import paths ----------

  ghost predicate Linked(g: Graph, chain: seq<Path>, i: int)
    requires 0 < i < |chain|
  {
    chain[i] in Imports(g, chain[i - 1])
  }

  ghost predicate IsChain(g: Graph, chain: seq<Path>) {
    forall i :: 0 < i < |chain| ==> Linked(g, chain, i)
  }

  /** `chain` is an import path from one of the roots to `file`. */
  ghost predicate ChainTo(g: Graph, roots: seq<Path>, chain: seq<Path>, file: Path) {
    && chain != []
    && IsChain(g, chain)
    && chain[0] in roots
    && chain[|chain| - 1] == file
  }

  /** Some import path from a root to `file` has no more than `bound` imports. */
  ghost predicate InBall(g: Graph, roots: seq<Path>, file: Path, bound: Option<nat>) {
    exists chain :: ChainTo(g, roots, chain, file) && !Beyond(|chain| - 1, bound)
  }

  ghost predicate Reachable(g: Graph, roots: seq<Path>, file: Path) {
    InBall(g, roots, file, None)
  }

  lemma ChainExtends(g: Graph, roots: seq<Path>, chain: seq<Path>, file: Path, next: Path)
    requires ChainTo(g, roots, chain, file)
    requires next in Imports(g, file)
    ensures ChainTo(g, roots, chain + [next], next)
  {
    var longer := chain + [next];
    forall i | 0 < i < |longer|
      ensures Linked(g, longer, i)
    {
      if i < |chain| {
        assert Linked(g, chain, i);
      }
    }
  }

  // ---------- What a worklist run visits ----------

  lemma {:induction false} WorkIsDistinct(g: Graph, stack: seq<Queued>, visited: seq<Path>, bound: Option<nat>)
    requires Distinct(visited)
    ensures Distinct(Work(g, stack, visited, bound))
    decreases g.Keys - Elements(visited), |stack|
  {
    if stack != [] {
      var top, rest := stack[|stack| - 1], stack[..|stack| - 1];
      if Beyond(top.depth, bound) || top.file in visited {
        WorkIsDistinct(g, rest, visited, bound);
      } else {
        WorkStep(g, top, visited);
        WorkIsDistinct(g, rest + Enqueue(Imports(g, top.file), top.depth + 1), visited + [top.file], bound);
      }
    }
  }

  /** Every file is traced once. */
  lemma TraceVisitsOnce(g: Graph, roots: seq<Path>, bound: Option<nat>)
    ensures Distinct(Trace(g, roots, bound))
  {
    WorkIsDistinct(g, Enqueue(roots, 0), [], bound);
  }

  /** The termination argument of one visiting step, for the inductions below. */
  lemma WorkStep(g: Graph, top: Queued, visited: seq<Path>)
    requires top.file !in visited
    ensures Elements(visited + [top.file]) == Elements(visited) + {top.file}
    ensures top.file !in g ==> g.Keys - Elements(visited + [top.file]) == g.Keys - Elements(visited)
    ensures top.file in g ==> g.Keys - Elements(visited + [top.file]) < g.Keys - Elements(visited)
  {
    assert top.file in g ==> top.file in g.Keys - Elements(visited);
  }

  /** Visiting the top of the stack is one step of the work, and the work left becomes smaller. */
  lemma WorkVisits(g: Graph, rest: seq<Queued>, top: Queued, visited: seq<Path>, bound: Option<nat>)
    requires !Beyond(top.depth, bound) && top.file !in visited
    ensures var next, more := rest + Enqueue(Imports(g, top.file), top.depth + 1), visited + [top.file];
            && Work(g, next, more, bound) == Work(g, rest + [top], visited, bound)
            && (g.Keys - Elements(more) < g.Keys - Elements(visited)
                || (g.Keys - Elements(more) == g.Keys - Elements(visited) && |next| <= |rest|))
  {
    WorkStep(g, top, visited);
    assert (rest + [top])[..|rest|] == rest;
  }

  lemma WorkIsDone(g: Graph, visited: seq<Path>, bound: Option<nat>)
    ensures Work(g, [], visited, bound) == visited
  {
  }

  lemma WorkSkips(g: Graph, rest: seq<Queued>, top: Queued, visited: seq<Path>, bound: Option<nat>)
    requires Beyond(top.depth, bound) || top.file in visited
    ensures Work(g, rest, visited, bound) == Work(g, rest + [top], visited, bound)
  {
    assert (rest + [top])[..|rest|] == rest;
  }

  /** Nothing visited is lost, and every queued file within the bound is visited. */
  lemma {:induction false} WorkKeeps(g: Graph, stack: seq<Queued>, visited: seq<Path>, bound: Option<nat>)
    ensures forall f :: f in visited ==> f in Work(g, stack, visited, bound)
    ensures forall q :: q in stack && !Beyond(q.depth, bound) ==> q.file in Work(g, stack, visited, bound)
    decreases g.Keys - Elements(visited), |stack|
  {
    if stack != [] {
      var top, rest := stack[|stack| - 1], stack[..|stack| - 1];
      assert stack == rest + [top];
      if Beyond(top.depth, bound) || top.file in visited {
        WorkKeeps(g, rest, visited, bound);
      } else {
        WorkStep(g, top, visited);
        var pushed := Enqueue(Imports(g, top.file), top.depth + 1);
        WorkKeeps(g, rest + pushed, visited + [top.file], bound);
        assert top.file in visited + [top.file];
        forall q | q in rest ensures q in rest + pushed {}
      }
    }
  }

  ghost predicate Justified(g: Graph, roots: seq<Path>, q: Queued) {
    exists chain :: ChainTo(g, roots, chain, q.file) && |chain| == q.depth + 1
  }

  lemma PushedAreJustified(g: Graph, roots: seq<Path>, top: Queued)
    requires Justified(g, roots, top)
    ensures forall q :: q in Enqueue(Imports(g, top.file), top.depth + 1) ==> Justified(g, roots, q)
  {
    var chain :| ChainTo(g, roots, chain, top.file) && |chain| == top.depth + 1;
    forall q | q in Enqueue(Imports(g, top.file), top.depth + 1)
      ensures Justified(g, roots, q)
    {
      ChainExtends(g, roots, chain, top.file, q.file);
    }
  }

  lemma JustifiedIsInBall(g: Graph, roots: seq<Path>, q: Queued, bound: Option<nat>)
    requires Justified(g, roots, q) && !Beyond(q.depth, bound)
    ensures InBall(g, roots, q.file, bound)
  {
    var chain :| ChainTo(g, roots, chain, q.file) && |chain| == q.depth + 1;
  }

  lemma {:induction false} WorkStaysInBall(
    g: Graph, roots: seq<Path>, stack: seq<Queued>, visited: seq<Path>, bound: Option<nat>)
    requires forall q :: q in stack ==> Justified(g, roots, q)
    requires forall f :: f in visited ==> InBall(g, roots, f, bound)
    ensures forall f :: f in Work(g, stack, visited, bound) ==> InBall(g, roots, f, bound)
    decreases g.Keys - Elements(visited), |stack|
  {
    hide Justified, InBall;
    if stack != [] {
      var top, rest := stack[|stack| - 1], stack[..|stack| - 1];
      assert top in stack;
      if Beyond(top.depth, bound) || top.file in visited {
        WorkStaysInBall(g, roots, rest, visited, bound);
      } else {
        WorkStep(g, top, visited);
        PushedAreJustified(g, roots, top);
        JustifiedIsInBall(g, roots, top, bound);
        var next := rest + Enqueue(Imports(g, top.file), top.depth + 1);
        forall q | q in next ensures Justified(g, roots, q) {
          assert q in rest ==> q in stack;
        }
        WorkStaysInBall(g, roots, next, visited + [top.file], bound);
      }
    }
  }

  /** A bounded trace reports only files within the bound: some import path from a root is that short. */
  lemma TraceStaysInBall(g: Graph, roots: seq<Path>, bound: Option<nat>)
    ensures forall f :: f in Trace(g, roots, bound) ==> InBall(g, roots, f, bound)
  {
    forall q | q in Enqueue(roots, 0)
      ensures Justified(g, roots, q)
    {
      assert ChainTo(g, roots, [q.file], q.file);
    }
    WorkStaysInBall(g, roots, Enqueue(roots, 0), [], bound);
  }

  ghost predicate ClosedUpTo(g: Graph, visited: seq<Path>, stack: seq<Queued>) {
    forall f, e :: f in visited && e in Imports(g, f) ==> e in visited || exists q :: q in stack && q.file == e
  }

  lemma PushedAreQueued(files: seq<Path>, depth: nat, e: Path)
    requires e in files
    ensures Queued(e, depth) in Enqueue(files, depth)
  {
    var i :| 0 <= i < |files| && files[i] == e;
    assert Enqueue(files, depth)[i] == Queued(e, depth);
  }

  lemma VisitingStaysClosed(g: Graph, rest: seq<Queued>, top: Queued, visited: seq<Path>)
    requires ClosedUpTo(g, visited, rest + [top])
    ensures ClosedUpTo(g, visited + [top.file], rest + Enqueue(Imports(g, top.file), top.depth + 1))
  {
    var more, next := visited + [top.file], rest + Enqueue(Imports(g, top.file), top.depth + 1);
    forall f, e | f in more && e in Imports(g, f)
      ensures e in more || exists q: Queued :: q in next && q.file == e
    {
      if f in visited {
        if e !in more {
          var q :| q in rest + [top] && q.file == e;
          assert q in rest;
          assert q in next;
        }
      } else {
        PushedAreQueued(Imports(g, top.file), top.depth + 1, e);
        assert Queued(e, top.depth + 1) in next;
      }
    }
  }

  lemma SkippingStaysClosed(g: Graph, rest: seq<Queued>, top: Queued, visited: seq<Path>)
    requires ClosedUpTo(g, visited, rest + [top]) && top.file in visited
    ensures ClosedUpTo(g, visited, rest)
  {
    forall f, e | f in visited && e in Imports(g, f) && e !in visited
      ensures exists q: Queued :: q in rest && q.file == e
    {
      var q :| q in rest + [top] && q.file == e;
      assert q in rest;
    }
  }

  lemma {:induction false} WorkCloses(g: Graph, stack: seq<Queued>, visited: seq<Path>)
    requires ClosedUpTo(g, visited, stack)
    ensures ClosedUpTo(g, Work(g, stack, visited, None), [])
    decreases g.Keys - Elements(visited), |stack|
  {
    hide ClosedUpTo;
    if stack != [] {
      var top, rest := stack[|stack| - 1], stack[..|stack| - 1];
      assert stack == rest + [top];
      if top.file in visited {
        SkippingStaysClosed(g, rest, top, visited);
        WorkCloses(g, rest, visited);
      } else {
        WorkStep(g, top, visited);
        VisitingStaysClosed(g, rest, top, visited);
        WorkCloses(g, rest + Enqueue(Imports(g, top.file), top.depth + 1), visited + [top.file]);
      }
    }
  }

  lemma {:induction false} ChainStaysInside(g: Graph, chain: seq<Path>, inside: seq<Path>, k: nat)
    requires ClosedUpTo(g, inside, [])
    requires IsChain(g, chain) && k < |chain| && chain[0] in inside
    ensures chain[k] in inside
  {
    if k > 0 {
      ChainStaysInside(g, chain, inside, k - 1);
      assert Linked(g, chain, k);
    }
  }

  /** Without a depth bound the trace reports exactly the files reachable from the roots. */
  lemma UnboundedTraceIsReachability(g: Graph, roots: seq<Path>, file: Path)
    ensures file in Trace(g, roots, None) <==> Reachable(g, roots, file)
  {
    hide Work;
    TraceStaysInBall(g, roots, None);
    if Reachable(g, roots, file) {
      var chain :| ChainTo(g, roots, chain, file);
      WorkCloses(g, Enqueue(roots, 0), []);
      WorkKeeps(g, Enqueue(roots, 0), [], None);
      PushedAreQueued(roots, 0, chain[0]);
      ChainStaysInside(g, chain, Trace(g, roots, None), |chain| - 1);
    }
  }

  // ---------- Consequences for unbounded traces ----------

  ghost predicate Subgraph(g: Graph, h: Graph) {
    forall f, e :: e in Imports(g, f) ==> e in Imports(h, f)
  }

  /** A trace over fewer imports, from fewer roots, reports no additional file. */
  lemma TraceIsMonotone(g: Graph, h: Graph, few: seq<Path>, many: seq<Path>, file: Path)
    requires Subgraph(g, h)
    requires forall r :: r in few ==> r in many
    requires file in Trace(g, few, None)
    ensures file in Trace(h, many, None)
  {
    UnboundedTraceIsReachability(g, few, file);
    var chain :| ChainTo(g, few, chain, file);
    forall i | 0 < i < |chain|
      ensures Linked(h, chain, i)
    {
      assert Linked(g, chain, i);
    }
    assert ChainTo(h, many, chain, file);
    UnboundedTraceIsReachability(h, many, file);
  }

  /** The reported set depends on neither the order of imports nor the order of roots. */
  lemma TraceIgnoresOrder(g: Graph, h: Graph, roots: seq<Path>, shuffled: seq<Path>)
    requires forall f :: Elements(Imports(g, f)) == Elements(Imports(h, f))
    requires Elements(roots) == Elements(shuffled)
    ensures Elements(Trace(g, roots, None)) == Elements(Trace(h, shuffled, None))
  {
    forall f, e
      ensures e in Imports(g, f) <==> e in Imports(h, f)
    {
      assert e in Elements(Imports(g, f)) <==> e in Elements(Imports(h, f));
    }
    forall r
      ensures r in roots <==> r in shuffled
    {
      assert r in Elements(roots) <==> r in Elements(shuffled);
    }
    forall f
      ensures f in Trace(g, roots, None) <==> f in Trace(h, shuffled, None)
    {
      if f in Trace(g, roots, None) {
        TraceIsMonotone(g, h, roots, shuffled, f);
      }
      if f in Trace(h, shuffled, None) {
        TraceIsMonotone(h, g, shuffled, roots, f);
      }
    }
  }

  // ---------- A generous bound cuts nothing off ----------

  /** The file was queued along a path of files that were all visited first, and only once. */
  ghost predicate HasTrail(g: Graph, roots: seq<Path>, visited: seq<Path>, q: Queued) {
    exists chain :: IsTrail(g, roots, visited, q, chain)
  }

  ghost predicate IsTrail(g: Graph, roots: seq<Path>, visited: seq<Path>, q: Queued, chain: seq<Path>) {
    && |chain| == q.depth + 1
    && ChainTo(g, roots, chain, q.file)
    && Distinct(chain[..q.depth])
    && forall f :: f in chain[..q.depth] ==> f in visited
  }

  lemma TrailFits(g: Graph, roots: seq<Path>, visited: seq<Path>, q: Queued, all: seq<Path>)
    requires HasTrail(g, roots, visited, q) && q.file !in visited
    requires ClosedUpTo(g, all, []) && forall r :: r in roots ==> r in all
    ensures q.depth < |Elements(all)|
  {
    var chain :| IsTrail(g, roots, visited, q, chain);
    assert chain == chain[..q.depth] + [q.file];
    forall k | 0 <= k < |chain|
      ensures chain[k] in all
    {
      ChainStaysInside(g, chain, all, k);
    }
    DistinctFits(chain, Elements(all));
  }

  lemma TrailStays(g: Graph, roots: seq<Path>, visited: seq<Path>, file: Path, q: Queued)
    requires HasTrail(g, roots, visited, q)
    ensures HasTrail(g, roots, visited + [file], q)
  {
    var chain :| IsTrail(g, roots, visited, q, chain);
    assert IsTrail(g, roots, visited + [file], q, chain);
  }

  lemma TrailGrows(g: Graph, roots: seq<Path>, visited: seq<Path>, top: Queued, next: Path)
    requires top.file !in visited && next in Imports(g, top.file)
    requires HasTrail(g, roots, visited, top)
    ensures HasTrail(g, roots, visited + [top.file], Queued(next, top.depth + 1))
  {
    var chain :| IsTrail(g, roots, visited, top, chain);
    ChainExtends(g, roots, chain, top.file, next);
    var longer := chain + [next];
    assert longer[..top.depth + 1] == chain;
    assert chain == chain[..top.depth] + [top.file];
    assert Distinct(chain);
    assert IsTrail(g, roots, visited + [top.file], Queued(next, top.depth + 1), longer);
  }

  lemma {:induction false} WorkIgnoresGenerousBound(
    g: Graph, roots: seq<Path>, stack: seq<Queued>, visited: seq<Path>, bound: nat, all: seq<Path>)
    requires forall q :: q in stack ==> HasTrail(g, roots, visited, q)
    requires ClosedUpTo(g, all, []) && forall r :: r in roots ==> r in all
    requires |Elements(all)| <= bound + 1
    ensures Work(g, stack, visited, Some(bound)) == Work(g, stack, visited, None)
    decreases g.Keys - Elements(visited), |stack|
  {
    if stack != [] {
      var top, rest := stack[|stack| - 1], stack[..|stack| - 1];
      assert top in stack;
      if top.file in visited {
        WorkIgnoresGenerousBound(g, roots, rest, visited, bound, all);
      } else {
        TrailFits(g, roots, visited, top, all);
        WorkStep(g, top, visited);
        var next := rest + Enqueue(Imports(g, top.file), top.depth + 1);
        forall q | q in next
          ensures HasTrail(g, roots, visited + [top.file], q)
        {
          if q in rest {
            assert q in stack;
            TrailStays(g, roots, visited, top.file, q);
          } else {
            TrailGrows(g, roots, visited, top, q.file);
          }
        }
        WorkIgnoresGenerousBound(g, roots, next, visited + [top.file], bound, all);
      }
    }
  }

  /** A bound of one less than the number of reachable files already reports all of them, in the same order. */
  lemma GenerousBoundIsUnbounded(g: Graph, roots: seq<Path>, bound: nat)
    requires |Elements(Trace(g, roots, None))| <= bound + 1
    ensures Trace(g, roots, Some(bound)) == Trace(g, roots, None)
  {
    var all := Trace(g, roots, None);
    WorkCloses(g, Enqueue(roots, 0), []);
    WorkKeeps(g, Enqueue(roots, 0), [], None);
    forall r | r in roots
      ensures r in all
    {
      PushedAreQueued(roots, 0, r);
    }
    forall q | q in Enqueue(roots, 0)
      ensures HasTrail(g, roots, [], q)
    {
      assert IsTrail(g, roots, [], q, [q.file]);
    }
    WorkIgnoresGenerousBound(g, roots, Enqueue(roots, 0), [], bound, all);
  }
}
