/**
 When a depth-bounded trace reports every file within the bound, and when it does not.

 The stack is last-in first-out and a visited file is never visited again, so a file may first
 be visited along a long detour. Its imports then lie beyond the bound although the file also
 has a short path. Whether this can happen depends on the bound and the roots alone.
 */
module DepthBound {
  import opened Wrappers
  import opened ImportGraph

  /** The bounded trace is the whole ball: exactly the files some import path of length <= `bound` reaches. */
  ghost predicate ReportsBall(g: Graph, roots: seq<Path>, bound: nat) {
    forall f :: f in Trace(g, roots, Some(bound)) <==> InBall(g, roots, f, Some(bound))
  }

  /** No roots, a bound of zero, or a bound of one with a single root, perhaps listed repeatedly. */
  predicate DetourFree(roots: seq<Path>, bound: nat) {
    || roots == []
    || bound == 0
    || (bound == 1 && forall i, j :: 0 <= i < j < |roots| ==> roots[i] == roots[j])
  }

  // ---------- Without detours ----------

  lemma RootsAreReported(g: Graph, roots: seq<Path>, bound: nat)
    ensures forall r :: r in roots ==> r in Trace(g, roots, Some(bound))
  {
    WorkKeeps(g, Enqueue(roots, 0), [], Some(bound));
    forall r | r in roots
      ensures r in Trace(g, roots, Some(bound))
    {
      PushedAreQueued(roots, 0, r);
    }
  }

  lemma ImportsOfOnlyRootAreReported(g: Graph, roots: seq<Path>, bound: nat, e: Path)
    requires roots != [] && DetourFree(roots, 1) && bound >= 1
    requires e in Imports(g, roots[0])
    ensures e in Trace(g, roots, Some(bound))
  {
    var stack := Enqueue(roots, 0);
    var top, rest := stack[|stack| - 1], stack[..|stack| - 1];
    var next := rest + Enqueue(Imports(g, top.file), 1);
    assert top.file == roots[0];
    PushedAreQueued(Imports(g, top.file), 1, e);
    assert Queued(e, 1) in next;
    assert Trace(g, roots, Some(bound)) == Work(g, next, [] + [top.file], Some(bound));
    WorkKeeps(g, next, [] + [top.file], Some(bound));
  }

  /** Without detours the files of the ball are reported under its bound and under any larger one. */
  lemma BallIsReported(g: Graph, roots: seq<Path>, bound: nat, larger: nat, f: Path)
    requires DetourFree(roots, bound) && InBall(g, roots, f, Some(bound)) && bound <= larger
    ensures f in Trace(g, roots, Some(larger))
  {
    hide Work, Trace;
    var chain :| ChainTo(g, roots, chain, f) && !Beyond(|chain| - 1, Some(bound));
    if |chain| == 1 {
      RootsAreReported(g, roots, larger);
    } else {
      assert |chain| == 2 && bound == 1;
      assert Linked(g, chain, 1);
      assert chain[0] in roots && chain[0] == roots[0];
      ImportsOfOnlyRootAreReported(g, roots, larger, f);
    }
  }

  lemma DetourFreeReportsBall(g: Graph, roots: seq<Path>, bound: nat)
    requires DetourFree(roots, bound)
    ensures ReportsBall(g, roots, bound)
  {
    hide Trace, InBall, DetourFree;
    TraceStaysInBall(g, roots, Some(bound));
    forall f | InBall(g, roots, f, Some(bound))
      ensures f in Trace(g, roots, Some(bound))
    {
      BallIsReported(g, roots, bound, bound, f);
    }
  }

  // ---------- A graph with a detour ----------

  function Longest(roots: seq<Path>): nat {
    if roots == [] then 0
    else
      var rest := Longest(roots[1..]);
      if |roots[0]| > rest then |roots[0]| else rest
  }

  lemma {:induction false} LongestBounds(roots: seq<Path>)
    ensures forall r :: r in roots ==> |r| <= Longest(roots)
  {
    if roots != [] {
      LongestBounds(roots[1..]);
      assert forall r :: r in roots ==> r == roots[0] || r in roots[1..];
    }
  }

  /** Files that are not roots, numbered; different numbers give different files. */
  function Fresh(roots: seq<Path>, k: nat): (file: Path)
    ensures |file| == Longest(roots) + 1 + k
  {
    seq(Longest(roots) + 1 + k, _ => "")
  }

  lemma FreshIsNoRoot(roots: seq<Path>)
    ensures forall k: nat :: Fresh(roots, k) !in roots
  {
    LongestBounds(roots);
  }

  /** The last root imports file 1, and then file `m`; every file k > 0 imports file k - 1. */
  function Detour(roots: seq<Path>, m: nat): Graph
    requires roots != []
  {
    DetourTail(roots, m)[roots[|roots| - 1] := [Fresh(roots, 1), Fresh(roots, m)]]
  }

  function DetourTail(roots: seq<Path>, m: nat): Graph {
    if m == 0 then map[] else DetourTail(roots, m - 1)[Fresh(roots, m) := [Fresh(roots, m - 1)]]
  }

  lemma {:induction false} DetourTailImports(roots: seq<Path>, m: nat)
    ensures forall f :: f in DetourTail(roots, m) <==> exists k: nat :: 0 < k <= m && f == Fresh(roots, k)
    ensures forall k: nat :: 0 < k <= m ==> DetourTail(roots, m)[Fresh(roots, k)] == [Fresh(roots, k - 1)]
  {
    if m > 0 {
      DetourTailImports(roots, m - 1);
    }
  }

  lemma DetourImports(roots: seq<Path>, m: nat)
    requires roots != []
    ensures Imports(Detour(roots, m), roots[|roots| - 1]) == [Fresh(roots, 1), Fresh(roots, m)]
    ensures forall k: nat :: 0 < k <= m ==> Imports(Detour(roots, m), Fresh(roots, k)) == [Fresh(roots, k - 1)]
    ensures Imports(Detour(roots, m), Fresh(roots, 0)) == []
    ensures forall r :: r in roots && r != roots[|roots| - 1] ==> Imports(Detour(roots, m), r) == []
  {
    DetourTailImports(roots, m);
    FreshIsNoRoot(roots);
  }

  /** Files `high`, `high - 1`, ..., `low`. */
  function Down(roots: seq<Path>, high: nat, low: nat): seq<Path>
    decreases high
  {
    if high < low || high == 0 then [] else [Fresh(roots, high)] + Down(roots, high - 1, low)
  }

  lemma {:induction false} DownHas(roots: seq<Path>, high: nat, low: nat)
    requires low > 0
    ensures forall f :: f in Down(roots, high, low) <==> exists k: nat :: low <= k <= high && f == Fresh(roots, k)
    decreases high
  {
    if high >= low {
      DownHas(roots, high - 1, low);
    }
  }

  /** Following the chain from file `k` on visits it down to the last file within the bound. */
  lemma {:induction false} WalkDetour(
    roots: seq<Path>, m: nat, bound: nat, k: nat, rest: seq<Queued>, visited: seq<Path>)
    requires roots != [] && m >= 1 && m - 1 <= bound <= m && m + 1 - bound <= k <= m
    requires forall j: nat :: j <= k ==> Fresh(roots, j) !in visited
    ensures Work(Detour(roots, m), rest + [Queued(Fresh(roots, k), m - k + 1)], visited, Some(bound))
         == Work(Detour(roots, m), rest, visited + Down(roots, k, m + 1 - bound), Some(bound))
    decreases k
  {
    DetourImports(roots, m);
    var g, low := Detour(roots, m), m + 1 - bound;
    var stack := rest + [Queued(Fresh(roots, k), m - k + 1)];
    assert stack[..|stack| - 1] == rest;
    var pushed := Enqueue(Imports(g, Fresh(roots, k)), m - k + 2);
    assert pushed == [Queued(Fresh(roots, k - 1), m - k + 2)];
    var more := visited + [Fresh(roots, k)];
    assert Work(g, stack, visited, Some(bound)) == Work(g, rest + pushed, more, Some(bound));
    if k > low {
      WalkDetour(roots, m, bound, k - 1, rest, more);
      assert more + Down(roots, k - 1, low) == visited + Down(roots, k, low);
    } else {
      assert (rest + pushed)[..|rest|] == rest;
      assert Down(roots, k, low) == [Fresh(roots, k)] + Down(roots, k - 1, low);
      assert Down(roots, k - 1, low) == [];
      assert visited + Down(roots, k, low) == more;
    }
  }

  /** Queued files that are visited already or import nothing add nothing but themselves. */
  lemma {:induction false} LeavesAddNothing(
    g: Graph, stack: seq<Queued>, visited: seq<Path>, bound: Option<nat>, f: Path)
    requires forall q :: q in stack ==> q.file in visited || Imports(g, q.file) == []
    requires f !in visited && forall q :: q in stack ==> q.file != f
    ensures f !in Work(g, stack, visited, bound)
    decreases |stack|
  {
    if stack != [] {
      var top, rest := stack[|stack| - 1], stack[..|stack| - 1];
      assert top in stack;
      if Beyond(top.depth, bound) || top.file in visited {
        LeavesAddNothing(g, rest, visited, bound, f);
      } else {
        assert rest + Enqueue(Imports(g, top.file), top.depth + 1) == rest;
        LeavesAddNothing(g, rest, visited + [top.file], bound, f);
      }
    }
  }

  /** The trace of the detour graph, up to the point where the chain has been walked. */
  lemma DetourTrace(roots: seq<Path>, m: nat, bound: nat)
    requires roots != [] && m >= 2 && m - 1 <= bound <= m
    ensures var last := roots[|roots| - 1];
            Trace(Detour(roots, m), roots, Some(bound)) ==
            Work(Detour(roots, m), Enqueue(roots[..|roots| - 1], 0) + [Queued(Fresh(roots, 1), 1)],
                 [last] + Down(roots, m, m + 1 - bound), Some(bound))
  {
    DetourImports(roots, m);
    FreshIsNoRoot(roots);
    var g, last, others := Detour(roots, m), roots[|roots| - 1], Enqueue(roots[..|roots| - 1], 0);
    var stack := Enqueue(roots, 0);
    assert stack[..|stack| - 1] == others && stack[|stack| - 1] == Queued(last, 0);
    var pushed := Enqueue(Imports(g, last), 1);
    assert pushed == [Queued(Fresh(roots, 1), 1), Queued(Fresh(roots, m), 1)];
    var rest := others + [Queued(Fresh(roots, 1), 1)];
    assert others + pushed == rest + [Queued(Fresh(roots, m), 1)];
    assert [] + [last] == [last];
    assert Trace(g, roots, Some(bound)) == Work(g, others + pushed, [last], Some(bound));
    WalkDetour(roots, m, bound, m, rest, [last]);
  }

  lemma DetourHidesFile(roots: seq<Path>, m: nat)
    requires roots != [] && m >= 2
    ensures Fresh(roots, 0) !in Trace(Detour(roots, m), roots, Some(m))
  {
    DetourTrace(roots, m, m);
    DetourImports(roots, m);
    FreshIsNoRoot(roots);
    DownHas(roots, m, 1);
    var last, others := roots[|roots| - 1], Enqueue(roots[..|roots| - 1], 0);
    var stack := others + [Queued(Fresh(roots, 1), 1)];
    var visited := [last] + Down(roots, m, 1);
    assert Fresh(roots, 1) in Down(roots, m, 1);
    assert Fresh(roots, 1) in visited;
    forall q | q in stack
      ensures q.file in visited || Imports(Detour(roots, m), q.file) == []
      ensures q.file != Fresh(roots, 0)
    {
      if q in others {
        assert q.file in roots;
      }
    }
    LeavesAddNothing(Detour(roots, m), stack, visited, Some(m), Fresh(roots, 0));
  }

  lemma DetourFileIsNear(roots: seq<Path>, m: nat, bound: nat)
    requires roots != [] && m >= 1 && bound >= 2
    ensures InBall(Detour(roots, m), roots, Fresh(roots, 0), Some(bound))
  {
    DetourImports(roots, m);
    var chain := [roots[|roots| - 1], Fresh(roots, 1), Fresh(roots, 0)];
    assert ChainTo(Detour(roots, m), roots, chain, Fresh(roots, 0));
  }

  /** With a bound of one and two different roots, a root imported by the other hides its own imports. */
  lemma LinkedRootsHideFile(roots: seq<Path>, other: Path)
    requires other in roots && other != roots[|roots| - 1]
    ensures Fresh(roots, 0) !in Trace(map[roots[|roots| - 1] := [other], other := [Fresh(roots, 0)]], roots, Some(1))
  {
    var last, hidden := roots[|roots| - 1], Fresh(roots, 0);
    FreshIsNoRoot(roots);
    var g: Graph := map[last := [other], other := [hidden]];
    var others := Enqueue(roots[..|roots| - 1], 0);
    var stack := Enqueue(roots, 0);
    assert stack[..|stack| - 1] == others;
    var one, two := Queued(other, 1), Queued(hidden, 2);
    assert Enqueue(Imports(g, last), 1) == [one] && Enqueue(Imports(g, other), 2) == [two];
    assert (others + [one])[..|others|] == others && (others + [two])[..|others|] == others;
    assert [] + [last] == [last] && [last] + [other] == [last, other];
    assert Trace(g, roots, Some(1)) == Work(g, others + [one], [last], Some(1));
    assert Trace(g, roots, Some(1)) == Work(g, others + [two], [last, other], Some(1));
    assert Trace(g, roots, Some(1)) == Work(g, others, [last, other], Some(1));
    forall q | q in others ensures q.file in roots {}
    LeavesAddNothing(g, others, [last, other], Some(1), hidden);
  }

  lemma LinkedRootsMissBall(roots: seq<Path>, other: Path)
    requires other in roots && other != roots[|roots| - 1]
    ensures !ReportsBall(map[roots[|roots| - 1] := [other], other := [Fresh(roots, 0)]], roots, 1)
  {
    hide Work;
    var g: Graph := map[roots[|roots| - 1] := [other], other := [Fresh(roots, 0)]];
    LinkedRootsHideFile(roots, other);
    assert ChainTo(g, roots, [other, Fresh(roots, 0)], Fresh(roots, 0));
  }

  /** The bounded trace is the whole ball in every import graph exactly for the detour-free inputs. */
  lemma BallExactlyWhenDetourFree(roots: seq<Path>, bound: nat)
    ensures (forall g :: ReportsBall(g, roots, bound)) <==> DetourFree(roots, bound)
  {
    if DetourFree(roots, bound) {
      forall g ensures ReportsBall(g, roots, bound) {
        DetourFreeReportsBall(g, roots, bound);
      }
    } else if bound == 1 {
      var i, j :| 0 <= i < j < |roots| && roots[i] != roots[j];
      var other := if roots[i] != roots[|roots| - 1] then roots[i] else roots[j];
      LinkedRootsMissBall(roots, other);
    } else {
      DetourHidesFile(roots, bound);
      DetourFileIsNear(roots, bound, bound);
      assert !ReportsBall(Detour(roots, bound), roots, bound);
    }
  }

  // ---------- Raising the bound ----------

  /** Whatever the graph: what is reported within the bound is also reported with one more level. */
  ghost predicate RaisingKeepsFiles(roots: seq<Path>, bound: nat) {
    forall g, f :: f in Trace(g, roots, Some(bound)) ==> f in Trace(g, roots, Some(bound + 1))
  }

  /** With a bound of two or more, the next bound leads further along the detour and loses a file. */
  lemma LongerDetourHidesFile(roots: seq<Path>, bound: nat)
    requires roots != [] && bound >= 2
    ensures var g, f := Detour(roots, bound + 1), Fresh(roots, 0);
            f in Trace(g, roots, Some(bound)) && f !in Trace(g, roots, Some(bound + 1))
  {
    var m, g := bound + 1, Detour(roots, bound + 1);
    DetourHidesFile(roots, m);
    DetourTrace(roots, m, bound);
    DetourImports(roots, m);
    FreshIsNoRoot(roots);
    DownHas(roots, m, 2);
    var last, others := roots[|roots| - 1], Enqueue(roots[..|roots| - 1], 0);
    var stack := others + [Queued(Fresh(roots, 1), 1)];
    var visited := [last] + Down(roots, m, 2);
    assert Fresh(roots, 1) !in visited;
    assert stack[..|stack| - 1] == others;
    var pushed := Enqueue(Imports(g, Fresh(roots, 1)), 2);
    assert pushed[0] == Queued(Fresh(roots, 0), 2);
    var next := others + pushed;
    assert next[|others|] == pushed[0];
    assert Queued(Fresh(roots, 0), 2) in next;
    WorkKeeps(g, next, visited + [Fresh(roots, 1)], Some(bound));
    assert Fresh(roots, 0) in Trace(g, roots, Some(bound));
  }

  /** The last root leads to another one in two steps, and that one imports file 0. */
  function LinkedRoots(roots: seq<Path>, other: Path): Graph
    requires roots != []
  {
    map[roots[|roots| - 1] := [Fresh(roots, 1)], Fresh(roots, 1) := [other], other := [Fresh(roots, 0)]]
  }

  lemma LinkedRootsTrace(roots: seq<Path>, other: Path, bound: nat)
    requires other in roots && other != roots[|roots| - 1] && bound >= 1
    ensures var last, link, others := roots[|roots| - 1], Fresh(roots, 1), Enqueue(roots[..|roots| - 1], 0);
            Trace(LinkedRoots(roots, other), roots, Some(bound)) ==
            Work(LinkedRoots(roots, other), others + [Queued(other, 2)], [last, link], Some(bound))
  {
    FreshIsNoRoot(roots);
    var g, last, link := LinkedRoots(roots, other), roots[|roots| - 1], Fresh(roots, 1);
    var others, stack := Enqueue(roots[..|roots| - 1], 0), Enqueue(roots, 0);
    assert stack[..|stack| - 1] == others && stack[|stack| - 1] == Queued(last, 0);
    assert Enqueue(Imports(g, last), 1) == [Queued(link, 1)] && Enqueue(Imports(g, link), 2) == [Queued(other, 2)];
    assert (others + [Queued(link, 1)])[..|others|] == others;
    assert [] + [last] == [last] && [last] + [link] == [last, link];
    assert Trace(g, roots, Some(bound)) == Work(g, others + [Queued(link, 1)], [last], Some(bound));
  }

  lemma RootOnTopIsFollowed(
    g: Graph, rest: seq<Queued>, visited: seq<Path>, bound: nat, other: Path, e: Path)
    requires bound >= 1 && e in Imports(g, other) && other !in visited
    ensures e in Work(g, rest + [Queued(other, 0)], visited, Some(bound))
  {
    hide Work;
    var pushed := Enqueue(Imports(g, other), 1);
    PushedAreQueued(Imports(g, other), 1, e);
    assert Queued(e, 1) in rest + pushed;
    WorkVisits(g, rest, Queued(other, 0), visited, Some(bound));
    WorkKeeps(g, rest + pushed, visited + [other], Some(bound));
  }

  /** While only roots are queued, the import of the one that has not been visited is reported. */
  lemma {:induction false} QueuedRootIsFollowed(
    g: Graph, stack: seq<Queued>, visited: seq<Path>, bound: nat, other: Path, e: Path)
    requires bound >= 1 && e in Imports(g, other) && other !in visited && Queued(other, 0) in stack
    requires forall q :: q in stack ==>
               q.depth == 0 && (q.file == other || q.file in visited || Imports(g, q.file) == [])
    ensures e in Work(g, stack, visited, Some(bound))
    decreases |stack|
  {
    hide Work;
    var top, rest := stack[|stack| - 1], stack[..|stack| - 1];
    assert stack == rest + [top] && top in stack;
    if top.file == other {
      RootOnTopIsFollowed(g, rest, visited, bound, other, e);
    } else if top.file in visited {
      WorkSkips(g, rest, top, visited, Some(bound));
      QueuedRootIsFollowed(g, rest, visited, bound, other, e);
    } else {
      WorkVisits(g, rest, top, visited, Some(bound));
      assert rest + Enqueue(Imports(g, top.file), 1) == rest;
      QueuedRootIsFollowed(g, rest, visited + [top.file], bound, other, e);
    }
  }

  /** With a bound of one the other root is first visited as a root; with two, as an import of an import. */
  lemma LinkedRootsLoseFile(roots: seq<Path>, other: Path)
    requires other in roots && other != roots[|roots| - 1]
    ensures var g, f := LinkedRoots(roots, other), Fresh(roots, 0);
            f in Trace(g, roots, Some(1)) && f !in Trace(g, roots, Some(2))
  {
    FreshIsNoRoot(roots);
    var g, last, link, f := LinkedRoots(roots, other), roots[|roots| - 1], Fresh(roots, 1), Fresh(roots, 0);
    var others := Enqueue(roots[..|roots| - 1], 0);
    LinkedRootsTrace(roots, other, 1);
    LinkedRootsTrace(roots, other, 2);
    forall q | q in others ensures q.depth == 0 && q.file in roots {}
    PushedAreQueued(roots[..|roots| - 1], 0, other);
    assert (others + [Queued(other, 2)])[..|others|] == others;
    QueuedRootIsFollowed(g, others, [last, link], 1, other, f);
    assert Enqueue(Imports(g, other), 3) == [Queued(f, 3)];
    assert (others + [Queued(f, 3)])[..|others|] == others;
    LeavesAddNothing(g, others, [last, link] + [other], Some(2), f);
  }

  /** Raising the bound by one keeps all files in every import graph exactly for the detour-free inputs. */
  lemma RaisingKeepsFilesExactlyWhenDetourFree(roots: seq<Path>, bound: nat)
    ensures RaisingKeepsFiles(roots, bound) <==> DetourFree(roots, bound)
  {
    hide Work;
    if DetourFree(roots, bound) {
      forall g, f | f in Trace(g, roots, Some(bound))
        ensures f in Trace(g, roots, Some(bound + 1))
      {
        TraceStaysInBall(g, roots, Some(bound));
        BallIsReported(g, roots, bound, bound + 1, f);
      }
    } else if bound == 1 {
      var i, j :| 0 <= i < j < |roots| && roots[i] != roots[j];
      LinkedRootsLoseFile(roots, if roots[i] != roots[|roots| - 1] then roots[i] else roots[j]);
    } else {
      LongerDetourHidesFile(roots, bound);
    }
  }

  // ---------- Fewer imports under a bound ----------

  /** Whatever the graphs: leaving out imports never makes the bounded trace report an additional file. */
  ghost predicate FewerImportsReportLess(roots: seq<Path>, bound: nat) {
    forall g, h, f :: Subgraph(h, g) && f in Trace(h, roots, Some(bound)) ==> f in Trace(g, roots, Some(bound))
  }

  lemma DetourFreeIsMonotone(g: Graph, h: Graph, roots: seq<Path>, bound: nat, f: Path)
    requires DetourFree(roots, bound) && Subgraph(h, g) && f in Trace(h, roots, Some(bound))
    ensures f in Trace(g, roots, Some(bound))
  {
    hide Work;
    TraceStaysInBall(h, roots, Some(bound));
    DetourFreeReportsBall(g, roots, bound);
    var chain :| ChainTo(h, roots, chain, f) && !Beyond(|chain| - 1, Some(bound));
    forall i | 0 < i < |chain| ensures Linked(g, chain, i) {
      assert Linked(h, chain, i);
    }
    assert ChainTo(g, roots, chain, f);
    assert InBall(g, roots, f, Some(bound));
  }

  /** If imported files import nothing, every visited file has its imports visited too. */
  lemma {:induction false} ShallowImportsAreReported(g: Graph, stack: seq<Queued>, visited: seq<Path>, bound: nat)
    requires bound >= 1 && forall q :: q in stack ==> q.depth == 0 || Imports(g, q.file) == []
    requires forall f, e :: e in Imports(g, f) ==> Imports(g, e) == []
    ensures forall f, e :: f in Work(g, stack, visited, Some(bound)) && f !in visited && e in Imports(g, f) ==>
              e in Work(g, stack, visited, Some(bound))
    decreases g.Keys - Elements(visited), |stack|
  {
    if stack != [] {
      var top, rest := stack[|stack| - 1], stack[..|stack| - 1];
      assert top in stack;
      if Beyond(top.depth, Some(bound)) || top.file in visited {
        ShallowImportsAreReported(g, rest, visited, bound);
      } else {
        WorkStep(g, top, visited);
        var pushed := Enqueue(Imports(g, top.file), top.depth + 1);
        var next := rest + pushed;
        forall q: Queued | q in next ensures q.depth == 0 || Imports(g, q.file) == [] {
          assert q in rest ==> q in stack;
          assert q in pushed ==> q.file in Imports(g, top.file);
        }
        ShallowImportsAreReported(g, next, visited + [top.file], bound);
        WorkKeeps(g, next, visited + [top.file], Some(bound));
        forall e | e in Imports(g, top.file)
          ensures e in Work(g, next, visited + [top.file], Some(bound))
        {
          if top.depth == 0 {
            PushedAreQueued(Imports(g, top.file), 1, e);
            assert Queued(e, 1) in next;
          }
        }
      }
    }
  }

  /** Without the long way round, the file behind the detour is reported. */
  lemma ShortcutReportsFile(roots: seq<Path>, m: nat)
    requires roots != [] && m >= 2
    ensures var h: Graph := map[roots[|roots| - 1] := [Fresh(roots, 1)], Fresh(roots, 1) := [Fresh(roots, 0)]];
            Subgraph(h, Detour(roots, m)) && Fresh(roots, 0) in Trace(h, roots, Some(m))
  {
    var last, one, zero := roots[|roots| - 1], Fresh(roots, 1), Fresh(roots, 0);
    var h: Graph := map[last := [one], one := [zero]];
    DetourImports(roots, m);
    FreshIsNoRoot(roots);
    var others, stack := Enqueue(roots[..|roots| - 1], 0), Enqueue(roots, 0);
    assert stack[..|stack| - 1] == others && stack[|stack| - 1] == Queued(last, 0);
    assert Enqueue(Imports(h, last), 1) == [Queued(one, 1)] && Enqueue(Imports(h, one), 2) == [Queued(zero, 2)];
    var deeper, deepest := others + [Queued(one, 1)], others + [Queued(zero, 2)];
    assert deeper[..|others|] == others && deepest[|others|] == Queued(zero, 2);
    assert [] + [last] == [last] && [last] + [one] == [last, one];
    assert Trace(h, roots, Some(m)) == Work(h, deeper, [last], Some(m));
    assert Trace(h, roots, Some(m)) == Work(h, deepest, [last, one], Some(m));
    WorkKeeps(h, deepest, [last, one], Some(m));
    assert Queued(zero, 2) in deepest;
  }

  lemma UnlinkedRootsReportFile(roots: seq<Path>, other: Path)
    requires other in roots
    ensures Fresh(roots, 0) in Trace(map[other := [Fresh(roots, 0)]], roots, Some(1))
  {
    var h: Graph := map[other := [Fresh(roots, 0)]];
    FreshIsNoRoot(roots);
    RootsAreReported(h, roots, 1);
    ShallowImportsAreReported(h, Enqueue(roots, 0), [], 1);
    assert Fresh(roots, 0) in Imports(h, other);
  }

  /** Under a bound, tracing fewer imports can report more files, namely exactly for inputs that allow a
      detour: leaving out the long way makes the short one visible. */
  lemma BoundedTraceIsMonotoneExactlyWhenDetourFree(roots: seq<Path>, bound: nat)
    ensures FewerImportsReportLess(roots, bound) <==> DetourFree(roots, bound)
  {
    hide Work;
    if DetourFree(roots, bound) {
      forall g, h, f | Subgraph(h, g) && f in Trace(h, roots, Some(bound))
        ensures f in Trace(g, roots, Some(bound))
      {
        DetourFreeIsMonotone(g, h, roots, bound, f);
      }
    } else if bound == 1 {
      var i, j :| 0 <= i < j < |roots| && roots[i] != roots[j];
      var last, other := roots[|roots| - 1], if roots[i] != roots[|roots| - 1] then roots[i] else roots[j];
      LinkedRootsHideFile(roots, other);
      UnlinkedRootsReportFile(roots, other);
      assert Subgraph(map[other := [Fresh(roots, 0)]], map[last := [other], other := [Fresh(roots, 0)]]);
    } else {
      DetourHidesFile(roots, bound);
      ShortcutReportsFile(roots, bound);
    }
  }
}
