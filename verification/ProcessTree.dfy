/** `os::children` over a given process list (3rdparty/stout/os.hpp). Parent links may form cycles. */
module ProcessTree {
  datatype Process = Process(pid: int, parent: int)

  ghost predicate Edge(ps: seq<Process>, parent: int, child: int) {
    Process(child, parent) in ps
  }

  function Pids(ps: seq<Process>): set<int> { set p <- ps :: p.pid }

  function ChildrenOf(ps: seq<Process>, parent: int): set<int> { set p <- ps | p.parent == parent :: p.pid }

  /** One or more parent-to-child steps. */
  ghost predicate Path(ps: seq<Process>, path: seq<int>) {
    |path| >= 2 && forall i :: 0 <= i < |path| - 1 ==> Edge(ps, path[i], path[i + 1])
  }

  ghost predicate Joins(ps: seq<Process>, path: seq<int>, from: int, to: int) {
    Path(ps, path) && path[0] == from && path[|path| - 1] == to
  }

  ghost predicate Reachable(ps: seq<Process>, from: int, to: int) {
    exists path :: Joins(ps, path, from, to)
  }

  lemma {:induction false} ChildIsReachable(ps: seq<Process>, pid: int, parent: int, child: int)
    requires parent == pid || Reachable(ps, pid, parent)
    requires child in ChildrenOf(ps, parent)
    ensures Reachable(ps, pid, child)
  {
    assert Edge(ps, parent, child);
    if Reachable(ps, pid, parent) {
      var path :| Joins(ps, path, pid, parent);
      assert Joins(ps, path + [child], pid, child);
    } else {
      assert Joins(ps, [pid, child], pid, child);
    }
  }

  /** A set that holds the children of `pid` and of its own members holds everything reachable. */
  lemma {:induction false} ClosedHoldsReachable(ps: seq<Process>, pid: int, ds: set<int>, path: seq<int>)
    requires forall a <- ds + {pid} :: ChildrenOf(ps, a) <= ds
    requires Path(ps, path) && path[0] == pid
    ensures path[|path| - 1] in ds
  {
    var n := |path| - 1;
    assert Edge(ps, path[n - 1], path[n]);
    assert path[n] in ChildrenOf(ps, path[n - 1]);
    if n > 1 {
      assert forall i :: 0 <= i < n - 1 ==> Edge(ps, path[..n][i], path[..n][i + 1]);
      ClosedHoldsReachable(ps, pid, ds, path[..n]);
      assert path[n - 1] in ds + {pid};
    } else {
      assert path[0] in ds + {pid};
    }
  }

  /** The search for the children of one parent: those not seen yet join both the set and the queue. */
  method Scan(ps: seq<Process>, parent: int, descendants: set<int>, parents: seq<int>)
    returns (ds: set<int>, queue: seq<int>)
    ensures ds == descendants + ChildrenOf(ps, parent)
    ensures forall a :: a in queue <==> a in parents || a in ds - descendants
    ensures ds == descendants ==> queue == parents
  {
    ds, queue := descendants, parents;
    for i := 0 to |ps|
      invariant ds == descendants + ChildrenOf(ps[..i], parent)
      invariant forall a :: a in queue <==> a in parents || a in ds - descendants
      invariant ds == descendants ==> queue == parents
    {
      assert ps[..i + 1] == ps[..i] + [ps[i]];
      if ps[i].parent == parent && ps[i].pid !in ds {
        ds, queue := ds + {ps[i].pid}, queue + [ps[i].pid];
      }
    }
    assert ps[..|ps|] == ps;
  }

  /** Everything seen is reachable, and everything seen but not queued has its children among the seen. */
  ghost predicate Searching(ps: seq<Process>, pid: int, ds: set<int>, queue: seq<int>) {
    && ds <= Pids(ps)
    && (forall a <- ds :: Reachable(ps, pid, a))
    && (forall a <- queue :: a == pid || a in ds)
    && (forall a <- ds + {pid} :: a in queue || ChildrenOf(ps, a) <= ds)
  }

  lemma {:induction false} SearchStep(ps: seq<Process>, pid: int, ds: set<int>, queue: seq<int>,
                                      ds': set<int>, queue': seq<int>)
    requires Searching(ps, pid, ds, queue) && queue != []
    requires ds' == ds + ChildrenOf(ps, queue[0])
    requires forall a :: a in queue' <==> a in queue[1..] || a in ds' - ds
    ensures Searching(ps, pid, ds', queue')
  {
    forall a <- ds' ensures Reachable(ps, pid, a) {
      if a !in ds {
        assert queue[0] in queue;
        ChildIsReachable(ps, pid, queue[0], a);
      }
    }
    forall a <- ds' + {pid} ensures a in queue' || ChildrenOf(ps, a) <= ds' {
      assert a in queue ==> a == queue[0] || a in queue[1..];
    }
  }

  /**
   Breadth-first search terminates on every process list, with exactly the processes reachable by one or more steps, or
   exactly the direct children.
   */
  method Children(pid: int, ps: seq<Process>, recursive: bool) returns (descendants: set<int>)
    ensures recursive ==> forall p :: p in descendants <==> Reachable(ps, pid, p)
    ensures !recursive ==> forall p :: p in descendants <==> Joins(ps, [pid, p], pid, p)
  {
    descendants := {};
    var parents := [pid];
    var again := true;
    while again
      invariant Searching(ps, pid, descendants, parents)
      invariant again ==> parents != [] && (recursive || (descendants == {} && parents == [pid]))
      invariant !again && recursive ==> parents == []
      invariant !again && !recursive ==> descendants == ChildrenOf(ps, pid)
      decreases |Pids(ps) - descendants|, |parents|, again
    {
      var ds, queue := Scan(ps, parents[0], descendants, parents[1..]);
      SearchStep(ps, pid, descendants, parents, ds, queue);
      Shrinks(Pids(ps), descendants, ds);
      descendants, parents := ds, queue;
      again := recursive && parents != [];
    }
    forall p ensures recursive ==> (p in descendants <==> Reachable(ps, pid, p)) {
      if recursive && Reachable(ps, pid, p) {
        var path :| Joins(ps, path, pid, p);
        ClosedHoldsReachable(ps, pid, descendants, path);
      }
    }
    forall p ensures p in ChildrenOf(ps, pid) <==> Joins(ps, [pid, p], pid, p) {
      assert Edge(ps, pid, p) <==> p in ChildrenOf(ps, pid);
      assert [pid, p][0] == pid && [pid, p][1] == p;
    }
  }

  lemma {:induction false} Shrinks(all: set<int>, ds: set<int>, more: set<int>)
    requires ds <= more <= all
    ensures ds != more ==> |all - more| < |all - ds|
  {
    if ds != more {
      assert all - more < all - ds;
      Smaller(all - more, all - ds);
    }
  }

  lemma {:induction false} Smaller(a: set<int>, b: set<int>)
    requires a < b
    ensures |a| < |b|
  {
    assert b == a + (b - a);
    assert |b| == |a| + |b - a|;
  }
}
