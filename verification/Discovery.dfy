/** Descendant discovery over one process snapshot: the in-place fixpoint and its meaning. */
module Discovery {
  import opened Prelude

  /** One snapshot entry: a process and the parent it names. Entries may repeat and links may be cyclic. */
  datatype Listed = Listed(pid: u32, parent: u32)

  function Pids(snapshot: seq<Listed>): set<u32> {
    set k | 0 <= k < |snapshot| :: snapshot[k].pid
  }

  /** The entry is reached from `d`: it names a member or an already known process as its parent. */
  predicate Reached(x: Listed, d: set<u32>, known: set<u32>) {
    x.parent in d || x.parent in known
  }

  ghost predicate Closed(d: set<u32>, snapshot: seq<Listed>, known: set<u32>) {
    forall k | 0 <= k < |snapshot| && Reached(snapshot[k], d, known) :: snapshot[k].pid in d
  }

  /** The least set that holds the root and is closed. */
  ghost predicate LeastClosed(d: set<u32>, snapshot: seq<Listed>, root: u32, known: set<u32>) {
    && root in d && Closed(d, snapshot, known)
    && forall s: set<u32> | root in s && Closed(s, snapshot, known) :: d <= s
  }

  /** A chain of entries, each naming the one before as its parent, that starts at the root or a known process. */
  predicate Chain(path: seq<Listed>, root: u32, known: set<u32>) {
    && path != []
    && (path[0].parent == root || path[0].parent in known)
    && forall k | 0 < k < |path| :: LinkAt(path, k)
  }

  predicate LinkAt(path: seq<Listed>, k: int)
    requires 0 < k < |path|
  {
    path[k].parent == path[k - 1].pid
  }

  predicate FromSnapshot(path: seq<Listed>, snapshot: seq<Listed>) {
    forall k | 0 <= k < |path| :: path[k] in snapshot
  }

  ghost predicate Descends(pid: u32, snapshot: seq<Listed>, root: u32, known: set<u32>) {
    pid == root ||
    exists path: seq<Listed> :: Chain(path, root, known) && FromSnapshot(path, snapshot) && path[|path| - 1].pid == pid
  }

  // ---- The fixpoint ----------------------------------------------------------------------------

  /** One pass over the snapshot; `d` never loses a member. */
  method Pass(snapshot: seq<Listed>, known: set<u32>, start: set<u32>) returns (d: set<u32>)
    ensures start <= d <= start + Pids(snapshot)
    ensures forall k | 0 <= k < |snapshot| && Reached(snapshot[k], start, known) :: snapshot[k].pid in d
    ensures forall s: set<u32> | start <= s && Closed(s, snapshot, known) :: d <= s
  {
    d := start;
    for i := 0 to |snapshot|
      invariant start <= d <= start + Pids(snapshot)
      invariant forall k | 0 <= k < i && Reached(snapshot[k], start, known) :: snapshot[k].pid in d
      invariant forall s: set<u32> | start <= s && Closed(s, snapshot, known) :: d <= s
    {
      if snapshot[i].parent in d || snapshot[i].parent in known {
        assert forall s: set<u32> | d <= s && Closed(s, snapshot, known) :: Reached(snapshot[i], s, known);
        d := d + {snapshot[i].pid};
      }
    }
  }

  lemma SameSize(a: set<u32>, b: set<u32>)
    requires a <= b && |a| == |b|
    ensures a == b
  {
    assert b == a + (b - a);
    assert |b - a| == 0;
  }

  lemma NotLarger(a: set<u32>, b: set<u32>)
    requires a <= b
    ensures |a| <= |b|
  {
    assert b == a + (b - a);
  }

  /**
   * Passes until the set stops growing. Each pass but the last moves a listed PID into the set, so
   * the number of distinct PIDs still outside it bounds the passes.
   */
  method DiscoverDescendants(snapshot: seq<Listed>, root: u32, known: set<u32>) returns (d: set<u32>)
    ensures LeastClosed(d, snapshot, root, known)
    ensures d <= {root} + Pids(snapshot)
  {
    d := {root};
    while true
      invariant {root} <= d <= {root} + Pids(snapshot)
      invariant forall s: set<u32> | root in s && Closed(s, snapshot, known) :: d <= s
      decreases |({root} + Pids(snapshot)) - d|
    {
      ghost var all := {root} + Pids(snapshot);
      var grown := Pass(snapshot, known, d);
      NotLarger(d, grown);
      if |grown| == |d| {
        SameSize(d, grown);
        break;
      }
      Shrinks(all, d, grown);
      d := grown;
    }
  }

  lemma Shrinks(all: set<u32>, d: set<u32>, grown: set<u32>)
    requires d <= grown <= all && |grown| != |d|
    ensures |all - grown| < |all - d|
  {
    NotLarger(d, grown);
    assert all == grown + (all - grown);
    assert all == d + (all - d);
  }

  // ---- What the fixpoint means -----------------------------------------------------------------

  lemma {:induction false} ChainInside(path: seq<Listed>, snapshot: seq<Listed>, root: u32, known: set<u32>,
                                       s: set<u32>, k: nat)
    requires Chain(path, root, known) && FromSnapshot(path, snapshot)
    requires root in s && Closed(s, snapshot, known) && k < |path|
    ensures path[k].pid in s
  {
    assert path[k] in snapshot;
    var i :| 0 <= i < |snapshot| && snapshot[i] == path[k];
    if k > 0 {
      ChainInside(path, snapshot, root, known, s, k - 1);
      assert LinkAt(path, k);
    }
    assert Reached(snapshot[i], s, known);
  }

  lemma ExtendChain(x: Listed, snapshot: seq<Listed>, root: u32, known: set<u32>)
    requires x in snapshot && (Descends(x.parent, snapshot, root, known) || x.parent in known)
    ensures Descends(x.pid, snapshot, root, known)
  {
    if x.parent == root || x.parent in known {
      assert Chain([x], root, known) && FromSnapshot([x], snapshot) && [x][|[x]| - 1].pid == x.pid;
    } else {
      var path: seq<Listed> :| Chain(path, root, known) && FromSnapshot(path, snapshot) &&
                               path[|path| - 1].pid == x.parent;
      var longer := path + [x];
      forall k | 0 < k < |longer|
        ensures LinkAt(longer, k)
      {
        if k < |path| {
          assert LinkAt(path, k);
        }
      }
      assert FromSnapshot(longer, snapshot);
      assert longer[|longer| - 1].pid == x.pid;
    }
  }

  /** The discovered set is exactly the root and every process with a chain of parents to it or to a known process. */
  lemma DescendantsAreChains(d: set<u32>, snapshot: seq<Listed>, root: u32, known: set<u32>, pid: u32)
    requires LeastClosed(d, snapshot, root, known)
    ensures pid in d <==> Descends(pid, snapshot, root, known)
  {
    if pid != root && Descends(pid, snapshot, root, known) {
      var path: seq<Listed> :| Chain(path, root, known) && FromSnapshot(path, snapshot) && path[|path| - 1].pid == pid;
      ChainInside(path, snapshot, root, known, d, |path| - 1);
    }
    var s := set p | p in d && Descends(p, snapshot, root, known);
    forall k | 0 <= k < |snapshot| && Reached(snapshot[k], s, known)
      ensures snapshot[k].pid in s
    {
      assert Reached(snapshot[k], d, known);
      ExtendChain(snapshot[k], snapshot, root, known);
    }
    assert root in s && Closed(s, snapshot, known);
    assert d <= s;
  }

  /** Discovery does not depend on the order of the snapshot, nor on repeated entries. */
  lemma DiscoveryIgnoresOrder(d: set<u32>, e: set<u32>, s: seq<Listed>, t: seq<Listed>, root: u32, known: set<u32>)
    requires forall x :: x in s <==> x in t
    requires LeastClosed(d, s, root, known) && LeastClosed(e, t, root, known)
    ensures d == e
  {
    SameClosure(d, s, t, known);
    SameClosure(e, t, s, known);
  }

  lemma SameClosure(d: set<u32>, s: seq<Listed>, t: seq<Listed>, known: set<u32>)
    requires forall x :: x in s <==> x in t
    requires Closed(d, s, known)
    ensures Closed(d, t, known)
  {
    forall k | 0 <= k < |t| && Reached(t[k], d, known)
      ensures t[k].pid in d
    {
      assert t[k] in t;
      var i :| 0 <= i < |s| && s[i] == t[k];
    }
  }

  lemma {:induction false} PidsBounded(snapshot: seq<Listed>)
    ensures |Pids(snapshot)| <= |snapshot|
  {
    if snapshot != [] {
      var init := snapshot[..|snapshot| - 1];
      PidsBounded(init);
      assert Pids(snapshot) == Pids(init) + {snapshot[|snapshot| - 1].pid};
    }
  }
}
