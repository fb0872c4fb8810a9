/**
 * The collector seen from the interpreter: a collection keeps every array
 * reachable from the locals below the root boundary and may free the rest.
 * The model keeps exactly the reachable arrays (a mark-and-sweep outcome).
 */
module Collector {
  import opened Values

  /** Array `h` holds a reference to array `k`. */
  predicate RefersTo(heap: Heap, h: Handle, k: Handle) {
    h in heap && Arr(k) in heap[h]
  }

  /** No array kept in `keep` refers to a live array outside `keep`. */
  predicate Closed(heap: Heap, keep: set<Handle>) {
    forall h, k :: h in keep && k in heap && RefersTo(heap, h, k) ==> k in keep
  }

  /** The live arrays referred to from `s`. */
  function Successors(heap: Heap, s: set<Handle>): (r: set<Handle>)
    ensures r <= heap.Keys
    ensures forall h, k :: h in s && k in heap && RefersTo(heap, h, k) ==> k in r
  {
    set k | k in heap.Keys && exists h :: h in s && RefersTo(heap, h, k)
  }

  /** The least closed set of live arrays containing `s` (the marking phase). */
  function Closure(heap: Heap, s: set<Handle>): (r: set<Handle>)
    requires s <= heap.Keys
    ensures s <= r <= heap.Keys
    ensures Closed(heap, r)
    decreases |heap.Keys - s|
  {
    var grown := s + Successors(heap, s);
    if grown == s then s
    else
      ProperSubsetSmaller(heap.Keys - grown, heap.Keys - s);
      Closure(heap, grown)
  }

  lemma ProperSubsetSmaller(a: set<Handle>, b: set<Handle>)
    requires a < b
    ensures |a| < |b|
  {
    var x :| x in b - a;
    assert b == a + (b - a);
    assert |b - a| >= |{x}|;
  }

  /** The arrays the values in `roots` refer to. */
  function Roots(roots: seq<Value>): set<Handle> {
    set i | 0 <= i < |roots| && roots[i].Arr? :: roots[i].handle
  }

  /** `vm_gc_run` with the given root slots: the heap after a collection. */
  function Collect(heap: Heap, roots: seq<Value>): (r: Heap)
    ensures r.Keys <= heap.Keys
    ensures forall h :: h in r ==> r[h] == heap[h]
    ensures forall i :: 0 <= i < |roots| && roots[i].Arr? && roots[i].handle in heap ==> roots[i].handle in r
    ensures Closed(heap, r.Keys)
  {
    var keep := Closure(heap, Roots(roots) * heap.Keys);
    map h | h in keep :: heap[h]
  }

  /** A collection keeps the handle order and the handle bound of the heap. */
  lemma CollectKeepsOrder(heap: Heap, roots: seq<Value>, bound: nat)
    requires Ordered(heap) && HeapBelow(heap, bound)
    ensures Ordered(Collect(heap, roots)) && HeapBelow(Collect(heap, roots), bound)
  {
  }

  /**
   * Everything reachable survives: an array reached from a root slot by a
   * chain of references between live arrays is still live after collection.
   */
  lemma {:induction false} CollectKeepsPaths(heap: Heap, roots: seq<Value>, path: seq<Handle>)
    requires |path| > 0 && Arr(path[0]) in roots && path[0] in heap
    requires forall i :: 0 < i < |path| ==> path[i] in heap && RefersTo(heap, path[i - 1], path[i])
    ensures forall i :: 0 <= i < |path| ==> path[i] in Collect(heap, roots)
  {
    var kept := Collect(heap, roots);
    if |path| == 1 {
      var j :| 0 <= j < |roots| && roots[j] == Arr(path[0]);
    } else {
      var prefix := path[..|path| - 1];
      CollectKeepsPaths(heap, roots, prefix);
      assert forall i :: 0 <= i < |prefix| ==> prefix[i] == path[i];
      var n := |path|;
      assert path[n - 2] in kept.Keys && RefersTo(heap, path[n - 2], path[n - 1]);
    }
  }
}
