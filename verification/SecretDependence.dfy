/** Whether a node depends on a secret input, decided by an explicit-stack traversal of the
    circuit that cannot overflow the call stack. */
module SecretDependence {
  import opened Wrappers
  import opened PrimeField
  import opened Circuits
  import opened Mpcith

  /** The children of node i that its traversal visits. */
  function Children(nodes: seq<Node>, i: NodeId): set<NodeId>
    requires i < |nodes|
  {
    if nodes[i].IsGate() then {nodes[i].a, nodes[i].b} else {}
  }

  datatype Frame = Frame(idx: NodeId, processed: bool)

  /** Cached answers are right. */
  ghost predicate CacheSound(nodes: seq<Node>, cache: seq<Option<bool>>) {
    |cache| == |nodes| && forall i :: 0 <= i < |nodes| && cache[i].Some? ==> cache[i].value == Shared(nodes, i)
  }

  /** A processed frame is not answered yet, every frame above it is for a smaller node, and each
      of its children is answered or waits above it. */
  ghost predicate StackOrdered(nodes: seq<Node>, stack: seq<Frame>, cache: seq<Option<bool>>)
    requires |cache| == |nodes|
  {
    && (forall k :: 0 <= k < |stack| ==> stack[k].idx < |nodes|)
    && (forall k :: 0 <= k < |stack| && stack[k].processed ==> cache[stack[k].idx].None?)
    && (forall k, l :: 0 <= k < l < |stack| && stack[k].processed ==> stack[l].idx < stack[k].idx)
    && (forall k :: 0 <= k < |stack| && stack[k].processed ==> ChildrenPending(nodes, stack, cache, k))
  }

  ghost predicate ChildrenPending(nodes: seq<Node>, stack: seq<Frame>, cache: seq<Option<bool>>, k: nat)
    requires |cache| == |nodes| && k < |stack| && stack[k].idx < |nodes|
  {
    forall c :: c in Children(nodes, stack[k].idx) && c < |nodes| ==> cache[c].Some? || WaitsAbove(stack, k, c)
  }

  ghost predicate WaitsAbove(stack: seq<Frame>, k: nat, c: NodeId) {
    exists l :: k < l < |stack| && stack[l].idx == c
  }

  function Uncached(cache: seq<Option<bool>>): nat {
    if cache == [] then 0
    else Uncached(cache[..|cache| - 1]) + if cache[|cache| - 1].None? then 1 else 0
  }

  lemma {:induction false} CachingDecreases(cache: seq<Option<bool>>, i: nat, v: bool)
    requires i < |cache| && cache[i].None?
    ensures Uncached(cache[i := Some(v)]) == Uncached(cache) - 1
  {
    var n := |cache| - 1;
    if i < n {
      CachingDecreases(cache[..n], i, v);
      assert cache[i := Some(v)][..n] == cache[..n][i := Some(v)];
    } else {
      assert cache[i := Some(v)][..n] == cache[..n];
    }
  }

  /** The smallest node with a processed frame, or the number of nodes when there is none. */
  function LowestProcessed(stack: seq<Frame>, n: nat): nat {
    if stack == [] then n
    else
      var top := stack[|stack| - 1];
      if top.processed then top.idx else LowestProcessed(stack[..|stack| - 1], n)
  }

  lemma {:induction false} LowestProcessedIsAbove(stack: seq<Frame>, n: nat, i: nat)
    requires i < n && forall k :: 0 <= k < |stack| && stack[k].processed ==> i < stack[k].idx
    ensures i < LowestProcessed(stack, n)
  {
    if stack != [] {
      LowestProcessedIsAbove(stack[..|stack| - 1], n, i);
    }
  }

  /** Nothing waits above the top frame, so its children are answered. */
  lemma NothingAbove(nodes: seq<Node>, stack: seq<Frame>, cache: seq<Option<bool>>)
    requires |cache| == |nodes| && stack != [] && StackOrdered(nodes, stack, cache) && stack[|stack| - 1].processed
    ensures forall c :: c in Children(nodes, stack[|stack| - 1].idx) && c < |nodes| ==> cache[c].Some?
  {
    assert ChildrenPending(nodes, stack, cache, |stack| - 1);
  }

  /** The answer of a node from the answers of its children. */
  method Answer(nodes: seq<Node>, cache: seq<Option<bool>>, idx: NodeId) returns (result: bool)
    requires CacheSound(nodes, cache) && idx < |nodes| && OperandsBefore(nodes[idx], idx)
    requires forall c :: c in Children(nodes, idx) && c < |nodes| ==> cache[c].Some?
    ensures result == Shared(nodes, idx)
  {
    match nodes[idx] {
      case SecretInput => result := true;
      case PublicInput => result := false;
      case Constant(_) => result := false;
      case AddGate(a, b) => result := cache[a].value || cache[b].value;
      case MulGate(a, b) => result := cache[a].value || cache[b].value;
    }
  }

  /** Frames for the children that have no answer yet, first operand first. */
  method Unanswered(nodes: seq<Node>, cache: seq<Option<bool>>, idx: NodeId) returns (pushed: seq<Frame>)
    requires |cache| == |nodes| && idx < |nodes| && OperandsBefore(nodes[idx], idx)
    ensures forall l :: 0 <= l < |pushed| ==> !pushed[l].processed && pushed[l].idx in Children(nodes, idx)
    ensures forall c :: c in Children(nodes, idx) && c < |nodes| && cache[c].None? ==>
              exists l :: 0 <= l < |pushed| && pushed[l].idx == c
  {
    pushed := [];
    if nodes[idx].IsGate() {
      if cache[nodes[idx].a].None? {
        pushed := pushed + [Frame(nodes[idx].a, false)];
      }
      if cache[nodes[idx].b].None? {
        pushed := pushed + [Frame(nodes[idx].b, false)];
      }
      assert cache[nodes[idx].a].None? ==> pushed[0].idx == nodes[idx].a;
      assert cache[nodes[idx].b].None? ==> pushed[|pushed| - 1].idx == nodes[idx].b;
    }
  }

  /** Whether a node depends on a secret, by an explicit-stack traversal. It terminates on every
      valid circuit, shared and repeated operands included, and never reads an empty cache entry. */
  method NodeDependsOnSecrets(c: Circuit, id: NodeId) returns (r: bool)
    requires TopologicalOrder(c.nodes) && id < |c.nodes|
    ensures r == Shared(c.nodes, id)
  {
    hide Shared, Children, ChildrenPending;
    var nodes := c.nodes;
    var cache: seq<Option<bool>> := seq(|nodes|, _ => None);
    var stack := [Frame(id, false)];
    while stack != []
      invariant CacheSound(nodes, cache) && StackOrdered(nodes, stack, cache)
      invariant cache[id].Some? || (stack != [] && stack[0].idx == id)
      decreases Uncached(cache), LowestProcessed(stack, |nodes|), |stack|
    {
      var top := stack[|stack| - 1];
      var below := stack[..|stack| - 1];
      var idx := top.idx;
      assert OperandsBefore(nodes[idx], idx);
      if cache[idx].Some? {
        PopKeepsOrder(nodes, stack, cache, cache);
        stack := below;
      } else if top.processed {
        NothingAbove(nodes, stack, cache);
        var result := Answer(nodes, cache, idx);
        CachingDecreases(cache, idx, result);
        PopKeepsOrder(nodes, stack, cache, cache[idx := Some(result)]);
        cache := cache[idx := Some(result)];
        stack := below;
      } else {
        var pushed := Unanswered(nodes, cache, idx);
        MarkingKeepsOrder(nodes, stack, cache, pushed);
        MarkingLowers(nodes, stack, cache, pushed);
        stack := below + [Frame(idx, true)] + pushed;
      }
    }
    return cache[id].value;
  }

  /** Popping an answered frame, or answering and popping a processed one, keeps the order. */
  lemma PopKeepsOrder(nodes: seq<Node>, stack: seq<Frame>, cache: seq<Option<bool>>, cache': seq<Option<bool>>)
    requires |cache| == |nodes| && stack != [] && StackOrdered(nodes, stack, cache)
    requires var top := stack[|stack| - 1];
             if top.processed then exists v :: cache' == cache[top.idx := Some(v)]
             else cache[top.idx].Some? && cache' == cache
    ensures StackOrdered(nodes, stack[..|stack| - 1], cache')
  {
    var below := stack[..|stack| - 1];
    forall k | 0 <= k < |below| && below[k].processed
      ensures ChildrenPending(nodes, below, cache', k)
    {
      assert ChildrenPending(nodes, stack, cache, k);
      forall c | c in Children(nodes, below[k].idx) && c < |nodes| && cache'[c].None?
        ensures WaitsAbove(below, k, c)
      {
        var l :| k < l < |stack| && stack[l].idx == c;
        assert below[l].idx == c;
      }
    }
  }

  lemma MarkingKeepsOrder(nodes: seq<Node>, stack: seq<Frame>, cache: seq<Option<bool>>, pushed: seq<Frame>)
    requires |cache| == |nodes| && stack != [] && StackOrdered(nodes, stack, cache)
    requires var top := stack[|stack| - 1];
             && !top.processed && cache[top.idx].None? && TopologicalOrder(nodes)
             && (forall l :: 0 <= l < |pushed| ==> !pushed[l].processed && pushed[l].idx in Children(nodes, top.idx))
             && (forall c :: c in Children(nodes, top.idx) && c < |nodes| && cache[c].None? ==>
                   exists l :: 0 <= l < |pushed| && pushed[l].idx == c)
    ensures var top := stack[|stack| - 1];
            StackOrdered(nodes, stack[..|stack| - 1] + [Frame(top.idx, true)] + pushed, cache)
  {
    hide ChildrenPending;
    var top, n := stack[|stack| - 1], |stack| - 1;
    var marked := stack[..n] + [Frame(top.idx, true)] + pushed;
    assert OperandsBefore(nodes[top.idx], top.idx);
    forall k | 0 <= k < |marked| && marked[k].processed
      ensures marked[k].idx < |nodes| && ChildrenPending(nodes, marked, cache, k)
    {
      if k < n {
        StillPending(nodes, stack, marked, cache, k);
      } else {
        NowPending(nodes, marked, cache, n, pushed);
      }
    }
  }

  lemma StillPending(nodes: seq<Node>, stack: seq<Frame>, marked: seq<Frame>, cache: seq<Option<bool>>, k: nat)
    requires |cache| == |nodes| && k < |stack| <= |marked| && stack[k].idx < |nodes|
    requires forall l :: 0 <= l < |stack| ==> marked[l].idx == stack[l].idx
    requires ChildrenPending(nodes, stack, cache, k)
    ensures ChildrenPending(nodes, marked, cache, k)
  {
    forall c | c in Children(nodes, marked[k].idx) && c < |nodes| && cache[c].None?
      ensures WaitsAbove(marked, k, c)
    {
      var l :| k < l < |stack| && stack[l].idx == c;
      assert marked[l].idx == c;
    }
  }

  lemma NowPending(nodes: seq<Node>, marked: seq<Frame>, cache: seq<Option<bool>>, n: nat, pushed: seq<Frame>)
    requires |cache| == |nodes| && |marked| == n + 1 + |pushed| && marked[n + 1..] == pushed && marked[n].idx < |nodes|
    requires forall c :: c in Children(nodes, marked[n].idx) && c < |nodes| && cache[c].None? ==>
               exists l :: 0 <= l < |pushed| && pushed[l].idx == c
    ensures ChildrenPending(nodes, marked, cache, n)
  {
    forall c | c in Children(nodes, marked[n].idx) && c < |nodes| && cache[c].None?
      ensures WaitsAbove(marked, n, c)
    {
      var l :| 0 <= l < |pushed| && pushed[l].idx == c;
      assert marked[n + 1 + l] == pushed[l];
    }
  }

  lemma MarkingLowers(nodes: seq<Node>, stack: seq<Frame>, cache: seq<Option<bool>>, pushed: seq<Frame>)
    requires |cache| == |nodes| && stack != [] && StackOrdered(nodes, stack, cache)
    requires !stack[|stack| - 1].processed && forall l :: 0 <= l < |pushed| ==> !pushed[l].processed
    ensures var marked := stack[..|stack| - 1] + [Frame(stack[|stack| - 1].idx, true)] + pushed;
            LowestProcessed(marked, |nodes|) < LowestProcessed(stack, |nodes|)
  {
    var top, below := stack[|stack| - 1], stack[..|stack| - 1];
    UnprocessedOnTop(below + [Frame(top.idx, true)], pushed, |nodes|);
    LowestProcessedIsAbove(below, |nodes|, top.idx);
  }

  lemma {:induction false} UnprocessedOnTop(stack: seq<Frame>, pushed: seq<Frame>, n: nat)
    requires forall l :: 0 <= l < |pushed| ==> !pushed[l].processed
    ensures LowestProcessed(stack + pushed, n) == LowestProcessed(stack, n)
  {
    if pushed == [] {
      assert stack + pushed == stack;
    } else {
      UnprocessedOnTop(stack, pushed[..|pushed| - 1], n);
      assert (stack + pushed)[..|stack + pushed| - 1] == stack + pushed[..|pushed| - 1];
    }
  }
}
