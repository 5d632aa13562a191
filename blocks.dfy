/**
 * `getCurrentNode` and `getCurrentBlock`: from the selection's anchor up the
 * parent chain to the nearest element whose tag is the default block element.
 * The document is abstracted to a tag map (the elements), the set of text
 * nodes, a parent map and a next-sibling map; a node with no entry in the
 * parent map has a null `parentNode`.
 */
module Blocks {
  import opened Wrappers
  import Paste

  type NodeId = nat

  /** `next` maps a node to its `nextSibling`; a node without an entry is a last child. */
  datatype Dom = Dom(tag: map<NodeId, string>, text: set<NodeId>, parent: map<NodeId, NodeId>,
                     next: map<NodeId, NodeId>)

  /** ASCII `toLowerCase`, enough for HTML tag names. */
  function Lower(s: string): (r: string)
    ensures |r| == |s|
  {
    if s == [] then []
    else [if 'A' <= s[0] <= 'Z' then (s[0] as int + 32) as char else s[0]] + Lower(s[1..])
  }

  predicate IsBlock(dom: Dom, n: NodeId)
  {
    n in dom.tag && Lower(dom.tag[n]) == Paste.BlockElement
  }

  /** The node `k` steps up the parent chain from `n`, if the chain is that long. */
  function Ancestor(dom: Dom, n: NodeId, k: nat): Option<NodeId>
    decreases k
  {
    if k == 0 then Some(n)
    else if n in dom.parent then Ancestor(dom, dom.parent[n], k - 1)
    else None
  }

  /**
   * `getCurrentNode`: the anchor node, or its parent when it is a text node;
   * `None` for a null result (no selection, or a detached text node).
   */
  function CurrentNode(dom: Dom, anchor: Option<NodeId>): (r: Option<NodeId>)
    ensures r.None? <==> anchor.None? || (anchor.value in dom.text && anchor.value !in dom.parent)
    ensures r.Some? ==> r == Ancestor(dom, anchor.value, if anchor.value in dom.text then 1 else 0)
  {
    match anchor
    case None => None
    case Some(n) =>
      if n !in dom.text then Some(n)
      else if n in dom.parent then Some(dom.parent[n])
      else None
  }

  /**
   * `getCurrentBlock`, walking at most `fuel` parent links. `None` stands for the
   * TypeError the source raises when the walk reaches a node without a tag name
   * (the document, or a missing node); the source itself has no bound.
   */
  function GetCurrentBlock(dom: Dom, n: NodeId, fuel: nat): (r: Option<NodeId>)
    ensures r.Some? ==> IsBlock(dom, r.value)
    decreases fuel
  {
    if n !in dom.tag then None
    else if IsBlock(dom, n) then Some(n)
    else if fuel == 0 || n !in dom.parent then None
    else GetCurrentBlock(dom, dom.parent[n], fuel - 1)
  }

  /** `node.children.length === 0`: no element has `n` as its parent. */
  predicate Childless(dom: Dom, n: NodeId)
  {
    forall m :: m in dom.parent && dom.parent[m] == n ==> m !in dom.tag
  }

  /** The block lookup `setAction` performs, with one step per parent link of the document. */
  function CurrentBlock(dom: Dom, anchor: Option<NodeId>): (r: Option<NodeId>)
    ensures CurrentNode(dom, anchor).None? ==> r.None?
    ensures r.Some? ==> IsBlock(dom, r.value)
    ensures r.Some? ==> exists k :: 0 <= k <= |dom.parent| && NearestBlockAt(dom, CurrentNode(dom, anchor).value, k)
                                    && Ancestor(dom, CurrentNode(dom, anchor).value, k) == r
  {
    match CurrentNode(dom, anchor)
    case None => None
    case Some(n) =>
      var b := GetCurrentBlock(dom, n, |dom.parent|);
      if b.Some? then BlockIsNearest(dom, n, |dom.parent|); b else b
  }

  /** `k` steps up from `n` lies the nearest block, every step before it being a non-block element. */
  predicate NearestBlockAt(dom: Dom, n: NodeId, k: nat)
  {
    && Ancestor(dom, n, k).Some?
    && IsBlock(dom, Ancestor(dom, n, k).value)
    && forall j :: 0 <= j < k ==> (Ancestor(dom, n, j).Some?
                                   && Ancestor(dom, n, j).value in dom.tag
                                   && !IsBlock(dom, Ancestor(dom, n, j).value))
  }

  /** A found block is the nearest block-element ancestor, within the fuel. */
  lemma {:induction false} BlockIsNearest(dom: Dom, n: NodeId, fuel: nat)
    requires GetCurrentBlock(dom, n, fuel).Some?
    ensures exists k :: 0 <= k <= fuel && NearestBlockAt(dom, n, k)
                        && Ancestor(dom, n, k) == GetCurrentBlock(dom, n, fuel)
    decreases fuel
  {
    if IsBlock(dom, n) {
      assert NearestBlockAt(dom, n, 0);
    } else {
      var p := dom.parent[n];
      BlockIsNearest(dom, p, fuel - 1);
      var k :| 0 <= k <= fuel - 1 && NearestBlockAt(dom, p, k)
               && Ancestor(dom, p, k) == GetCurrentBlock(dom, p, fuel - 1);
      assert Ancestor(dom, n, k + 1) == Ancestor(dom, p, k);
      forall j | 0 <= j < k + 1
        ensures Ancestor(dom, n, j).Some? && Ancestor(dom, n, j).value in dom.tag
                && !IsBlock(dom, Ancestor(dom, n, j).value)
      {
        if j > 0 { assert Ancestor(dom, n, j) == Ancestor(dom, p, j - 1); }
      }
      assert NearestBlockAt(dom, n, k + 1);
    }
  }

  /** Whenever the nearest block lies within the fuel, the lookup finds it. */
  lemma {:induction false} NearestBlockIsFound(dom: Dom, n: NodeId, fuel: nat, k: nat)
    requires k <= fuel && NearestBlockAt(dom, n, k)
    ensures GetCurrentBlock(dom, n, fuel) == Ancestor(dom, n, k)
    decreases k
  {
    if k > 0 {
      assert Ancestor(dom, n, 0) == Some(n);
      assert n in dom.tag && !IsBlock(dom, n);
      assert n in dom.parent by { assert Ancestor(dom, n, 1).Some?; }
      var p := dom.parent[n];
      forall j | 0 <= j < k - 1
        ensures Ancestor(dom, p, j).Some? && Ancestor(dom, p, j).value in dom.tag
                && !IsBlock(dom, Ancestor(dom, p, j).value)
      {
        assert Ancestor(dom, n, j + 1) == Ancestor(dom, p, j);
      }
      assert Ancestor(dom, n, k) == Ancestor(dom, p, k - 1);
      NearestBlockIsFound(dom, p, fuel - 1, k - 1);
    }
  }

  /**
   * `parent.insertBefore(node, b.nextSibling)` finds its reference child: either
   * `b` is a last child (the reference is null) or its next sibling is a child of
   * `parent`. Otherwise the DOM throws a NotFoundError.
   */
  predicate InsertsAfter(dom: Dom, parent: NodeId, b: NodeId)
  {
    b !in dom.next || (dom.next[b] in dom.parent && dom.parent[dom.next[b]] == parent)
  }

  /** Siblings share their parent, as they do in any document. */
  predicate SiblingsShareParent(dom: Dom)
  {
    forall n :: n in dom.next ==> n in dom.parent && dom.next[n] in dom.parent
                                  && dom.parent[dom.next[n]] == dom.parent[n]
  }

  /** In a document, inserting after a block succeeds exactly when the block is a child of the element. */
  lemma {:induction false} InsertsAfterChild(dom: Dom, parent: NodeId, b: NodeId)
    requires SiblingsShareParent(dom) && b in dom.next
    ensures InsertsAfter(dom, parent, b) <==> dom.parent[b] == parent
  {
  }

  /** Typing into a paragraph: the caret's text node leads to the paragraph around it. */
  lemma {:induction false} TextInBlockFindsBlock(dom: Dom, t: NodeId, p: NodeId)
    requires t in dom.text && t in dom.parent && dom.parent[t] == p && IsBlock(dom, p)
    ensures CurrentBlock(dom, Some(t)) == Some(p)
  {
  }
}
