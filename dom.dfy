/** The DOM collaborator, kept abstract: every capability the interpreter uses is a
    function supplied by the host. Nodes are identified by numbers. */
module DomAdapter {
  import opened Wrappers

  type NodeId = nat

  datatype Dom = Dom(
    /** `find(css)`: the descendants matching `css`, in document order. */
    queryAll: (NodeId, string) -> seq<NodeId>,
    /** `is(css)`: whether the node itself matches `css`. */
    matches: (NodeId, string) -> bool,
    /** `attr(name)`: the attribute's value, if the node has it. */
    attr: (NodeId, string) -> Option<string>,
    text: NodeId -> string,
    html: NodeId -> string,
    /** The height of the subtree below a node. */
    height: NodeId -> nat)
  {
    /** Descendants sit strictly lower in the tree than the node they were found under. */
    ghost predicate Valid() {
      forall n: NodeId, css: string, i: int :: 0 <= i < |queryAll(n, css)| ==> height(queryAll(n, css)[i]) < height(n)
    }
  }
}
