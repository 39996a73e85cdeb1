/** The slice of the document tree the ripple and particle code touches: an
    element's list of children, each a tag, a class list and (for the nodes
    whose layout this model tracks) a box. */
module Dom {
  import opened Common

  /** Inline `width`, `height`, `left`, `top` in pixels. */
  datatype Box = Box(width: real, height: real, left: real, top: real)

  datatype Node = Node(tag: string, classes: set<string>, box: Option<Box>)

  /** An element whose children the handlers append and remove in place. */
  class Element {
    var children: seq<Node>

    constructor (children: seq<Node>)
      ensures this.children == children
    {
      this.children := children;
    }
  }
}
