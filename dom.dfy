/**
  The one piece of the DOM the model needs: an element to which children are
  appended with `appendChild`, in order.
 */
module Dom {

  class Container<T> {
    /** The children, in document order. */
    var children: seq<T>

    constructor ()
      ensures children == []
    {
      children := [];
    }

    /** `appendChild(x)`: `x` becomes the last child; nothing else changes. */
    method Append(x: T)
      modifies this
      ensures children == old(children) + [x]
    {
      children := children + [x];
    }
  }
}
