/** A base node under construction: elements are only ever appended. */
module ElasticNode {

  class ElasticNode<T> {
    const capacity: int   // the item count the node was allocated for
    var items: seq<T>

    constructor (capacity: int)
      ensures items == [] && this.capacity == capacity
    {
      this.capacity := capacity;
      items := [];
    }

    method PushBack(element: T)
      modifies this
      ensures items == old(items) + [element]
    {
      items := items + [element];
    }

    method PushBackRange(elements: seq<T>)
      modifies this
      ensures items == old(items) + elements
    {
      items := items + elements;
    }
  }
}
