// IEnumerator<T> over a sequence already in memory: `MoveNext` advances one
// position and reports whether an element is there; `Current` reads it.
module Enumerators {
  class Enumerator<T> {
    const items: seq<T>
    /** -1 before the first `MoveNext`, |items| once past the end. */
    var position: int

    ghost predicate Valid()
      reads this
    {
      -1 <= position <= |items|
    }

    /** `sequence.GetEnumerator()`. */
    constructor(items: seq<T>)
      ensures Valid()
      ensures this.items == items && position == -1
    {
      this.items := items;
      position := -1;
    }

    method MoveNext() returns (moved: bool)
      requires Valid()
      modifies this
      ensures Valid()
      ensures moved <==> old(position) + 1 < |items|
      ensures position == if moved then old(position) + 1 else |items|
    {
      if position + 1 < |items| {
        position := position + 1;
        moved := true;
      } else {
        position := |items|;
        moved := false;
      }
    }

    function Current(): T
      requires Valid() && 0 <= position < |items|
      reads this
    {
      items[position]
    }
  }
}
