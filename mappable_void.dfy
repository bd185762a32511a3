// SolidStack.Core.Flow.Internal.MappableVoid: the mapping state behind a
// `.MapTo(...)` chain with no content (a None, a void success). The first
// matching clause installs its mapping; `Map()` calls it.
module MappableVoids {
  import opened Base
  import Guards
  import opened FlowClauses
  import MappableContents

  /** What the filtered wrapper does with the next `MapTo` delegate:
    * `Skip*` discards it, `TryUse*Mapping()` offers it to `TryUseMapping`. */
  datatype Handler = Skip | TryUse

  class MappableVoid<D> {
    /** `Mapping`; None stands for the placeholder that throws InvalidOperationException. */
    var mapping: Option<() -> D>
    var acceptsMapping: bool

    ghost predicate Valid()
      reads this
    {
      acceptsMapping <==> mapping.None?
    }

    /** `MappableVoid()`. */
    constructor Unmapped()
      ensures Valid()
      ensures mapping.None?
    {
      mapping := None;
      acceptsMapping := true;
    }

    /** `MappableVoid(mapping)`: later `TryUse` calls never replace it. */
    constructor Mapped(firstMapping: () -> D)
      ensures Valid()
      ensures mapping == Some(firstMapping)
    {
      mapping := Some(firstMapping);
      acceptsMapping := false;
    }

    /** `Map()`: calls the installed mapping. */
    method Map() returns (r: Result<D>)
      requires Valid()
      ensures mapping.None? ==> r == Err(InvalidOperation)
      ensures mapping.Some? ==> r == Ok(mapping.value())
    {
      if mapping.None? {
        return Err(InvalidOperation);
      }
      return Ok(mapping.value());
    }

    /** `TryUseMapping(f)`: installs `f` if nothing is installed yet, then never again. */
    method TryUseMapping(f: () -> D)
      requires Valid()
      modifies this
      ensures Valid()
      ensures mapping == if old(mapping).None? then Some(f) else old(mapping)
    {
      if acceptsMapping {
        mapping := Some(f);
        acceptsMapping := false;
      }
    }

    /** `MapTo(f)` on the filtered wrapper: the guard on `f`, then the handler. */
    method MapTo(handler: Handler, f: Nullable<() -> D>) returns (o: Outcome)
      requires Valid()
      modifies this
      ensures Valid()
      ensures f.Null? ==> o == Fail(GuardClause(Guards.NullMessage("mapping")))
      ensures f.NonNull? ==> o.Pass?
      ensures mapping == if f.NonNull? && handler == TryUse && old(mapping).None? then Some(f.value) else old(mapping)
    {
      var guard := Guards.RequiresNonNull(f, "mapping");
      if guard.Fail? {
        return guard;
      }
      if handler == TryUse {
        TryUseMapping(f.value);
      }
      return Pass;
    }

    /** A chain of `MapTo` clauses: a matching clause offers its mapping, a
      * non-matching one is skipped. */
    method MapChain(clauses: seq<Clause<() -> D>>)
      requires Valid()
      modifies this
      ensures Valid()
      ensures mapping == if old(mapping).None? then FirstMatched(clauses) else old(mapping)
    {
      var i := 0;
      while i < |clauses|
        invariant 0 <= i <= |clauses|
        invariant Valid()
        invariant mapping == if old(mapping).None? then FirstMatched(clauses[..i]) else old(mapping)
      {
        MappableContents.FirstMatchedSnoc(clauses[..i], clauses[i]);
        assert clauses[..i + 1] == clauses[..i] + [clauses[i]];
        var o := MapTo(if clauses[i].matched then TryUse else Skip, NonNull(clauses[i].handler));
        i := i + 1;
      }
      assert clauses[..i] == clauses;
    }
  }

  /** Mapped from the start, no clause changes the result of `Map()`. */
  method MapAfterFirstMapping<D>(firstMapping: () -> D, clauses: seq<Clause<() -> D>>) returns (r: Result<D>)
    ensures r == Ok(firstMapping())
  {
    var mappable := new MappableVoid.Mapped(firstMapping);
    mappable.MapChain(clauses);
    r := mappable.Map();
  }
}
