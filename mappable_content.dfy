// SolidStack.Core.Flow.Internal.MappableContent: the mapping state behind a
// `.MapTo(...)` chain on a value. The first matching clause installs its
// mapping; `Map()` applies it to the content.
module MappableContents {
  import opened Base
  import Guards
  import opened FlowClauses

  /** What the filtered wrapper does with the next `MapTo` delegate:
    * `SkipNext*`/`SkipLast*` discard it, `TryUse*Mapping()` offer it to
    * `TryUseMapping`, and `TryUse*Mapping<TSpecificContent>()` run it on the
    * content at once. */
  datatype Handler = Skip | TryUse | TryUseSpecific

  class MappableContent<C, D> {
    const content: C
    /** `Mapping`; None stands for the placeholder that throws InvalidOperationException. */
    var mapping: Option<C -> D>
    /** Whether `TryUseMapping` still installs (it turns itself into a no-op). */
    var acceptsMapping: bool

    /** A mapping is installed exactly when `TryUseMapping` no longer accepts one. */
    ghost predicate Valid()
      reads this
    {
      acceptsMapping <==> mapping.None?
    }

    /** `MappableContent(content)`. */
    constructor Unmapped(content: C)
      ensures Valid()
      ensures this.content == content && mapping.None?
    {
      this.content := content;
      mapping := None;
      acceptsMapping := true;
    }

    /** `MappableContent(content, mapping)`: already mapped, so `TryUseMapping` is a no-op from the start. */
    constructor Mapped(content: C, firstMapping: C -> D)
      ensures Valid()
      ensures this.content == content && mapping == Some(firstMapping)
    {
      this.content := content;
      mapping := Some(firstMapping);
      acceptsMapping := false;
    }

    /** `Map()`: the installed mapping applied to the content. */
    method Map() returns (r: Result<D>)
      requires Valid()
      ensures mapping.None? ==> r == Err(InvalidOperation)
      ensures mapping.Some? ==> r == Ok(mapping.value(content))
    {
      if mapping.None? {
        return Err(InvalidOperation);
      }
      return Ok(mapping.value(content));
    }

    /** `TryUseMapping(f)`: installs `f` if nothing is installed yet, then never again. */
    method TryUseMapping(f: C -> D)
      requires Valid()
      modifies this
      ensures Valid()
      ensures mapping == if old(mapping).None? then Some(f) else old(mapping)
    {
      if acceptsMapping {
        mapping := Some(f);
        acceptsMapping := false;
      }
    }

    /** `MapTo(f)` on the filtered wrapper: the guard on `f`, then the handler. */
    method MapTo(handler: Handler, f: Nullable<C -> D>) returns (o: Outcome, invoked: Option<D>)
      requires Valid()
      modifies this
      ensures Valid()
      ensures f.Null? ==> o == Fail(GuardClause(Guards.NullMessage("mapping"))) && invoked.None?
      ensures f.NonNull? ==> o.Pass?
      ensures mapping == if f.NonNull? && handler == TryUse && old(mapping).None? then Some(f.value) else old(mapping)
      ensures invoked == if f.NonNull? && handler == TryUseSpecific then Some(f.value(content)) else None
    {
      var guard := Guards.RequiresNonNull(f, "mapping");
      if guard.Fail? {
        return guard, None;
      }
      o, invoked := Pass, None;
      match handler {
        case Skip =>
        case TryUse => TryUseMapping(f.value);
        case TryUseSpecific => invoked := Some(f.value(content));
      }
    }

    /** A chain of `MapTo` clauses: a matching clause offers its mapping, a
      * non-matching one is skipped. */
    method MapChain(clauses: seq<Clause<C -> D>>)
      requires Valid()
      modifies this
      ensures Valid()
      ensures mapping == if old(mapping).None? then FirstMatched(clauses) else old(mapping)
    {
      var i := 0;
      while i < |clauses|
        invariant 0 <= i <= |clauses|
        invariant Valid()
        invariant mapping == if old(mapping).None? then FirstMatched(clauses[..i]) else old(mapping)
      {
        FirstMatchedSnoc(clauses[..i], clauses[i]);
        assert clauses[..i + 1] == clauses[..i] + [clauses[i]];
        var o, invoked := MapTo(if clauses[i].matched then TryUse else Skip, NonNull(clauses[i].handler));
        i := i + 1;
      }
      assert clauses[..i] == clauses;
    }
  }

  /** A clause after the first match never changes the winner. */
  lemma {:induction false} FirstMatchedSnoc<F>(clauses: seq<Clause<F>>, last: Clause<F>)
    ensures FirstMatched(clauses + [last]) ==
      if FirstMatched(clauses).Some? then FirstMatched(clauses)
      else if last.matched then Some(last.handler) else None
  {
    if clauses == [] {
      assert clauses + [last] == [last];
    } else {
      assert (clauses + [last])[1..] == clauses[1..] + [last];
      FirstMatchedSnoc(clauses[1..], last);
    }
  }

  /** For an unmapped content, the whole chain then `Map()`: the first
    * matching clause's mapping applied to the content, or
    * InvalidOperationException when no clause matched. */
  method MapFirstMatch<C, D>(content: C, clauses: seq<Clause<C -> D>>) returns (r: Result<D>)
    ensures FirstMatched(clauses).None? ==> r == Err(InvalidOperation)
    ensures FirstMatched(clauses).Some? ==> r == Ok(FirstMatched(clauses).value(content))
  {
    var mappable := new MappableContent.Unmapped(content);
    mappable.MapChain(clauses);
    r := mappable.Map();
  }
}
