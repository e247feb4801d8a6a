/** `CardSymbolIterator`: walks a symbol space upward from number 0. */
module SymbolIterator {
  import opened Wrappers
  import opened Symbol

  class CardSymbolIterator<T(!new)> {
    /** The symbol type's `CardSymbol` implementation. */
    const space: Space<T>
    /** `iterator_position`: the number `next` decodes. */
    var iteratorPosition: nat
    /** The symbols returned so far. */
    ghost var yielded: seq<T>

    ghost predicate Valid()
      reads this
    {
      yielded == Listed(space, iteratorPosition)
    }

    /** `CardSymbolIterator::new` (and `Default`). */
    constructor (space: Space<T>)
      ensures Valid()
      ensures this.space == space && iteratorPosition == 0 && yielded == []
    {
      this.space := space;
      iteratorPosition := 0;
      yielded := [];
    }

    /** `next`: the symbol at the current position, if it decodes; the position always moves
        on by one, so after the first `None` of a dense space every later call is `None`. */
    method Next() returns (r: Option<T>)
      requires Valid()
      modifies this
      ensures Valid()
      ensures iteratorPosition == old(iteratorPosition) + 1
      ensures r == space.fromIndex(old(iteratorPosition)).ToOption()
      ensures yielded == old(yielded) + (if r.Some? then [r.value] else [])
      ensures IsDense(space) ==> (r.Some? <==> old(iteratorPosition) < space.size)
      ensures IsDense(space) && r.Some? ==> space.index(r.value) == old(iteratorPosition)
    {
      r := space.fromIndex(iteratorPosition).ToOption();
      iteratorPosition := iteratorPosition + 1;
      yielded := yielded + (if r.Some? then [r.value] else []);
    }
  }
}
