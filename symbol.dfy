/** The `CardSymbol` contract: a finite symbol type numbered densely by `0 .. SYMBOL_SPACE`. */
module Symbol {
  import opened Wrappers
  import opened Errors

  /** What an implementation of `CardSymbol` supplies: `SYMBOL_SPACE`, `usize_index` and
      `from_usize_index`. */
  datatype Space<!T> = Space(size: nat, index: T -> nat, fromIndex: nat -> Result<T, CardError>)

  /** The obligation stated on the trait: every symbol has a number below `SYMBOL_SPACE` that
      decodes back to it, every number below `SYMBOL_SPACE` decodes to a symbol numbered by it
      (the numbering has no gaps), and no number from `SYMBOL_SPACE` on decodes to anything. */
  ghost predicate IsDense<T(!new)>(sp: Space<T>)
  {
    (forall t: T :: sp.index(t) < sp.size && sp.fromIndex(sp.index(t)) == Ok(t)) &&
    (forall i: nat :: i < sp.size ==> sp.fromIndex(i).Ok? && sp.index(sp.fromIndex(i).value) == i) &&
    (forall i: nat :: sp.size <= i ==> sp.fromIndex(i).Err?)
  }

  /** `usize::checked_sub`. */
  function CheckedSub(a: nat, b: nat): (r: Option<nat>)
    ensures r.Some? <==> b <= a
    ensures r.Some? ==> r.value + b == a
  {
    if b > a then None else Some(a - b)
  }

  /** `higher_n`: the symbol `n` places above `s`, if there is one. */
  function HigherN<T(!new)>(sp: Space<T>, s: T, n: nat): (r: Option<T>)
    ensures IsDense(sp) ==> (r.Some? <==> sp.index(s) + n < sp.size)
    ensures IsDense(sp) && r.Some? ==> sp.index(r.value) == sp.index(s) + n
  {
    sp.fromIndex(sp.index(s) + n).ToOption()
  }

  /** `lower_n`: the symbol `n` places below `s`, if there is one. */
  function LowerN<T(!new)>(sp: Space<T>, s: T, n: nat): (r: Option<T>)
    ensures n > sp.index(s) ==> r == None
    ensures IsDense(sp) ==> (r.Some? <==> n <= sp.index(s))
    ensures IsDense(sp) && r.Some? ==> sp.index(r.value) + n == sp.index(s)
  {
    match CheckedSub(sp.index(s), n)
    case Some(k) => sp.fromIndex(k).ToOption()
    case None => None
  }

  /** Moving up by nothing stays put. */
  lemma HigherNZero<T(!new)>(sp: Space<T>, s: T)
    requires IsDense(sp)
    ensures HigherN(sp, s, 0) == Some(s)
  {
    assert sp.fromIndex(sp.index(s)) == Ok(s);
  }

  /** `lower_n(n)` undoes a successful `higher_n(n)`, and the other way round. */
  lemma LowerNUndoesHigherN<T(!new)>(sp: Space<T>, s: T, n: nat)
    requires IsDense(sp)
    ensures HigherN(sp, s, n).Some? ==> LowerN(sp, HigherN(sp, s, n).value, n) == Some(s)
    ensures LowerN(sp, s, n).Some? ==> HigherN(sp, LowerN(sp, s, n).value, n) == Some(s)
  {
    assert sp.fromIndex(sp.index(s)) == Ok(s);
  }

  /** The symbols numbered below `k` that decode, in ascending order of number: what a fresh
      `CardSymbolIterator` has produced after `k` calls to `next`. */
  function Listed<T>(sp: Space<T>, k: nat): seq<T>
  {
    if k == 0 then []
    else Listed(sp, k - 1) + (match sp.fromIndex(k - 1) case Ok(t) => [t] case Err(_) => [])
  }

  /** For a dense space the listing stops growing at `SYMBOL_SPACE`, has exactly that many
      symbols, and its `i`-th symbol is the one numbered `i`. */
  lemma {:induction false} ListedDense<T(!new)>(sp: Space<T>, k: nat)
    requires IsDense(sp)
    ensures |Listed(sp, k)| == if k < sp.size then k else sp.size
    ensures forall i :: 0 <= i < |Listed(sp, k)| ==> sp.index(Listed(sp, k)[i]) == i
    ensures sp.size <= k ==> Listed(sp, k) == Listed(sp, sp.size)
  {
    if k > 0 {
      ListedDense(sp, k - 1);
      if k - 1 < sp.size {
        assert sp.fromIndex(k - 1).Ok?;
      } else {
        assert sp.fromIndex(k - 1).Err?;
      }
    }
  }

  /** A dense space's full listing holds every symbol: iterating a `CardSymbol` type visits all
      of it. */
  lemma ListedCovers<T(!new)>(sp: Space<T>, t: T)
    requires IsDense(sp)
    ensures t in Listed(sp, sp.size)
  {
    ListedDense(sp, sp.size);
    var l := Listed(sp, sp.size);
    var i := sp.index(t);
    assert sp.fromIndex(sp.index(l[i])) == Ok(l[i]);
    assert sp.fromIndex(i) == Ok(t);
  }
}
