/** `CardRegister`: which of the 52 standard cards have been registered, one bit per card in a
    `u64`, the bit of a card being its mask. */
module StandardRegister {
  import opened Bits
  import opened Cards
  import opened CardSets

  /** The memory after `register(c)`: the card's bit set. */
  function RegisterWord(w: Word, c: Card): (r: Word)
    ensures Bit(r, UsizeIndex(c))
  {
    Pow2Of64();
    OrBound(w, Mask(c), 64);
    BitOfOr(w, Mask(c), UsizeIndex(c));
    BitOfPow2(UsizeIndex(c), UsizeIndex(c));
    Or(w, Mask(c))
  }

  /** The memory after `unregister(c)`: `memory & !mask`, the complement taken in 64 bits. */
  function UnregisterWord(w: Word, c: Card): (r: Word)
    ensures !Bit(r, UsizeIndex(c))
  {
    Pow2Of64();
    AndBound(w, NotN(Mask(c), 64), 64);
    BitOfAnd(w, NotN(Mask(c), 64), UsizeIndex(c));
    BitOfNotN(Mask(c), 64, UsizeIndex(c));
    BitOfPow2(UsizeIndex(c), UsizeIndex(c));
    And(w, NotN(Mask(c), 64))
  }

  /** Registering a card sets its bit and only its bit. */
  lemma RegisterBits(w: Word, c: Card, i: nat)
    ensures Bit(RegisterWord(w, c), i) <==> Bit(w, i) || i == UsizeIndex(c)
  {
    BitOfOr(w, Mask(c), i);
    BitOfPow2(UsizeIndex(c), i);
  }

  /** Unregistering a card clears its bit and only its bit. */
  lemma UnregisterBits(w: Word, c: Card, i: nat)
    ensures Bit(UnregisterWord(w, c), i) <==> Bit(w, i) && i != UsizeIndex(c)
  {
    BitOfAnd(w, NotN(Mask(c), 64), i);
    BitOfNotN(Mask(c), 64, i);
    BitOfPow2(UsizeIndex(c), i);
    if 64 <= i {
      Pow2Of64();
      BitAboveBound(w, 64, i);
    }
  }

  /** Unregistering twice is unregistering once. */
  lemma UnregisterIdempotent(w: Word, c: Card)
    ensures UnregisterWord(UnregisterWord(w, c), c) == UnregisterWord(w, c)
  {
    forall i: nat
      ensures Bit(UnregisterWord(UnregisterWord(w, c), c), i) == Bit(UnregisterWord(w, c), i)
    {
      UnregisterBits(UnregisterWord(w, c), c, i);
      UnregisterBits(w, c, i);
    }
    BitsEqual(UnregisterWord(UnregisterWord(w, c), c), UnregisterWord(w, c));
  }

  /** Unregistering a card that is not registered changes nothing. */
  lemma UnregisterAbsent(w: Word, c: Card)
    requires !Bit(w, UsizeIndex(c))
    ensures UnregisterWord(w, c) == w
  {
    forall i: nat
      ensures Bit(UnregisterWord(w, c), i) == Bit(w, i)
    {
      UnregisterBits(w, c, i);
    }
    BitsEqual(UnregisterWord(w, c), w);
  }

  /** Unregistering a card just registered into a memory without it restores the memory. */
  lemma RegisterUnregisterRoundTrip(w: Word, c: Card)
    requires !Bit(w, UsizeIndex(c))
    ensures UnregisterWord(RegisterWord(w, c), c) == w
  {
    forall i: nat
      ensures Bit(UnregisterWord(RegisterWord(w, c), c), i) == Bit(w, i)
    {
      UnregisterBits(RegisterWord(w, c), c, i);
      RegisterBits(w, c, i);
    }
    BitsEqual(UnregisterWord(RegisterWord(w, c), c), w);
  }

  class CardRegister {
    var memory: Word

    /** `Default`: an empty memory, nothing registered. */
    constructor ()
      ensures memory == 0
      ensures forall c: Card :: !IsRegistered(c)
    {
      memory := 0;
      new;
      forall c: Card
        ensures !IsRegistered(c)
      {
        BitOfZero(UsizeIndex(c));
      }
    }

    /** `is_registered`: `memory & mask` is not zero, which is the card's bit (the same test
        as a card set's `contains`). */
    predicate IsRegistered(c: Card)
      reads this
      ensures IsRegistered(c) <==> Bit(memory, UsizeIndex(c))
    {
      Contains(memory, c)
    }

    /** `register`: `memory |= mask`; the card becomes registered and no other card changes. */
    method Register(c: Card)
      modifies this
      ensures memory == RegisterWord(old(memory), c)
      ensures IsRegistered(c)
      ensures forall d: Card :: d != c ==> (Contains(memory, d) <==> Contains(old(memory), d))
    {
      memory := RegisterWord(memory, c);
      forall d: Card | d != c
        ensures Contains(memory, d) <==> Contains(old(memory), d)
      {
        RegisterBits(old(memory), c, UsizeIndex(d));
        IndexInjective(c, d);
      }
    }

    /** `unregister`: `memory &= !mask`; the card is no longer registered and no other card
        changes. */
    method Unregister(c: Card)
      modifies this
      ensures memory == UnregisterWord(old(memory), c)
      ensures !IsRegistered(c)
      ensures forall d: Card :: d != c ==> (Contains(memory, d) <==> Contains(old(memory), d))
    {
      memory := UnregisterWord(memory, c);
      forall d: Card | d != c
        ensures Contains(memory, d) <==> Contains(old(memory), d)
      {
        UnregisterBits(old(memory), c, UsizeIndex(d));
        IndexInjective(c, d);
      }
    }
  }
}
