/** `CardSetGenericRepeating`: a multiset of cards kept as a hash map from card to count,
    beside a `size_estimator` that is meant to be the sum of the counts. */
module CardSetGenRepeating {
  import opened Wrappers
  import opened Errors

  /** The count a map stores for a card, 0 for a missing key. */
  function Count<C>(m: map<C, nat>, c: C): nat
  {
    if c in m then m[c] else 0
  }

  /** The sum of all counts. */
  ghost function Total<C>(m: map<C, nat>): nat
    decreases |m|
  {
    if m == map[] then 0
    else
      var k :| k in m;
      m[k] + Total(m - {k})
  }

  /** The sum does not depend on which key is taken first. */
  lemma {:induction false} TotalRemove<C>(m: map<C, nat>, k: C)
    requires k in m
    ensures Total(m) == m[k] + Total(m - {k})
    decreases |m|
  {
    var j :| j in m && Total(m) == m[j] + Total(m - {j});
    if j != k {
      TotalRemove(m - {j}, k);
      TotalRemove(m - {k}, j);
      assert m - {j} - {k} == m - {k} - {j};
    }
  }

  /** Setting one card's count changes the sum by the difference. */
  lemma TotalUpdate<C>(m: map<C, nat>, k: C, v: nat)
    ensures Total(m[k := v]) + Count(m, k) == Total(m) + v
  {
    TotalRemove(m[k := v], k);
    assert m[k := v] - {k} == m - {k};
    if k in m {
      TotalRemove(m, k);
    } else {
      assert m - {k} == m;
    }
  }

  /** The larger of a card's counts on the two sides. */
  function MaxCount<C>(a: map<C, nat>, b: map<C, nat>, k: C): nat
  {
    if Count(a, k) < Count(b, k) then Count(b, k) else Count(a, k)
  }

  /** The map with the larger count of each card of either side. */
  function MaxCounts<C>(a: map<C, nat>, b: map<C, nat>): map<C, nat>
  {
    map k | k in a.Keys + b.Keys :: MaxCount(a, b, k)
  }

  /** The map with the smaller count of each card of both sides. */
  function MinCounts<C>(a: map<C, nat>, b: map<C, nat>): map<C, nat>
  {
    map k | k in a.Keys * b.Keys :: if a[k] < b[k] then a[k] else b[k]
  }

  /** A map over the keys of both sides holding each key's larger count is `MaxCounts`. */
  lemma MaxCountsFrom<C>(a: map<C, nat>, b: map<C, nat>, m: map<C, nat>)
    requires forall k :: k in m <==> k in a || k in b
    requires forall k :: k in m ==> m[k] == MaxCount(a, b, k)
    ensures m == MaxCounts(a, b)
  {
    assert m.Keys == MaxCounts(a, b).Keys;
  }

  class CardSetGenericRepeating<C(==)> {
    var cards: map<C, nat>
    var sizeEstimator: nat

    /** `size_estimator` is the sum of the counts and every stored count is at least one. */
    ghost predicate Valid()
      reads this
    {
      sizeEstimator == Total(cards) && forall c :: c in cards ==> cards[c] >= 1
    }

    /** `empty()`. */
    constructor Empty()
      ensures Valid() && cards == map[] && sizeEstimator == 0
    {
      cards, sizeEstimator := map[], 0;
    }

    /** A set with the given map and estimator. */
    constructor Of(m: map<C, nat>, size: nat)
      ensures cards == m && sizeEstimator == size
    {
      cards, sizeEstimator := m, size;
    }

    /** `insert_copies`: add `number` to the card's count, creating the key if needed; a
        non-zero number keeps the invariant. */
    method InsertCopies(card: C, number: nat)
      modifies this
      ensures cards == old(cards)[card := Count(old(cards), card) + number]
      ensures sizeEstimator == old(sizeEstimator) + number
      ensures old(sizeEstimator == Total(cards)) ==> sizeEstimator == Total(cards)
      ensures old(Valid()) && number >= 1 ==> Valid()
    {
      TotalUpdate(cards, card, Count(cards, card) + number);
      if card in cards {
        cards := cards[card := cards[card] + number];
      } else {
        cards := cards[card := number];
      }
      sizeEstimator := sizeEstimator + number;
    }

    /** `insert_card`: always succeeds and adds one copy. */
    method InsertCard(card: C) returns (r: Result<(), CardSetErrorGen<C>>)
      modifies this
      ensures r == Ok(())
      ensures cards == old(cards)[card := Count(old(cards), card) + 1]
      ensures sizeEstimator == old(sizeEstimator) + 1
      ensures old(Valid()) ==> Valid()
    {
      TotalUpdate(cards, card, Count(cards, card) + 1);
      if card in cards {
        cards := cards[card := cards[card] + 1];
      } else {
        cards := cards[card := 1];
      }
      sizeEstimator := sizeEstimator + 1;
      r := Ok(());
    }

    /** `remove_card`: an absent card (or a zero count) gives `CardNotInSet` and nothing
        changes; a count of one removes the key, a larger count drops by one. */
    method RemoveCard(card: C) returns (r: Result<(), CardSetErrorGen<C>>)
      requires Valid()
      modifies this
      ensures Valid()
      ensures card !in old(cards) ==> r == Err(CardNotInSet(card)) && cards == old(cards) &&
                                      sizeEstimator == old(sizeEstimator)
      ensures card in old(cards) ==> r == Ok(()) && sizeEstimator + 1 == old(sizeEstimator)
      ensures card in old(cards) && old(cards)[card] == 1 ==> cards == old(cards) - {card}
      ensures card in old(cards) && old(cards)[card] > 1 ==> cards == old(cards)[card := old(cards)[card] - 1]
    {
      if card !in cards || cards[card] == 0 {
        r := Err(CardNotInSet(card));
      } else if cards[card] == 1 {
        TotalRemove(cards, card);
        cards := cards - {card};
        sizeEstimator := sizeEstimator - 1;
        r := Ok(());
      } else {
        TotalUpdate(cards, card, cards[card] - 1);
        cards := cards[card := cards[card] - 1];
        sizeEstimator := sizeEstimator - 1;
        r := Ok(());
      }
    }

    /** `contains`: a missing key or a zero count is not contained; under the invariant this
        is exactly key membership. */
    predicate Contains(card: C)
      reads this
      ensures Valid() ==> (Contains(card) <==> card in cards)
    {
      Count(cards, card) != 0
    }

    /** `len`: the size estimator, which under the invariant is the number of copies. */
    function Len(): (n: nat)
      reads this
      ensures Valid() ==> n == Total(cards)
    {
      sizeEstimator
    }

    /** `union`: a new set in which each card of either side has the larger of its two counts.
        The first loop adds the cards of `self`, the second the cards only `other` has. */
    method Union(other: CardSetGenericRepeating<C>) returns (hs: CardSetGenericRepeating<C>)
      requires Valid() && other.Valid()
      ensures fresh(hs) && hs.Valid()
      ensures hs.cards == MaxCounts(cards, other.cards)
    {
      var m, size := AddLarger(cards, other.cards);
      m, size := AddMissing(cards, other.cards, m, size);
      hs := new CardSetGenericRepeating.Of(m, size);
    }

    /** Adds `number` to a card's count in a map whose sum `size` is. */
    static method AddToCount(m: map<C, nat>, size: nat, card: C, number: nat)
      returns (m2: map<C, nat>, size2: nat)
      requires size == Total(m)
      ensures m2 == m[card := Count(m, card) + number]
      ensures size2 == size + number && size2 == Total(m2)
    {
      TotalUpdate(m, card, Count(m, card) + number);
      m2, size2 := m[card := Count(m, card) + number], size + number;
    }

    /** The first loop of `union`, on the new set's map and estimator: each card of `a` with
        the larger of its two counts. */
    static method AddLarger(a: map<C, nat>, b: map<C, nat>) returns (m: map<C, nat>, size: nat)
      ensures size == Total(m) && m.Keys == a.Keys
      ensures forall k :: k in m ==> m[k] == MaxCount(a, b, k)
    {
      m, size := map[], 0;
      var todo := a.Keys;
      while todo != {}
        invariant todo <= a.Keys && size == Total(m)
        invariant m.Keys == a.Keys - todo
        invariant forall k :: k in m ==> m[k] == MaxCount(a, b, k)
        decreases |todo|
      {
        var card :| card in todo;
        var number := if card in b && a[card] < b[card] then b[card] else a[card];
        m, size := AddToCount(m, size, card, number);
        todo := todo - {card};
      }
    }

    /** The second loop of `union`: each card of `b` that `a` does not contain, with its
        count. */
    static method AddMissing(a: map<C, nat>, b: map<C, nat>, m0: map<C, nat>, size0: nat)
      returns (m: map<C, nat>, size: nat)
      requires size0 == Total(m0) && m0.Keys == a.Keys
      requires forall k :: k in m0 ==> m0[k] == MaxCount(a, b, k)
      requires forall k :: k in a ==> a[k] >= 1
      ensures size == Total(m) && m == MaxCounts(a, b)
    {
      m, size := m0, size0;
      var todo := b.Keys;
      while todo != {}
        invariant todo <= b.Keys && size == Total(m)
        invariant forall k :: k in m <==> k in a || (k in b && k !in todo)
        invariant forall k :: k in m ==> m[k] == MaxCount(a, b, k)
        decreases |todo|
      {
        var card :| card in todo;
        if Count(a, card) == 0 {
          m, size := AddToCount(m, size, card, b[card]);
        }
        todo := todo - {card};
      }
      MaxCountsFrom(a, b, m);
    }

    /** `intersection`: a new set holding the cards of both sides, each with the smaller
        count. */
    method Intersection(other: CardSetGenericRepeating<C>) returns (hs: CardSetGenericRepeating<C>)
      requires Valid() && other.Valid()
      ensures fresh(hs) && hs.Valid()
      ensures hs.cards == MinCounts(cards, other.cards)
    {
      hs := new CardSetGenericRepeating.Empty();
      var todo := cards.Keys;
      while todo != {}
        invariant todo <= cards.Keys && fresh(hs) && hs.Valid()
        invariant hs.cards.Keys == (cards.Keys - todo) * other.cards.Keys
        invariant forall k :: k in hs.cards ==> hs.cards[k] == MinCounts(cards, other.cards)[k]
        decreases |todo|
      {
        var card :| card in todo;
        if card in other.cards {
          hs.InsertCopies(card, if cards[card] < other.cards[card] then cards[card] else other.cards[card]);
        }
        todo := todo - {card};
      }
    }

    /** `into_iter`: every card pushed as many times as its count, the cards in the map's own
        (unspecified) order. */
    method IntoIter() returns (v: seq<C>)
      ensures forall c :: multiset(v)[c] == Count(cards, c)
    {
      v := [];
      var todo := cards.Keys;
      while todo != {}
        invariant todo <= cards.Keys
        invariant forall c :: multiset(v)[c] == if c in cards.Keys - todo then cards[c] else 0
        decreases |todo|
      {
        var card :| card in todo;
        var count := cards[card];
        var i := 0;
        while i < count
          invariant 0 <= i <= count
          invariant forall c :: multiset(v)[c] == if c in cards.Keys - todo then cards[c] else if c == card then i else 0
        {
          v := v + [card];
          i := i + 1;
        }
        todo := todo - {card};
      }
    }
  }
}
