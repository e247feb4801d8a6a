/** `SuitMap`: one value per suit, in four named slots, with an optional privileged suit. */
module SuitMaps {
  import opened Wrappers
  import opened Suits
  import Cards

  class SuitMap<T> {
    var spades: T
    var hearts: T
    var diamonds: T
    var clubs: T
    var privilegedSuit: Option<Suit>

    /** `new(spades, hearts, diamonds, clubs)`: no privileged suit. */
    constructor New(spades: T, hearts: T, diamonds: T, clubs: T)
      ensures Get(Spades) == spades && Get(Hearts) == hearts
      ensures Get(Diamonds) == diamonds && Get(Clubs) == clubs
      ensures privilegedSuit == None
    {
      this.spades, this.hearts, this.diamonds, this.clubs := spades, hearts, diamonds, clubs;
      privilegedSuit := None;
    }

    /** `new_symmetric(val)`, and `Default` with `val` the default value: `val` in every
        slot. */
    constructor NewSymmetric(val: T)
      ensures forall s :: Get(s) == val
      ensures privilegedSuit == None
    {
      spades, hearts, diamonds, clubs := val, val, val, val;
      privilegedSuit := None;
    }

    /** `new_from_f(f)`: each suit's slot holds `f` of that suit. */
    constructor NewFromF(f: Suit -> T)
      ensures forall s :: Get(s) == f(s)
      ensures privilegedSuit == None
    {
      spades, hearts, diamonds, clubs := f(Spades), f(Hearts), f(Diamonds), f(Clubs);
      privilegedSuit := None;
    }

    /** `Index<Suit>` (and `Index<&Suit>`): the slot named by the suit. */
    function Get(s: Suit): T
      reads this
    {
      match s
      case Spades => spades
      case Hearts => hearts
      case Diamonds => diamonds
      case Clubs => clubs
    }

    /** `set_at(suit, value)`, which is `IndexMut` followed by an assignment: only that suit's
        slot changes. */
    method SetAt(suit: Suit, value: T)
      modifies this
      ensures Get(suit) == value
      ensures forall s :: s != suit ==> Get(s) == old(Get(s))
      ensures privilegedSuit == old(privilegedSuit)
    {
      match suit
      case Spades => spades := value;
      case Hearts => hearts := value;
      case Diamonds => diamonds := value;
      case Clubs => clubs := value;
    }

    /** `with_privilege(suit)`: only the privileged suit changes. */
    method WithPrivilege(privileged: Suit)
      modifies this
      ensures privilegedSuit == Some(privileged)
      ensures forall s :: Get(s) == old(Get(s))
    {
      privilegedSuit := Some(privileged);
    }

    /** `map(f)`: a new map whose every slot is `f` of this map's slot, with the same
        privileged suit. */
    method Map<R>(f: T -> R) returns (r: SuitMap<R>)
      ensures fresh(r)
      ensures forall s :: r.Get(s) == f(Get(s))
      ensures r.privilegedSuit == privilegedSuit
    {
      r := new SuitMap.New(f(spades), f(hearts), f(diamonds), f(clubs));
      r.privilegedSuit := privilegedSuit;
    }

    /** `and(f)`: whether `f` holds of every slot. */
    function And(f: T -> bool): (r: bool)
      reads this
      ensures r <==> forall s :: f(Get(s))
    {
      assert f(Get(Spades)) && f(Get(Hearts)) && f(Get(Diamonds)) && f(Get(Clubs)) ==>
             forall s :: f(Get(s));
      f(spades) && f(hearts) && f(diamonds) && f(clubs)
    }

    /** `sum`: `spades + (hearts + (diamonds + clubs))` for the element type's addition. */
    function Sum(add: (T, T) -> T): (r: T)
      reads this
      ensures r == add(Get(Spades), add(Get(Hearts), add(Get(Diamonds), Get(Clubs))))
    {
      add(spades, add(hearts, add(diamonds, clubs)))
    }
  }

  /** `single(suit, value)`: `value` at the suit and the default everywhere else. */
  method Single<T>(suit: Suit, value: T, default: T) returns (m: SuitMap<T>)
    ensures fresh(m)
    ensures m.Get(suit) == value
    ensures forall s :: s != suit ==> m.Get(s) == default
    ensures m.privilegedSuit == None
  {
    m := new SuitMap.NewSymmetric(default);
    m.SetAt(suit, value);
  }

  function Plus(a: int, b: int): int
  {
    a + b
  }

  /** The sum of a map holding the same number in every slot is four times that number. */
  lemma SumSymmetric(m: SuitMap<int>, v: int)
    requires forall s :: m.Get(s) == v
    ensures m.Sum(Plus) == 4 * v
  {
    assert m.Get(Spades) == v && m.Get(Hearts) == v && m.Get(Diamonds) == v && m.Get(Clubs) == v;
  }

  /** The sum of numbers is the sum over the four suits in any association. */
  lemma SumIsTotal(m: SuitMap<int>)
    ensures m.Sum(Plus) == m.Get(Clubs) + m.Get(Diamonds) + m.Get(Hearts) + m.Get(Spades)
  {
  }

  // ---------------------------------------------------------------------------------------------
  // Iteration over a map of sequences

  /** `into_iter` of a map of vectors: the clubs, then the diamonds, hearts and spades. */
  function IntoIter<E>(m: SuitMap<seq<E>>): (r: seq<E>)
    reads m
    ensures |r| == |m.Get(Clubs)| + |m.Get(Diamonds)| + |m.Get(Hearts)| + |m.Get(Spades)|
  {
    m.clubs + (m.diamonds + (m.hearts + m.spades))
  }

  /** The slots of the given suits, concatenated in that order. */
  function Concat<E>(m: SuitMap<seq<E>>, suits: seq<Suit>): seq<E>
    reads m
  {
    if suits == [] then [] else m.Get(suits[0]) + Concat(m, suits[1..])
  }

  /** Iteration visits the slots in ascending suit order, `SUITS`. */
  lemma IntoIterInSuitOrder<E>(m: SuitMap<seq<E>>)
    ensures IntoIter(m) == Concat(m, SUITS)
  {
    assert [Spades][1..] == [];
    assert Concat(m, [Spades]) == m.spades;
    assert [Hearts, Spades][1..] == [Spades];
    assert Concat(m, [Hearts, Spades]) == m.hearts + m.spades;
    assert [Diamonds, Hearts, Spades][1..] == [Hearts, Spades];
    assert Concat(m, [Diamonds, Hearts, Spades]) == m.diamonds + (m.hearts + m.spades);
    assert SUITS[1..] == [Diamonds, Hearts, Spades];
  }

  function Reverse<E>(s: seq<E>): (r: seq<E>)
    ensures |r| == |s|
  {
    if s == [] then [] else Reverse(s[1..]) + [s[0]]
  }

  /** The reverse of a concatenation is the concatenation of the reverses, the other way round. */
  lemma {:induction false} ReverseConcat<E>(a: seq<E>, b: seq<E>)
    ensures Reverse(a + b) == Reverse(b) + Reverse(a)
  {
    if a == [] {
      assert a + b == b;
    } else {
      assert (a + b)[1..] == a[1..] + b;
      ReverseConcat(a[1..], b);
    }
  }

  /** `into_iter().rev()`: `next_back` of the chain takes the spades from the back first, then
      the hearts, diamonds and clubs. */
  function IntoIterRev<E>(m: SuitMap<seq<E>>): seq<E>
    reads m
  {
    Reverse(m.spades) + (Reverse(m.hearts) + (Reverse(m.diamonds) + Reverse(m.clubs)))
  }

  /** Iterating backwards yields exactly the reverse of iterating forwards. */
  lemma {:induction false} RevIsReverse<E>(m: SuitMap<seq<E>>)
    ensures IntoIterRev(m) == Reverse(IntoIter(m))
  {
    var rs, rh, rd, rc := Reverse(m.spades), Reverse(m.hearts), Reverse(m.diamonds), Reverse(m.clubs);
    ReverseConcat(m.hearts, m.spades);
    ReverseConcat(m.diamonds, m.hearts + m.spades);
    ReverseConcat(m.clubs, m.diamonds + (m.hearts + m.spades));
    Regroup(rs, rh, rd, rc);
  }

  /** Concatenation of four sequences, grouped from the left or from the right. */
  lemma Regroup<E>(a: seq<E>, b: seq<E>, c: seq<E>, d: seq<E>)
    ensures ((a + b) + c) + d == a + (b + (c + d))
  {
  }

  /** The documented hand: spades 2 5 6 9 A, hearts 3 4 9 Q A, diamonds 6 9 and the jack of
      clubs. */
  ghost predicate ExampleHand(m: SuitMap<seq<Cards.Card>>)
    reads m
  {
    m.spades == [Cards.TWO_SPADES, Cards.FIVE_SPADES, Cards.SIX_SPADES, Cards.NINE_SPADES, Cards.ACE_SPADES] &&
    m.hearts == [Cards.THREE_HEARTS, Cards.FOUR_HEARTS, Cards.NINE_HEARTS, Cards.QUEEN_HEARTS, Cards.ACE_HEARTS] &&
    m.diamonds == [Cards.SIX_DIAMONDS, Cards.NINE_DIAMONDS] && m.clubs == [Cards.JACK_CLUBS]
  }

  /** The documented example iterates from the jack of clubs up to the ace of spades. */
  lemma IterationExample(m: SuitMap<seq<Cards.Card>>)
    requires ExampleHand(m)
    ensures IntoIter(m) == [Cards.JACK_CLUBS, Cards.SIX_DIAMONDS, Cards.NINE_DIAMONDS,
                            Cards.THREE_HEARTS, Cards.FOUR_HEARTS, Cards.NINE_HEARTS, Cards.QUEEN_HEARTS, Cards.ACE_HEARTS,
                            Cards.TWO_SPADES, Cards.FIVE_SPADES, Cards.SIX_SPADES, Cards.NINE_SPADES, Cards.ACE_SPADES]
  {
  }

  /** Backwards, the documented example iterates from the ace of spades down to the jack of
      clubs. */
  lemma RevIterationExample(m: SuitMap<seq<Cards.Card>>)
    requires ExampleHand(m)
    ensures IntoIterRev(m) == [Cards.ACE_SPADES, Cards.NINE_SPADES, Cards.SIX_SPADES, Cards.FIVE_SPADES, Cards.TWO_SPADES,
                               Cards.ACE_HEARTS, Cards.QUEEN_HEARTS, Cards.NINE_HEARTS, Cards.FOUR_HEARTS, Cards.THREE_HEARTS,
                               Cards.NINE_DIAMONDS, Cards.SIX_DIAMONDS, Cards.JACK_CLUBS]
  {
    ReverseFive(m.spades);
    ReverseFive(m.hearts);
    ReverseTwo(m.diamonds);
    assert Reverse(m.clubs) == m.clubs by {
      assert m.clubs[1..] == [];
    }
  }

  /** The `i`-th element of the reverse is the `i`-th from the end. */
  lemma {:induction false} ReverseAt<E>(s: seq<E>, i: nat)
    requires i < |s|
    ensures Reverse(s)[i] == s[|s| - 1 - i]
  {
    if i < |s| - 1 {
      ReverseAt(s[1..], i);
    }
  }

  /** The reverse of two elements. */
  lemma ReverseTwo<E>(s: seq<E>)
    requires |s| == 2
    ensures Reverse(s) == [s[1], s[0]]
  {
    ReverseAt(s, 0);
    ReverseAt(s, 1);
  }

  /** The reverse of five elements. */
  lemma ReverseFive<E>(s: seq<E>)
    requires |s| == 5
    ensures Reverse(s) == [s[4], s[3], s[2], s[1], s[0]]
  {
    forall i | 0 <= i < 5
      ensures Reverse(s)[i] == s[4 - i]
    {
      ReverseAt(s, i);
    }
  }
}
