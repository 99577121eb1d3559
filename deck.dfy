/**
 * A player's deck: the atlas (sites), the spellbook (spells), the hand, the
 * cemetery and the library that cards are drawn from. The library is a list
 * whose LAST element is the top card; shuffling is any reordering.
 */
module Decks {
  import Seqs

  /** A deck card as the deck sees it: an identity and its card type ("Site", "Magic", ...). */
  datatype DeckCard = DeckCard(id: nat, cardType: string)

  predicate IsSite(c: DeckCard) {
    c.cardType == "Site"
  }

  /** The card types the constructor files into the spellbook. */
  predicate IsSpell(c: DeckCard) {
    c.cardType in ["Magic", "Aura", "Artifact"]
  }

  /** The card types the constructor files into the library: everything that is not a site. */
  predicate IsNonSite(c: DeckCard) {
    c.cardType !in ["Site"]
  }

  /** `s` back to front. */
  function Reversed<T>(s: seq<T>): (r: seq<T>)
    ensures |r| == |s|
  {
    if s == [] then []
    else
      assert s == s[..|s| - 1] + [s[|s| - 1]];
      [s[|s| - 1]] + Reversed(s[..|s| - 1])
  }

  /** Reversing keeps every element, as often as it occurs. */
  lemma {:induction false} ReversedMultiset<T>(s: seq<T>)
    ensures multiset(Reversed(s)) == multiset(s)
  {
    if s != [] {
      ReversedMultiset(s[..|s| - 1]);
      assert s == s[..|s| - 1] + [s[|s| - 1]];
    }
  }

  /** Position k of the reversal holds position |s| - 1 - k of the original. */
  lemma {:induction false} ReversedAt<T>(s: seq<T>, k: int)
    requires 0 <= k < |s|
    ensures Reversed(s)[k] == s[|s| - 1 - k]
  {
    if k > 0 {
      ReversedAt(s[..|s| - 1], k - 1);
    }
  }

  // ---------------------------------------------------------------------------
  // Drawing, as a function of the zones it touches

  /** The two zones drawing touches. */
  datatype Piles = Piles(library: seq<DeckCard>, hand: seq<DeckCard>)

  /** One pass of the draw loop: the top (last) library card moves to the end of the hand; nothing happens on an empty library. */
  function DrawOne(p: Piles): Piles {
    if p.library == [] then p
    else Piles(p.library[..|p.library| - 1], p.hand + [p.library[|p.library| - 1]])
  }

  /** One pass moves the top card, if any, to the end of the hand, and no card is created or lost. */
  lemma DrawOneMoves(p: Piles)
    ensures multiset(DrawOne(p).library) + multiset(DrawOne(p).hand) == multiset(p.library) + multiset(p.hand)
    ensures p.library == [] ==> DrawOne(p) == p
    ensures p.library != [] ==>
      DrawOne(p).library + [DrawOne(p).hand[|DrawOne(p).hand| - 1]] == p.library &&
      DrawOne(p).hand[..|p.hand|] == p.hand && |DrawOne(p).hand| == |p.hand| + 1
  {
    if p.library != [] {
      assert p.library == p.library[..|p.library| - 1] + [p.library[|p.library| - 1]];
    }
  }

  /** The zones after `n` passes of the draw loop; a non-positive `n` draws nothing. */
  function Drawn(p: Piles, n: int): Piles
    decreases n
  {
    if n <= 0 then p else Drawn(DrawOne(p), n - 1)
  }

  /** How many cards `n` passes of the draw loop actually move. */
  function DrawCount(library: seq<DeckCard>, n: int): (k: nat)
    ensures k <= |library|
    ensures n <= 0 ==> k == 0
    ensures n > 0 ==> k == Seqs.Min(n, |library|)
  {
    if n <= 0 then 0 else Seqs.Min(n, |library|)
  }

  /** The zones once the top `k` cards have moved to the hand, top card first. */
  function TakeTop(p: Piles, k: nat): Piles
    requires k <= |p.library|
  {
    Piles(p.library[..|p.library| - k], p.hand + Reversed(p.library[|p.library| - k..]))
  }

  /** Reversing `s` with `x` appended puts `x` first. */
  lemma ReversedSnoc<T>(s: seq<T>, x: T)
    ensures Reversed(s + [x]) == [x] + Reversed(s)
  {
    var t := s + [x];
    assert t[..|t| - 1] == s;
  }

  /** Moving the last of the top k elements first, then the other k - 1, is moving all k at once. */
  lemma TakeLastThenRest<T>(lib: seq<T>, hand: seq<T>, k: nat)
    requires 1 <= k <= |lib|
    ensures var rest, j := lib[..|lib| - 1], |lib| - k;
      rest[..j] == lib[..j] && (hand + [lib[|lib| - 1]]) + Reversed(rest[j..]) == hand + Reversed(lib[j..])
  {
    var top := lib[|lib| - 1];
    var rest := lib[..|lib| - 1];
    var j := |lib| - k;
    assert lib[j..] == rest[j..] + [top];
    ReversedSnoc(rest[j..], top);
  }

  /** Taking the top k cards is taking the top card and then k - 1 more. */
  lemma TakeTopStep(p: Piles, k: nat)
    requires 1 <= k <= |p.library|
    ensures TakeTop(DrawOne(p), k - 1) == TakeTop(p, k)
  {
    TakeLastThenRest(p.library, p.hand, k);
  }

  /**
   * Drawing `n` moves the top k = min(n, |library|) cards: the library keeps
   * its bottom part, and the hand gains the moved cards in the order they were
   * taken, top card first.
   */
  lemma {:induction false} DrawnClosedForm(p: Piles, n: int)
    ensures Drawn(p, n) == TakeTop(p, DrawCount(p.library, n))
    decreases n
  {
    if n <= 0 {
      TakeNone(p);
    } else if p.library == [] {
      assert Drawn(p, n) == Drawn(p, n - 1);
      DrawnClosedForm(p, n - 1);
    } else {
      var k := DrawCount(p.library, n);
      assert Drawn(p, n) == Drawn(DrawOne(p), n - 1);
      DrawnClosedForm(DrawOne(p), n - 1);
      DrawCountStep(p, n);
      TakeTopStep(p, k);
    }
  }

  /** After one pass on a non-empty library, the remaining passes move one card fewer. */
  lemma DrawCountStep(p: Piles, n: int)
    requires n > 0 && p.library != []
    ensures DrawCount(DrawOne(p).library, n - 1) == DrawCount(p.library, n) - 1
  {
    assert |DrawOne(p).library| == |p.library| - 1;
  }

  /** Taking no cards leaves both zones as they are. */
  lemma TakeNone(p: Piles)
    ensures TakeTop(p, 0) == p
  {
    assert p.library[|p.library|..] == [];
    assert p.library[..|p.library|] == p.library;
    assert p.hand + Reversed([]) == p.hand;
  }

  /** Drawing never creates or destroys a card: the library and hand together keep their multiset. */
  lemma DrawnConserves(p: Piles, n: int)
    ensures multiset(Drawn(p, n).library) + multiset(Drawn(p, n).hand) == multiset(p.library) + multiset(p.hand)
    ensures |Drawn(p, n).hand| == |p.hand| + DrawCount(p.library, n)
  {
    var j := |p.library| - DrawCount(p.library, n);
    DrawnClosedForm(p, n);
    assert Drawn(p, n).library == p.library[..j] && Drawn(p, n).hand == p.hand + Reversed(p.library[j..]);
    MoveKeepsCards(p.library, p.hand, j);
  }

  /** Moving the cards above position j to the hand, reversed, neither adds nor loses a card. */
  lemma MoveKeepsCards<T>(lib: seq<T>, hand: seq<T>, j: nat)
    requires j <= |lib|
    ensures multiset(lib[..j]) + multiset(hand + Reversed(lib[j..])) == multiset(lib) + multiset(hand)
  {
    ReversedMultiset(lib[j..]);
    assert lib == lib[..j] + lib[j..];
  }

  /** Drawing from an empty library is a silent no-op, however many cards are asked for. */
  lemma DrawnFromEmpty(hand: seq<DeckCard>, n: int)
    ensures Drawn(Piles([], hand), n) == Piles([], hand)
  {
    DrawnClosedForm(Piles([], hand), n);
  }

  /** Drawing at least the whole library empties it into the hand, top card first. */
  lemma DrawnAll(p: Piles, n: int)
    requires n >= |p.library|
    ensures Drawn(p, n) == Piles([], p.hand + Reversed(p.library))
  {
    DrawnClosedForm(p, n);
    assert p.library[|p.library| - |p.library|..] == p.library;
  }

  // ---------------------------------------------------------------------------
  // The constructor's zones

  /** No spell type is "Site". */
  lemma SpellIsNonSite(c: DeckCard)
    requires IsSpell(c)
    ensures IsNonSite(c)
  {
    if c.cardType == "Aura" {
      assert c.cardType[0] != "Site"[0];
    } else {
      assert |c.cardType| != |"Site"|;
    }
  }

  /** Every spell card lands in the library too: spells are never sites. */
  lemma SpellbookWithinLibrary(cards: seq<DeckCard>)
    ensures multiset(Seqs.Filter(cards, IsSpell)) <= multiset(Seqs.Filter(cards, IsNonSite))
  {
    var spells := Seqs.Filter(cards, IsSpell);
    var others := Seqs.Filter(cards, IsNonSite);
    forall x
      ensures multiset(spells)[x] <= multiset(others)[x]
    {
      Seqs.FilterCount(cards, IsSpell, x);
      Seqs.FilterCount(cards, IsNonSite, x);
      if IsSpell(x) {
        SpellIsNonSite(x);
      }
    }
  }

  /** The atlas and the library between them hold every card exactly once. */
  lemma AtlasAndLibraryPartition(cards: seq<DeckCard>)
    ensures multiset(Seqs.Filter(cards, IsSite)) + multiset(Seqs.Filter(cards, IsNonSite)) == multiset(cards)
  {
    var sites := Seqs.Filter(cards, IsSite);
    var others := Seqs.Filter(cards, IsNonSite);
    forall x
      ensures multiset(sites)[x] + multiset(others)[x] == multiset(cards)[x]
    {
      Seqs.FilterCount(cards, IsSite, x);
      Seqs.FilterCount(cards, IsNonSite, x);
    }
    assert multiset(sites) + multiset(others) == multiset(cards);
  }

  /** Some reordering of `s`: the model of `random.shuffle`, which may pick any permutation. */
  method Shuffled(s: seq<DeckCard>) returns (r: seq<DeckCard>)
    ensures multiset(r) == multiset(s)
  {
    r :| multiset(r) == multiset(s);
  }

  class Deck {
    var atlas: seq<DeckCard>
    var spellbook: seq<DeckCard>
    var hand: seq<DeckCard>
    var cemetery: seq<DeckCard>
    var library: seq<DeckCard>

    /** Sites to the atlas and spells to the spellbook, in input order; every non-site, shuffled, to the library. */
    constructor (cards: seq<DeckCard>)
      ensures atlas == Seqs.Filter(cards, IsSite)
      ensures spellbook == Seqs.Filter(cards, IsSpell)
      ensures hand == [] && cemetery == []
      ensures multiset(library) == multiset(Seqs.Filter(cards, IsNonSite))
    {
      var shuffled := Shuffled(Seqs.Filter(cards, IsNonSite));
      atlas := Seqs.Filter(cards, IsSite);
      spellbook := Seqs.Filter(cards, IsSpell);
      hand := [];
      cemetery := [];
      library := shuffled;
    }

    /** Draw `n` cards (one by default), one pass at a time, each the current top of the library. */
    method Draw(n: int := 1)
      modifies this
      ensures Piles(library, hand) == Drawn(Piles(old(library), old(hand)), n)
      ensures atlas == old(atlas) && spellbook == old(spellbook) && cemetery == old(cemetery)
    {
      var i := 0;
      while i < n
        invariant n >= 0 ==> i <= n
        invariant Drawn(Piles(library, hand), n - i) == Drawn(Piles(old(library), old(hand)), n)
        invariant atlas == old(atlas) && spellbook == old(spellbook) && cemetery == old(cemetery)
      {
        if library != [] {
          hand := hand + [library[|library| - 1]];
          library := library[..|library| - 1];
        }
        i := i + 1;
      }
    }

    /** Put the hand back, shuffle, and draw seven. */
    method Mulligan()
      modifies this
      ensures |hand| == Seqs.Min(7, |old(library)| + |old(hand)|)
      ensures multiset(library) + multiset(hand) == multiset(old(library)) + multiset(old(hand))
      ensures atlas == old(atlas) && spellbook == old(spellbook) && cemetery == old(cemetery)
    {
      library := library + hand;
      hand := [];
      library := Shuffled(library);
      ghost var pool := library;
      Draw(7);
      DrawnConserves(Piles(pool, []), 7);
    }

    /** The library cards that satisfy `condition`, in library order. */
    function Search(condition: DeckCard -> bool): (r: seq<DeckCard>)
      reads this
      ensures |r| <= |library|
      ensures forall c | c in r :: c in library && condition(c)
      ensures forall c | c in library :: c in r <==> condition(c)
      ensures forall c | c in library && condition(c) :: multiset(r)[c] == multiset(library)[c]
      ensures r == Seqs.Filter(library, condition)
    {
      Seqs.FilterCounts(library, condition);
      Seqs.Filter(library, condition)
    }

    /** Put `card` into the library and shuffle it in. */
    method ReturnToDeck(card: DeckCard)
      modifies this
      ensures multiset(library) == multiset(old(library)) + multiset{card}
      ensures atlas == old(atlas) && spellbook == old(spellbook) && hand == old(hand) && cemetery == old(cemetery)
    {
      library := library + [card];
      library := Shuffled(library);
    }

    /** Reorder the library. */
    method Shuffle()
      modifies this
      ensures multiset(library) == multiset(old(library))
      ensures atlas == old(atlas) && spellbook == old(spellbook) && hand == old(hand) && cemetery == old(cemetery)
    {
      library := Shuffled(library);
    }
  }
}
