/**
 * Playing cards as both engines define them: a suit and a rank from fixed lists, a display
 * string "<rank> of <suit>", and the 52-card deck built suit by suit.
 */
module Cards {
  import opened Wrappers
  import opened Seqs

  datatype Suit = Hearts | Diamonds | Clubs | Spades

  datatype Rank = Two | Three | Four | Five | Six | Seven | Eight | Nine | Ten | Jack | Queen | King | Ace

  datatype Card = Card(suit: Suit, rank: Rank)

  /** `Card.SUITS` and `Card.RANKS`: the accepted names, in deck order. */
  const SuitNames: seq<string> := ["Hearts", "Diamonds", "Clubs", "Spades"]
  const RankNames: seq<string> := ["2", "3", "4", "5", "6", "7", "8", "9", "10", "Jack", "Queen", "King", "Ace"]

  /** The same lists as typed values. */
  const Suits: seq<Suit> := [Hearts, Diamonds, Clubs, Spades]
  const Ranks: seq<Rank> := [Two, Three, Four, Five, Six, Seven, Eight, Nine, Ten, Jack, Queen, King, Ace]

  function SuitIndex(s: Suit): (i: nat)
    ensures i < |Suits| && Suits[i] == s
  {
    match s
    case Hearts => 0
    case Diamonds => 1
    case Clubs => 2
    case Spades => 3
  }

  function RankIndex(r: Rank): (i: nat)
    ensures i < |Ranks| && Ranks[i] == r
  {
    match r
    case Two => 0
    case Three => 1
    case Four => 2
    case Five => 3
    case Six => 4
    case Seven => 5
    case Eight => 6
    case Nine => 7
    case Ten => 8
    case Jack => 9
    case Queen => 10
    case King => 11
    case Ace => 12
  }

  /** Each list position holds a different value, so a value's index is unique. */
  lemma IndicesExact()
    ensures forall k :: 0 <= k < |Suits| ==> SuitIndex(Suits[k]) == k
    ensures forall k :: 0 <= k < |Ranks| ==> RankIndex(Ranks[k]) == k
  {
  }

  function SuitName(s: Suit): (r: string)
    ensures r == SuitNames[SuitIndex(s)]
  {
    match s
    case Hearts => "Hearts"
    case Diamonds => "Diamonds"
    case Clubs => "Clubs"
    case Spades => "Spades"
  }

  function RankName(r: Rank): (n: string)
    ensures n == RankNames[RankIndex(r)]
  {
    match r
    case Two => "2"
    case Three => "3"
    case Four => "4"
    case Five => "5"
    case Six => "6"
    case Seven => "7"
    case Eight => "8"
    case Nine => "9"
    case Ten => "10"
    case Jack => "Jack"
    case Queen => "Queen"
    case King => "King"
    case Ace => "Ace"
  }

  /** The suit a name in `Card.SUITS` stands for. */
  function ParseSuit(name: string): (r: Option<Suit>)
    ensures r.Some? <==> name in SuitNames
    ensures r.Some? ==> SuitName(r.value) == name
  {
    if name == "Hearts" then Some(Hearts)
    else if name == "Diamonds" then Some(Diamonds)
    else if name == "Clubs" then Some(Clubs)
    else if name == "Spades" then Some(Spades)
    else None
  }

  /** The rank a name in `Card.RANKS` stands for. */
  function ParseRank(name: string): (r: Option<Rank>)
    ensures r.Some? <==> name in RankNames
    ensures r.Some? ==> RankName(r.value) == name
  {
    if name == "2" then Some(Two)
    else if name == "3" then Some(Three)
    else if name == "4" then Some(Four)
    else if name == "5" then Some(Five)
    else if name == "6" then Some(Six)
    else if name == "7" then Some(Seven)
    else if name == "8" then Some(Eight)
    else if name == "9" then Some(Nine)
    else if name == "10" then Some(Ten)
    else if name == "Jack" then Some(Jack)
    else if name == "Queen" then Some(Queen)
    else if name == "King" then Some(King)
    else if name == "Ace" then Some(Ace)
    else None
  }

  /** The error `Card.__init__` raises, checked suit first. */
  datatype CardError = InvalidSuit(suit: string) | InvalidRank(rank: string)

  /** The server's `Card(suit, rank)`: a card exactly when both names are in the lists. */
  function NewCard(suit: string, rank: string): (r: Result<Card, CardError>)
    ensures r.Ok? <==> suit in SuitNames && rank in RankNames
    ensures suit !in SuitNames ==> r == Err(InvalidSuit(suit))
    ensures suit in SuitNames && rank !in RankNames ==> r == Err(InvalidRank(rank))
    ensures r.Ok? ==> SuitName(r.value.suit) == suit && RankName(r.value.rank) == rank
  {
    match ParseSuit(suit)
    case None => Err(InvalidSuit(suit))
    case Some(s) =>
      match ParseRank(rank)
      case None => Err(InvalidRank(rank))
      case Some(k) => Ok(Card(s, k))
  }

  /** `str(card)`: "<rank> of <suit>". */
  function CardString(c: Card): string {
    RankName(c.rank) + " of " + SuitName(c.suit)
  }

  /** Reads a display string back into a card; the inverse of CardString. */
  function ParseCard(s: string): Option<Card> {
    match IndexOf(s, ' ')
    case None => None
    case Some(i) =>
      if i + 4 <= |s| && s[i..i + 4] == " of " then
        match NewCard(s[i + 4..], s[..i])
        case Ok(c) => Some(c)
        case Err(_) => None
      else None
  }

  /** Printed names parse back to the value they print. */
  lemma NamesParse(c: Card)
    ensures ParseSuit(SuitName(c.suit)) == Some(c.suit)
    ensures ParseRank(RankName(c.rank)) == Some(c.rank)
    ensures ' ' !in RankName(c.rank)
  {
  }

  /** Reading back a display string gives the card it prints. */
  lemma ParseCardString(c: Card)
    ensures ParseCard(CardString(c)) == Some(c)
  {
    NamesParse(c);
    ParseJoined(RankName(c.rank), SuitName(c.suit));
  }

  /** A rank name without spaces, " of " and a suit name are read back as that pair of names. */
  lemma ParseJoined(rk: string, st: string)
    requires ' ' !in rk
    ensures ParseCard(rk + " of " + st) == match NewCard(st, rk) case Ok(c) => Some(c) case Err(_) => None
  {
    var s := rk + " of " + st;
    assert s[..|rk|] == rk;
    IndexOfAt(s, ' ', |rk|);
    assert s[|rk|..|rk| + 4] == " of ";
    assert s[|rk| + 4..] == st;
  }

  /** Distinct cards print differently, so a display string names at most one card. */
  lemma CardStringInjective(a: Card, b: Card)
    ensures CardString(a) == CardString(b) ==> a == b
  {
    ParseCardString(a);
    ParseCardString(b);
  }

  /** `Deck.__init__` before shuffling: every suit in turn, each with every rank in turn. */
  function FullDeck(): seq<Card> {
    seq(|Suits| * |Ranks|, i requires 0 <= i < |Suits| * |Ranks| => Card(Suits[i / |Ranks|], Ranks[i % |Ranks|]))
  }

  lemma DeckPosition(c: Card)
    ensures 13 * SuitIndex(c.suit) + RankIndex(c.rank) < |FullDeck()|
    ensures FullDeck()[13 * SuitIndex(c.suit) + RankIndex(c.rank)] == c
  {
    var a, b := SuitIndex(c.suit), RankIndex(c.rank);
    assert (13 * a + b) / 13 == a && (13 * a + b) % 13 == b;
  }

  /** The built deck has 52 cards and every suit-rank pair exactly once. */
  lemma FullDeckExact()
    ensures |FullDeck()| == 52
    ensures NoDup(FullDeck())
    ensures forall c: Card :: multiset(FullDeck())[c] == 1
  {
    var d := FullDeck();
    forall i | 0 <= i < |d| ensures 13 * SuitIndex(d[i].suit) + RankIndex(d[i].rank) == i {
      FullDeckIndex(i);
    }
    assert NoDup(d);
    forall c: Card ensures multiset(d)[c] == 1 {
      DeckPosition(c);
      NoDupCount(d, c);
    }
  }

  /** The card at position i of the built deck is the card whose position is i. */
  lemma FullDeckIndex(i: nat)
    requires i < 52
    ensures 13 * SuitIndex(FullDeck()[i].suit) + RankIndex(FullDeck()[i].rank) == i
  {
    IndicesExact();
    var d := FullDeck();
    assert SuitIndex(d[i].suit) == i / 13 && RankIndex(d[i].rank) == i % 13;
  }

  /** A shuffled deck: the order `random.shuffle` left the 52 built cards in. */
  ghost predicate IsShuffledDeck(s: seq<Card>) {
    multiset(s) == multiset(FullDeck())
  }

  /** A shuffled deck also has 52 cards and every card exactly once. */
  lemma ShuffledDeckExact(s: seq<Card>)
    requires IsShuffledDeck(s)
    ensures |s| == 52
    ensures forall c: Card :: multiset(s)[c] == 1
  {
    FullDeckExact();
    assert |multiset(s)| == |multiset(FullDeck())|;
  }

  /** `deal_card`: the last card and the remaining deck, or None when the deck is empty. */
  function Pop(cards: seq<Card>): (r: (Option<Card>, seq<Card>))
    ensures r.0.None? <==> cards == []
    ensures r.0.None? ==> r.1 == cards
    ensures r.0.Some? ==> r.1 + [r.0.value] == cards
  {
    if cards == [] then (None, cards) else (Some(cards[|cards| - 1]), cards[..|cards| - 1])
  }
}
