/**
 * The older engine of the game template: the registry is a dictionary whose insertion order is
 * the turn order, a start deals five cards to everyone without checking whether the deck still
 * has any, a discard passes the turn at once and a draw never does. GameState is the engine's
 * state as a value and the After* functions are its transitions; class Game keeps the same state
 * in fields and its methods are proved to perform exactly those transitions.
 */
module TemplateGame {
  import opened Wrappers
  import opened Seqs
  import opened Cards
  import opened Arith

  /** A player's identity, the client's address; opaque here. */
  type PlayerId = int

  /** `min_players`. */
  const MinPlayers: nat := 2

  /** The number of dealing rounds of `start_game`. */
  const StartingHand: nat := 5

  /** The default of `add_player(name="Player")`. */
  const DefaultName: string := "Player"

  /** The two actions the engine knows. */
  const DrawAction: string := "draw_card"
  const DiscardAction: string := "discard_card"

  /** A hand or pile entry: what `deal_card` returned, a card or, from an empty deck, None. */
  type Slot = Option<Card>

  /** `str(x)` of an entry: the card's display string, or "None". */
  function SlotString(x: Slot): string {
    match x
    case Some(c) => CardString(c)
    case None => "None"
  }

  /** An entry's string reads back as the entry: a card as that card, "None" as no card. */
  lemma SlotStringParse(x: Slot)
    ensures ParseCard(SlotString(x)) == x
  {
    if x.Some? {
      ParseCardString(x.value);
    } else {
      assert SlotString(x)[1] == 'o';
      assert ' ' !in SlotString(x);
    }
  }

  /** `[str(card) for card in hand]`. */
  function SlotStrings(hand: seq<Slot>): (r: seq<string>)
    ensures |r| == |hand|
    ensures forall i :: 0 <= i < |hand| ==> r[i] == SlotString(hand[i])
  {
    seq(|hand|, i requires 0 <= i < |hand| => SlotString(hand[i]))
  }

  datatype Player = Player(name: string, id: PlayerId, hand: seq<Slot>)

  /** `Player.add_card`: appends whatever it is given, None included. */
  function AddCard(p: Player, x: Slot): (r: Player)
    ensures r.name == p.name && r.id == p.id
    ensures |r.hand| == |p.hand| + 1
    ensures r.hand[..|p.hand|] == p.hand && r.hand[|p.hand|] == x
  {
    p.(hand := p.hand + [x])
  }

  /** The template's `Deck`: an ordered pile whose end is the top. */
  class Deck {
    var cards: seq<Card>

    /** A fresh deck; `shuffled` is the order `random.shuffle` left the 52 built cards in. */
    constructor (shuffled: seq<Card>)
      requires IsShuffledDeck(shuffled)
      ensures cards == shuffled
    {
      cards := shuffled;
    }

    /** `shuffle`: `shuffled` is the order `random.shuffle` leaves the current cards in. */
    method Shuffle(shuffled: seq<Card>)
      requires multiset(shuffled) == multiset(cards)
      modifies this
      ensures cards == shuffled
    {
      cards := shuffled;
    }

    /** `deal_card`: pops the top card, or returns None and leaves an empty deck alone. */
    method DealCard() returns (card: Slot)
      modifies this
      ensures (card, cards) == Pop(old(cards))
    {
      if cards == [] {
        card := None;
      } else {
        card := Some(cards[|cards| - 1]);
        cards := cards[..|cards| - 1];
      }
    }
  }

  /**
   * The fields of `Game` other than the constant `min_players`; `keys` is the insertion order
   * of the `players` dictionary, which `list(self.players.keys())` reads.
   */
  datatype GameState = GameState(
    players: map<PlayerId, Player>,
    keys: seq<PlayerId>,
    deck: seq<Card>,
    discardPile: seq<Slot>,
    currentTurn: Option<PlayerId>,
    started: bool)

  /**
   * What every operation keeps: the key list names each registered player once, players know
   * their ids, a turn is held exactly when the game is started, and then by one of at least
   * two players.
   */
  ghost predicate Valid(s: GameState) {
    && (forall id :: id in s.players ==> id in s.keys)
    && (forall id :: id in s.keys ==> id in s.players)
    && NoDup(s.keys)
    && |s.keys| == |s.players|
    && (forall id :: id in s.players ==> s.players[id].id == id)
    && (s.currentTurn.Some? <==> s.started)
    && (s.started ==> |s.players| >= MinPlayers && s.currentTurn.value in s.players)
  }

  /** A registered player is in the key list. */
  lemma InKeys(s: GameState, id: PlayerId)
    requires Valid(s) && id in s.players
    ensures id in s.keys
  {
  }

  /** `Game()`: no players, a freshly shuffled deck, nothing discarded, not started. */
  function Initial(shuffled: seq<Card>): GameState {
    GameState(map[], [], shuffled, [], None, false)
  }

  /** A new game keeps the invariant and holds exactly one deck's cards. */
  lemma InitialSpec(shuffled: seq<Card>)
    requires IsShuffledDeck(shuffled)
    ensures Valid(Initial(shuffled)) && Conserved(Initial(shuffled))
    ensures |Initial(shuffled).deck| == 52
  {
    ShuffledDeckExact(shuffled);
  }

  // ---------------------------------------------------------------- card accounting

  /** The cards among the entries, Nones skipped. */
  function Present(xs: seq<Slot>): multiset<Card> {
    if xs == [] then multiset{}
    else Present(xs[..|xs| - 1]) + (if xs[|xs| - 1].Some? then multiset{xs[|xs| - 1].value} else multiset{})
  }

  lemma {:induction false} PresentConcat(a: seq<Slot>, b: seq<Slot>)
    ensures Present(a + b) == Present(a) + Present(b)
    decreases |b|
  {
    if b == [] {
      assert a + b == a;
    } else {
      assert (a + b)[..|a + b| - 1] == a + b[..|b| - 1];
      PresentConcat(a, b[..|b| - 1]);
    }
  }

  lemma PresentMid(a: seq<Slot>, x: Slot, b: seq<Slot>)
    ensures Present(a + b) + Present([x]) == Present(a + [x] + b)
  {
    PresentConcat(a + [x], b);
    PresentConcat(a, [x]);
    PresentConcat(a, b);
  }

  /** The entry at position i is what deleting it takes out of the present cards. */
  lemma PresentDelete(xs: seq<Slot>, i: nat)
    requires i < |xs|
    ensures Present(xs[..i] + xs[i + 1..]) + Present([xs[i]]) == Present(xs)
  {
    SplitAt(xs, i);
    PresentMid(xs[..i], xs[i], xs[i + 1..]);
  }

  /** The cards in the hands of the players listed in `ids`, as one multiset. */
  function HandCards(ps: map<PlayerId, Player>, ids: seq<PlayerId>): multiset<Card> {
    if ids == [] then multiset{}
    else (if ids[0] in ps then Present(ps[ids[0]].hand) else multiset{}) + HandCards(ps, ids[1..])
  }

  /** Every card the game holds: deck, hands and discard pile. */
  function AllCards(s: GameState): multiset<Card> {
    multiset(s.deck) + HandCards(s.players, s.keys) + Present(s.discardPile)
  }

  /** The conservation invariant: the game holds exactly the 52 cards of one deck. */
  ghost predicate Conserved(s: GameState) {
    AllCards(s) == multiset(FullDeck())
  }

  lemma {:induction false} HandCardsConcat(ps: map<PlayerId, Player>, a: seq<PlayerId>, b: seq<PlayerId>)
    ensures HandCards(ps, a + b) == HandCards(ps, a) + HandCards(ps, b)
  {
    if a != [] {
      assert (a + b)[0] == a[0];
      assert (a + b)[1..] == a[1..] + b;
      HandCardsConcat(ps, a[1..], b);
    } else {
      assert a + b == b;
    }
  }

  /** HandCards only looks at the hands of the listed players. */
  lemma {:induction false} HandCardsFrame(ps1: map<PlayerId, Player>, ps2: map<PlayerId, Player>, ids: seq<PlayerId>)
    requires forall id :: id in ids ==> (id in ps1 <==> id in ps2)
    requires forall id :: id in ids && id in ps1 ==> ps1[id].hand == ps2[id].hand
    ensures HandCards(ps1, ids) == HandCards(ps2, ids)
  {
    if ids != [] {
      var h := ids[0];
      assert h in ids;
      assert h in ps1 <==> h in ps2;
      if h in ps1 {
        assert ps1[h].hand == ps2[h].hand;
      }
      assert forall id :: id in ids[1..] ==> id in ids;
      HandCardsFrame(ps1, ps2, ids[1..]);
    }
  }

  /** Replacing one listed player's hand changes HandCards by exactly the two hands. */
  lemma HandCardsUpdate(ps: map<PlayerId, Player>, ids: seq<PlayerId>, pid: PlayerId, p: Player)
    requires NoDup(ids) && pid in ids && pid in ps
    ensures HandCards(ps[pid := p], ids) + Present(ps[pid].hand) == HandCards(ps, ids) + Present(p.hand)
  {
    var i := IndexOf(ids, pid).value;
    SplitAt(ids, i);
    NoDupSplit(ids, i);
    HandCardsUpdateAt(ps, ids[..i], pid, ids[i + 1..], p);
  }

  /** The same, with the key list cut around the one occurrence of `pid`. */
  lemma HandCardsUpdateAt(ps: map<PlayerId, Player>, pre: seq<PlayerId>, pid: PlayerId, post: seq<PlayerId>, p: Player)
    requires pid !in pre && pid !in post && pid in ps
    ensures HandCards(ps[pid := p], pre + [pid] + post) + Present(ps[pid].hand) == HandCards(ps, pre + [pid] + post) + Present(p.hand)
  {
    var ps' := ps[pid := p];
    HandCardsConcat(ps, pre + [pid], post);
    HandCardsConcat(ps, pre, [pid]);
    HandCardsConcat(ps', pre + [pid], post);
    HandCardsConcat(ps', pre, [pid]);
    HandCardsFrame(ps, ps', pre);
    HandCardsFrame(ps, ps', post);
  }

  /** A new player appended to the key list brings exactly their own hand. */
  lemma HandCardsAppendNew(ps: map<PlayerId, Player>, ids: seq<PlayerId>, pid: PlayerId, p: Player)
    requires pid !in ids
    ensures HandCards(ps[pid := p], ids + [pid]) == HandCards(ps, ids) + Present(p.hand)
  {
    HandCardsConcat(ps[pid := p], ids, [pid]);
    HandCardsFrame(ps, ps[pid := p], ids);
  }

  /** The cards of one entry. */
  lemma PresentSingle(x: Slot)
    ensures Present([x]) == if x.Some? then multiset{x.value} else multiset{}
  {
    assert [x][..0] == [];
  }

  /** Appending an entry to a listed player's hand adds exactly that entry's card, if any. */
  lemma HandCardsAppendEntry(ps: map<PlayerId, Player>, keys: seq<PlayerId>, pid: PlayerId, x: Slot)
    requires NoDup(keys) && pid in keys && pid in ps
    ensures HandCards(ps[pid := AddCard(ps[pid], x)], keys) == HandCards(ps, keys) + Present([x])
  {
    var p := ps[pid];
    var p' := AddCard(p, x);
    HandCardsUpdate(ps, keys, pid, p');
    PresentConcat(p.hand, [x]);
    var before := HandCards(ps, keys);
    var after := HandCards(ps[pid := p'], keys);
    assert after + Present(p.hand) == (before + Present([x])) + Present(p.hand);
    MultisetCancel(after, before + Present([x]), Present(p.hand));
  }

  // ---------------------------------------------------------------- registry

  /** `add_player`: registers a new id, under the given name, while the game is not started. */
  function AfterAddPlayer(s: GameState, id: PlayerId, name: string): (GameState, Option<Player>) {
    if !s.started && id !in s.players then
      var p := Player(name, id, []);
      (s.(players := s.players[id := p], keys := s.keys + [id]), Some(p))
    else (s, None)
  }

  /**
   * add_player succeeds exactly when the game is not started and the id is new; it then
   * registers an empty-handed player under the given name, last in the key order; otherwise
   * nothing changes. The invariant and the cards are kept.
   */
  lemma AddPlayerSpec(s: GameState, id: PlayerId, name: string)
    requires Valid(s)
    ensures var (s', p) := AfterAddPlayer(s, id, name);
      && (p.Some? <==> !s.started && id !in s.players)
      && (p.None? ==> s' == s)
      && (p.Some? ==> && s'.keys == s.keys + [id]
                      && s'.players == s.players[id := p.value]
                      && p.value == Player(name, id, [])
                      && s'.deck == s.deck && s'.discardPile == s.discardPile
                      && s'.currentTurn == None && !s'.started)
      && Valid(s')
      && AllCards(s') == AllCards(s)
  {
    if !s.started && id !in s.players {
      AddPlayerKeeps(s, id, AfterAddPlayer(s, id, name).1.value);
    }
  }

  /** Registering a new empty-handed player keeps the invariant and the cards. */
  lemma AddPlayerKeeps(s: GameState, id: PlayerId, p: Player)
    requires Valid(s) && !s.started && id !in s.players && p.id == id && p.hand == []
    ensures var s' := s.(players := s.players[id := p], keys := s.keys + [id]);
      Valid(s') && AllCards(s') == AllCards(s)
  {
    assert id !in s.keys;
    HandCardsAppendNew(s.players, s.keys, id, p);
    NoDupSnoc(s.keys, id);
  }

  // ---------------------------------------------------------------- dealing

  /** One unguarded `add_card(deal_card())` to `pid`: an empty deck deals None. */
  function DealTo(ps: map<PlayerId, Player>, deck: seq<Card>, pid: PlayerId): (r: (map<PlayerId, Player>, seq<Card>))
    requires pid in ps
    ensures r.0.Keys == ps.Keys
  {
    var (card, rest) := Pop(deck);
    (ps[pid := AddCard(ps[pid], card)], rest)
  }

  /** One dealing round: one entry to each of `ids`, in order. */
  function DealRound(ps: map<PlayerId, Player>, deck: seq<Card>, ids: seq<PlayerId>): (r: (map<PlayerId, Player>, seq<Card>))
    requires forall id :: id in ids ==> id in ps
    ensures r.0.Keys == ps.Keys
    decreases |ids|
  {
    if ids == [] then (ps, deck)
    else
      var prev := DealRound(ps, deck, ids[..|ids| - 1]);
      DealTo(prev.0, prev.1, ids[|ids| - 1])
  }

  /** `rounds` dealing rounds: one round, then the rest. */
  function DealRounds(ps: map<PlayerId, Player>, deck: seq<Card>, ids: seq<PlayerId>, rounds: nat): (r: (map<PlayerId, Player>, seq<Card>))
    requires forall id :: id in ids ==> id in ps
    ensures r.0.Keys == ps.Keys
    decreases rounds
  {
    if rounds == 0 then (ps, deck)
    else
      var first := DealRound(ps, deck, ids);
      DealRounds(first.0, first.1, ids, rounds - 1)
  }

  /** Dealing changes hands only: every player keeps their id and name. */
  lemma {:induction false} DealRoundKeeps(ps: map<PlayerId, Player>, deck: seq<Card>, ids: seq<PlayerId>)
    requires forall id :: id in ids ==> id in ps
    ensures var r := DealRound(ps, deck, ids);
      forall q :: q in ps ==> r.0[q].id == ps[q].id && r.0[q].name == ps[q].name
    decreases |ids|
  {
    if ids != [] {
      var init := ids[..|ids| - 1];
      assert forall id :: id in init ==> id in ids;
      DealRoundKeeps(ps, deck, init);
      assert ids[|ids| - 1] in ids;
    }
  }

  lemma {:induction false} DealRoundsKeeps(ps: map<PlayerId, Player>, deck: seq<Card>, ids: seq<PlayerId>, rounds: nat)
    requires forall id :: id in ids ==> id in ps
    ensures var r := DealRounds(ps, deck, ids, rounds);
      forall q :: q in ps ==> r.0[q].id == ps[q].id && r.0[q].name == ps[q].name
    decreases rounds
  {
    if rounds > 0 {
      DealRoundKeeps(ps, deck, ids);
      var first := DealRound(ps, deck, ids);
      DealRoundsKeeps(first.0, first.1, ids, rounds - 1);
      var r := DealRounds(ps, deck, ids, rounds);
      assert r == DealRounds(first.0, first.1, ids, rounds - 1);
      forall q | q in ps ensures r.0[q].id == ps[q].id && r.0[q].name == ps[q].name {
        assert q in first.0;
      }
    }
  }

  /** One deal moves the top card, if any, from the deck into a listed player's hand. */
  lemma DealToConserves(ps: map<PlayerId, Player>, deck: seq<Card>, pid: PlayerId, keys: seq<PlayerId>)
    requires NoDup(keys) && pid in ps && pid in keys
    ensures var r := DealTo(ps, deck, pid);
      multiset(r.1) + HandCards(r.0, keys) == multiset(deck) + HandCards(ps, keys)
  {
    var (card, rest) := Pop(deck);
    HandCardsAppendEntry(ps, keys, pid, card);
    PresentSingle(card);
    if card.Some? {
      assert deck == rest + [card.value];
    }
  }

  /** Dealing only moves cards from the deck into the hands; an empty deck deals nothing. */
  lemma {:induction false} DealRoundConserves(ps: map<PlayerId, Player>, deck: seq<Card>, ids: seq<PlayerId>, keys: seq<PlayerId>)
    requires NoDup(keys) && forall id :: id in ids ==> id in ps && id in keys
    ensures var r := DealRound(ps, deck, ids);
      multiset(r.1) + HandCards(r.0, keys) == multiset(deck) + HandCards(ps, keys)
    decreases |ids|
  {
    if ids != [] {
      var init := ids[..|ids| - 1];
      assert forall id :: id in init ==> id in ids;
      DealRoundConserves(ps, deck, init, keys);
      var prev := DealRound(ps, deck, init);
      var pid := ids[|ids| - 1];
      assert pid in ids;
      DealToConserves(prev.0, prev.1, pid, keys);
    }
  }

  lemma {:induction false} DealRoundsConserves(ps: map<PlayerId, Player>, deck: seq<Card>, keys: seq<PlayerId>, rounds: nat)
    requires NoDup(keys) && forall id :: id in keys ==> id in ps
    ensures var r := DealRounds(ps, deck, keys, rounds);
      multiset(r.1) + HandCards(r.0, keys) == multiset(deck) + HandCards(ps, keys)
    decreases rounds
  {
    if rounds > 0 {
      DealRoundConserves(ps, deck, keys, keys);
      var first := DealRound(ps, deck, keys);
      DealRoundsConserves(first.0, first.1, keys, rounds - 1);
    }
  }

  /** `a - b`, floored at zero: the deck left after `b` pops from `a` cards. */
  function Drop(a: nat, b: nat): nat {
    if a >= b then a - b else 0
  }

  /** The entry `deal_card` yields m pops from now: the (m+1)-th card from the top, or None. */
  function TopSlot(deck: seq<Card>, m: int): Slot {
    if 0 <= m < |deck| then Some(deck[|deck| - 1 - m]) else None
  }

  /** A round takes |ids| cards off the top, or all of them when fewer remain. */
  lemma {:induction false} DealRoundDeck(ps: map<PlayerId, Player>, deck: seq<Card>, ids: seq<PlayerId>)
    requires forall id :: id in ids ==> id in ps
    ensures DealRound(ps, deck, ids).1 == deck[..Drop(|deck|, |ids|)]
    decreases |ids|
  {
    if ids == [] {
      assert deck[..|deck|] == deck;
    } else {
      var init := ids[..|ids| - 1];
      assert forall id :: id in init ==> id in ids;
      DealRoundDeck(ps, deck, init);
      var m := Drop(|deck|, |init|);
      if m > 0 {
        assert deck[..m][..m - 1] == deck[..m - 1];
      }
    }
  }

  /** A round leaves players outside `ids` alone. */
  lemma {:induction false} DealRoundUntouched(ps: map<PlayerId, Player>, deck: seq<Card>, ids: seq<PlayerId>, q: PlayerId)
    requires q in ps && q !in ids && forall id :: id in ids ==> id in ps
    ensures DealRound(ps, deck, ids).0[q] == ps[q]
    decreases |ids|
  {
    if ids != [] {
      var init := ids[..|ids| - 1];
      assert forall id :: id in init ==> id in ids;
      assert ids[|ids| - 1] in ids;
      DealRoundUntouched(ps, deck, init, q);
    }
  }

  /** A round gives the j-th player the (j+1)-th card from the top, or None past the bottom. */
  lemma {:induction false} DealRoundHand(ps: map<PlayerId, Player>, deck: seq<Card>, ids: seq<PlayerId>, j: nat)
    requires NoDup(ids) && j < |ids| && forall id :: id in ids ==> id in ps
    ensures DealRound(ps, deck, ids).0[ids[j]].hand == ps[ids[j]].hand + [TopSlot(deck, j)]
    decreases |ids|
  {
    var m := |ids|;
    var init := ids[..m - 1];
    var pid := ids[m - 1];
    assert forall id :: id in init ==> id in ids;
    assert pid in ids;
    var prev := DealRound(ps, deck, init);
    if j == m - 1 {
      assert pid !in init;
      DealRoundUntouched(ps, deck, init, pid);
      DealRoundDeck(ps, deck, init);
      assert Pop(prev.1).0 == TopSlot(deck, j);
    } else {
      assert ids[j] == init[j] && ids[j] != pid;
      assert NoDup(init);
      DealRoundHand(ps, deck, init, j);
    }
  }

  /**
   * The entries the j-th of n players receives in k rounds dealt from `deck`: the (j+1)-th card
   * from the top, then every n-th card after it, and None for each pop past the bottom.
   */
  function SlotColumn(deck: seq<Card>, n: nat, j: nat, k: nat): (col: seq<Slot>)
    requires j < n
    ensures |col| == k
  {
    if k == 0 then [] else [TopSlot(deck, j)] + SlotColumn(deck[..Drop(|deck|, n)], n, j, k - 1)
  }

  /** After a round of n pops, what lies m pops down lay m + n pops down before. */
  lemma TopSlotShift(deck: seq<Card>, n: nat, m: nat)
    ensures TopSlot(deck[..Drop(|deck|, n)], m) == TopSlot(deck, m + n)
  {
  }

  /** The r-th entry of a column is what lies j + r*n pops down the deck. */
  lemma {:induction false} SlotColumnAt(deck: seq<Card>, n: nat, j: nat, k: nat, r: nat)
    requires j < n && r < k
    ensures SlotColumn(deck, n, j, k)[r] == TopSlot(deck, j + Times(r, n))
    decreases k
  {
    if r > 0 {
      var rest := deck[..Drop(|deck|, n)];
      var tail := SlotColumn(rest, n, j, k - 1);
      assert SlotColumn(deck, n, j, k) == [TopSlot(deck, j)] + tail;
      assert SlotColumn(deck, n, j, k)[r] == tail[r - 1];
      SlotColumnAt(rest, n, j, k - 1, r - 1);
      var m := j + Times(r - 1, n);
      TopSlotShift(deck, n, m);
      assert m + n == j + Times(r, n);
    }
  }

  /** `k` rounds to n players leave the cards below the top k*n, or none if there were fewer. */
  lemma {:induction false} DealRoundsDeck(ps: map<PlayerId, Player>, deck: seq<Card>, ids: seq<PlayerId>, k: nat)
    requires forall id :: id in ids ==> id in ps
    ensures DealRounds(ps, deck, ids, k).1 == deck[..Drop(|deck|, Times(k, |ids|))]
    decreases k
  {
    if k == 0 {
      assert deck[..|deck|] == deck;
    } else {
      DealRoundDeck(ps, deck, ids);
      var first := DealRound(ps, deck, ids);
      DealRoundsDeck(first.0, first.1, ids, k - 1);
      var a := Drop(|deck|, |ids|);
      assert deck[..a][..Drop(a, Times(k - 1, |ids|))] == deck[..Drop(|deck|, Times(k, |ids|))];
    }
  }

  /** `k` rounds to n players append the j-th column of the deck to the j-th hand. */
  lemma {:induction false} DealRoundsHand(ps: map<PlayerId, Player>, deck: seq<Card>, ids: seq<PlayerId>, k: nat, j: nat)
    requires NoDup(ids) && j < |ids| && forall id :: id in ids ==> id in ps
    ensures DealRounds(ps, deck, ids, k).0[ids[j]].hand == ps[ids[j]].hand + SlotColumn(deck, |ids|, j, k)
    decreases k
  {
    assert ids[j] in ids;
    if k > 0 {
      var n := |ids|;
      DealRoundHand(ps, deck, ids, j);
      DealRoundDeck(ps, deck, ids);
      var first := DealRound(ps, deck, ids);
      DealRoundsHand(first.0, first.1, ids, k - 1, j);
      assert DealRounds(ps, deck, ids, k).0[ids[j]].hand
          == (ps[ids[j]].hand + [TopSlot(deck, j)]) + SlotColumn(first.1, n, j, k - 1);
    }
  }

  // ---------------------------------------------------------------- start

  /** `start_game()`; `shuffled` is the order `deck.shuffle()` leaves the current deck in. */
  function AfterStartGame(s: GameState, shuffled: seq<Card>): (r: GameState)
    requires Valid(s)
    ensures r.players.Keys == s.players.Keys && r.keys == s.keys
  {
    if |s.players| >= MinPlayers then
      var dealt := DealRounds(s.players, shuffled, s.keys, StartingHand);
      s.(players := dealt.0, deck := dealt.1, currentTurn := Some(s.keys[0]), started := true)
    else s
  }

  /**
   * start_game does nothing with fewer than two players. Otherwise, started or not, it deals
   * five rounds from the reshuffled deck in key order, gives the turn to the first key and marks
   * the game started; the discard pile and every player's name stay. The invariant is kept and
   * the cards are those of the reshuffled deck, the old hands and the pile.
   */
  lemma StartGameSpec(s: GameState, shuffled: seq<Card>)
    requires Valid(s)
    ensures var r := AfterStartGame(s, shuffled);
      && (|s.players| < MinPlayers ==> r == s)
      && (|s.players| >= MinPlayers ==>
            && r.started && r.currentTurn == Some(s.keys[0])
            && r.keys == s.keys && r.players.Keys == s.players.Keys
            && (forall id :: id in s.players ==> r.players[id].name == s.players[id].name)
            && r.discardPile == s.discardPile
            && AllCards(r) == multiset(shuffled) + HandCards(s.players, s.keys) + Present(s.discardPile))
      && Valid(r)
  {
    if |s.players| >= MinPlayers {
      DealRoundsConserves(s.players, shuffled, s.keys, StartingHand);
      DealRoundsKeeps(s.players, shuffled, s.keys, StartingHand);
      assert s.keys[0] in s.keys;
    }
  }

  /** A reshuffle keeps the cards, so a game holding one deck's cards still does after a (re)start. */
  lemma StartGameConserves(s: GameState, shuffled: seq<Card>)
    requires Valid(s) && multiset(shuffled) == multiset(s.deck)
    ensures AllCards(AfterStartGame(s, shuffled)) == AllCards(s)
    ensures Conserved(s) ==> Conserved(AfterStartGame(s, shuffled))
  {
    StartGameSpec(s, shuffled);
  }

  /**
   * k rounds to n players: the j-th hand gains k entries, the r-th being what lies j + r*n pops
   * down the deck, and the deck keeps what lies below the top k*n cards.
   */
  lemma DealtColumn(ps: map<PlayerId, Player>, deck: seq<Card>, ids: seq<PlayerId>, k: nat, j: nat, r: nat)
    requires NoDup(ids) && j < |ids| && r < k && forall id :: id in ids ==> id in ps
    ensures ids[j] in ps
    ensures var t := DealRounds(ps, deck, ids, k);
      var old_ := ps[ids[j]].hand;
      var new_ := t.0[ids[j]].hand;
      && t.1 == deck[..Drop(|deck|, k * |ids|)]
      && |new_| == |old_| + k
      && new_[..|old_|] == old_
      && new_[|old_| + r] == TopSlot(deck, j + r * |ids|)
  {
    var n := |ids|;
    assert ids[j] in ids;
    TimesIsProduct(k, n);
    TimesIsProduct(r, n);
    DealRoundsDeck(ps, deck, ids, k);
    DealRoundsHand(ps, deck, ids, k, j);
    SlotColumnAt(deck, n, j, k, r);
    var old_ := ps[ids[j]].hand;
    var col := SlotColumn(deck, n, j, k);
    assert (old_ + col)[|old_| + r] == col[r];
  }

  /**
   * The deal of start_game: the j-th key's hand gains five entries, the r-th being what lies
   * j + r*n pops down the reshuffled deck — a card, or None once the deck has run out — and the
   * deck keeps what lies below the top 5n cards.
   */
  lemma StartGameDeals(s: GameState, shuffled: seq<Card>, j: nat, r: nat)
    requires Valid(s) && |s.players| >= MinPlayers && j < |s.keys| && r < StartingHand
    ensures s.keys[j] in s.players
    ensures var t := AfterStartGame(s, shuffled);
      var old_ := s.players[s.keys[j]].hand;
      var new_ := t.players[s.keys[j]].hand;
      && t.deck == shuffled[..Drop(|shuffled|, StartingHand * |s.keys|)]
      && |new_| == |old_| + StartingHand
      && new_[..|old_|] == old_
      && new_[|old_| + r] == TopSlot(shuffled, j + r * |s.keys|)
  {
    DealtColumn(s.players, shuffled, s.keys, StartingHand, j, r);
  }

  // ---------------------------------------------------------------- actions

  /** The action message a client sends: `action_data.get("action")` and `action_data.get("card")`. */
  datatype ActionMsg = ActionMsg(action: Option<string>, card: Option<string>)

  /** The key after `id` in insertion order, wrapping round: `keys[(keys.index(id) + 1) % len(players)]`. */
  function NextKey(s: GameState, id: PlayerId): PlayerId
    requires Valid(s) && id in s.players
  {
    s.keys[(IndexOf(s.keys, id).value + 1) % |s.players|]
  }

  /** The draw branch: the top card, if any, onto the caller's hand. */
  function Draw(s: GameState, id: PlayerId): GameState
    requires id in s.players
  {
    var (card, rest) := Pop(s.deck);
    if card.Some? then s.(players := s.players[id := AddCard(s.players[id], card)], deck := rest)
    else s
  }

  /** The discard branch: the entry at position i onto the pile, and the turn to the next key. */
  function Discard(s: GameState, id: PlayerId, i: nat): GameState
    requires Valid(s) && id in s.players && i < |s.players[id].hand|
  {
    var p := s.players[id];
    s.(players := s.players[id := p.(hand := p.hand[..i] + p.hand[i + 1..])],
       discardPile := s.discardPile + [p.hand[i]],
       currentTurn := Some(NextKey(s, id)))
  }

  /** `handle_action`: the new state and the returned flag. */
  function AfterHandleAction(s: GameState, id: PlayerId, msg: ActionMsg): (GameState, bool)
    requires Valid(s)
  {
    if s.currentTurn != Some(id) then (s, false)
    else if msg.action == Some(DrawAction) then (Draw(s, id), true)
    else if msg.action == Some(DiscardAction) then
      if msg.card.None? then (s, false)
      else match IndexOf(SlotStrings(s.players[id].hand), msg.card.value)
        case None => (s, false)
        case Some(i) => (Discard(s, id, i), true)
    else (s, false)
  }

  /** The next key is another registered player: with two or more players the turn really moves. */
  lemma NextKeySpec(s: GameState, id: PlayerId)
    requires Valid(s) && id in s.players
    ensures id in s.keys && NextKey(s, id) in s.players
    ensures s.started ==> NextKey(s, id) != id
    ensures var i := IndexOf(s.keys, id).value;
      NextKey(s, id) == s.keys[if i + 1 < |s.keys| then i + 1 else 0]
  {
    InKeys(s, id);
    var i := IndexOf(s.keys, id).value;
    var n := |s.keys|;
    SuccMod(i, n);
    var m := (i + 1) % n;
    assert s.keys[m] in s.keys;
    if s.started {
      assert m != i;
    }
  }

  /** A draw keeps the invariant and only moves the top card of the deck, if any, to the hand. */
  lemma DrawSpec(s: GameState, id: PlayerId)
    requires Valid(s) && id in s.players
    ensures var r := Draw(s, id);
      && Valid(r) && AllCards(r) == AllCards(s)
      && r.currentTurn == s.currentTurn && r.keys == s.keys && r.discardPile == s.discardPile
      && (s.deck == [] ==> r == s)
      && (s.deck != [] ==>
            && r.deck == s.deck[..|s.deck| - 1]
            && r.players == s.players[id := s.players[id].(hand := s.players[id].hand + [Some(s.deck[|s.deck| - 1])])])
  {
    var (card, rest) := Pop(s.deck);
    if card.Some? {
      InKeys(s, id);
      HandCardsAppendEntry(s.players, s.keys, id, card);
      PresentSingle(card);
      assert s.deck == rest + [card.value];
    }
  }

  /** A discard keeps the invariant, moves one entry from the hand to the pile and passes the turn. */
  lemma DiscardSpec(s: GameState, id: PlayerId, i: nat)
    requires Valid(s) && s.currentTurn == Some(id) && i < |s.players[id].hand|
    ensures var r := Discard(s, id, i);
      && Valid(r) && AllCards(r) == AllCards(s)
      && r.currentTurn == Some(NextKey(s, id)) && r.currentTurn != Some(id)
  {
    NextKeySpec(s, id);
    DiscardCards(s, id, i);
  }

  /** A discard only moves the entry from the hand onto the pile. */
  lemma DiscardCards(s: GameState, id: PlayerId, i: nat)
    requires Valid(s) && id in s.players && i < |s.players[id].hand|
    ensures AllCards(Discard(s, id, i)) == AllCards(s)
  {
    var p := s.players[id];
    var x := p.hand[i];
    var h' := p.hand[..i] + p.hand[i + 1..];
    PresentDelete(p.hand, i);
    HandCardsUpdate(s.players, s.keys, id, p.(hand := h'));
    var before := HandCards(s.players, s.keys);
    var after := HandCards(s.players[id := p.(hand := h')], s.keys);
    assert (after + Present([x])) + Present(h') == before + Present(h');
    MultisetCancel(after + Present([x]), before, Present(h'));
    PresentConcat(s.discardPile, [x]);
    assert Discard(s, id, i).players == s.players[id := p.(hand := h')];
  }

  /** The first hand entry whose string is `cs`: a real position, before which no entry prints as `cs`. */
  lemma FirstMatch(hand: seq<Slot>, cs: string, i: nat)
    requires IndexOf(SlotStrings(hand), cs) == Some(i)
    ensures i < |hand| && ParseCard(cs) == hand[i]
    ensures forall k :: 0 <= k < i ==> hand[k] != hand[i]
  {
    var strs := SlotStrings(hand);
    assert strs[i] == cs;
    SlotStringParse(hand[i]);
    forall k | 0 <= k < i ensures hand[k] != hand[i] {
      assert strs[k] == strs[..i][k];
    }
  }

  /**
   * handle_action returns False and changes nothing when the caller does not hold the turn, for
   * an unknown action, and for a discard naming no entry of the hand. A draw returns True and
   * never moves the turn; a discard of a held entry returns True and passes the turn on. The
   * invariant and the cards are kept.
   */
  lemma HandleActionSpec(s: GameState, id: PlayerId, msg: ActionMsg)
    requires Valid(s)
    ensures var (r, ok) := AfterHandleAction(s, id, msg);
      && (ok <==> && s.currentTurn == Some(id)
                  && (|| msg.action == Some(DrawAction)
                      || (&& msg.action == Some(DiscardAction) && msg.card.Some?
                          && msg.card.value in SlotStrings(s.players[id].hand))))
      && (!ok ==> r == s)
      && (ok && msg.action == Some(DrawAction) ==> r.currentTurn == s.currentTurn)
      && (ok && msg.action != Some(DrawAction) ==> r.currentTurn == Some(NextKey(s, id)) && r.currentTurn != s.currentTurn)
      && Valid(r)
      && AllCards(r) == AllCards(s)
  {
    if s.currentTurn == Some(id) {
      if msg.action == Some(DrawAction) {
        DrawSpec(s, id);
      } else if msg.action == Some(DiscardAction) && msg.card.Some? {
        match IndexOf(SlotStrings(s.players[id].hand), msg.card.value)
        case None =>
        case Some(i) => DiscardSpec(s, id, i);
      }
    }
  }

  /**
   * A successful discard takes out exactly the first entry printing as the named string, tops
   * the pile with it and passes the turn to the next key; the caller's name, the other players,
   * the deck, the keys and the started flag stay.
   */
  lemma DiscardMovesNamedEntry(s: GameState, id: PlayerId, cs: string)
    requires Valid(s) && s.currentTurn == Some(id) && cs in SlotStrings(s.players[id].hand)
    ensures var (r, ok) := AfterHandleAction(s, id, ActionMsg(Some(DiscardAction), Some(cs)));
      var hand := s.players[id].hand;
      var i := IndexOf(SlotStrings(hand), cs).value;
      && i < |hand| && ParseCard(cs) == hand[i]
      && (forall k :: 0 <= k < i ==> hand[k] != hand[i])
      && ok
      && r == s.(players := s.players[id := s.players[id].(hand := hand[..i] + hand[i + 1..])],
                 discardPile := s.discardPile + [hand[i]],
                 currentTurn := Some(NextKey(s, id)))
  {
    var i := IndexOf(SlotStrings(s.players[id].hand), cs).value;
    FirstMatch(s.players[id].hand, cs, i);
  }

  // ---------------------------------------------------------------- projection

  /** The dictionary `get_game_state` builds for one player. */
  datatype View = View(
    myHand: seq<string>,
    currentTurn: Option<PlayerId>,
    deckSize: nat,
    discardTop: Option<string>)

  /** `get_game_state(player_id)`: None for an unknown id. */
  function Project(s: GameState, viewer: PlayerId): Option<View> {
    if viewer !in s.players then None
    else Some(View(
      SlotStrings(s.players[viewer].hand),
      s.currentTurn,
      |s.deck|,
      if s.discardPile == [] then None else Some(SlotString(s.discardPile[|s.discardPile| - 1]))))
  }

  /** The strings a hand is shown as read back as the hand's entries, position by position. */
  lemma SlotStringsParse(hand: seq<Slot>)
    ensures forall i :: 0 <= i < |hand| ==> ParseCard(SlotStrings(hand)[i]) == hand[i]
  {
    forall i | 0 <= i < |hand| ensures ParseCard(SlotStrings(hand)[i]) == hand[i] {
      SlotStringParse(hand[i]);
    }
  }

  /**
   * The view is None for an unknown id. Otherwise it shows the caller's own hand as strings
   * that read back as exactly the held entries, in order; the turn; the deck size; and the top
   * of the discard pile, if any.
   */
  lemma ProjectSpec(s: GameState, viewer: PlayerId)
    ensures var v := Project(s, viewer);
      && (v.None? <==> viewer !in s.players)
      && (v.Some? ==>
            var hand := s.players[viewer].hand;
            && |v.value.myHand| == |hand|
            && (forall i :: 0 <= i < |hand| ==> ParseCard(v.value.myHand[i]) == hand[i])
            && v.value.currentTurn == s.currentTurn
            && v.value.deckSize == |s.deck|
            && (v.value.discardTop.None? <==> s.discardPile == [])
            && (v.value.discardTop.Some? ==>
                  ParseCard(v.value.discardTop.value) == s.discardPile[|s.discardPile| - 1]))
  {
    if viewer in s.players {
      var v := Project(s, viewer).value;
      SlotStringsParse(s.players[viewer].hand);
      assert v.myHand == SlotStrings(s.players[viewer].hand);
      if s.discardPile != [] {
        SlotStringParse(s.discardPile[|s.discardPile| - 1]);
      }
    }
  }

  /** Hidden information: a player's view does not depend on any other player's hand. */
  lemma ProjectHidesOtherHands(s1: GameState, s2: GameState, viewer: PlayerId)
    requires s1.players.Keys == s2.players.Keys
    requires viewer in s1.players ==> s1.players[viewer].hand == s2.players[viewer].hand
    requires s1.deck == s2.deck && s1.discardPile == s2.discardPile && s1.currentTurn == s2.currentTurn
    ensures Project(s1, viewer) == Project(s2, viewer)
  {
  }

  // ---------------------------------------------------------------- the Game object

  /** `Game`: the engine's fields, updated in place by its methods. */
  class Game {
    var players: map<PlayerId, Player>
    var keys: seq<PlayerId>
    var deck: Deck
    var discardPile: seq<Slot>
    var currentTurn: Option<PlayerId>
    var started: bool

    function State(): GameState
      reads this, deck
    {
      GameState(players, keys, deck.cards, discardPile, currentTurn, started)
    }

    ghost predicate Inv()
      reads this, deck
    {
      Valid(State())
    }

    /** `Game()`; `shuffled` is the order the new deck was shuffled into. */
    constructor (shuffled: seq<Card>)
      requires IsShuffledDeck(shuffled)
      ensures State() == Initial(shuffled) && Inv() && Conserved(State())
    {
      players := map[];
      keys := [];
      deck := new Deck(shuffled);
      discardPile := [];
      currentTurn := None;
      started := false;
      InitialSpec(shuffled);
    }

    /** `add_player(player_id, name)`. */
    method AddPlayer(id: PlayerId, name: string := DefaultName) returns (p: Option<Player>)
      requires Inv()
      modifies this
      ensures Inv() && deck == old(deck)
      ensures (State(), p) == AfterAddPlayer(old(State()), id, name)
    {
      AddPlayerSpec(State(), id, name);
      if !started && id !in players {
        var player := Player(name, id, []);
        players := players[id := player];
        keys := keys + [id];
        return Some(player);
      }
      return None;
    }

    /** `start_game()`; `shuffled` is the order `deck.shuffle()` leaves the current cards in. */
    method StartGame(shuffled: seq<Card>)
      requires Inv() && multiset(shuffled) == multiset(deck.cards)
      modifies this, deck
      ensures Inv() && deck == old(deck)
      ensures State() == AfterStartGame(old(State()), shuffled)
    {
      StartGameSpec(State(), shuffled);
      if |players| >= MinPlayers {
        ShuffleAndDeal(shuffled);
      }
    }

    /** The body of start_game once there are enough players. */
    method ShuffleAndDeal(shuffled: seq<Card>)
      requires Inv() && |players| >= MinPlayers && multiset(shuffled) == multiset(deck.cards)
      modifies this, deck
      ensures deck == old(deck) && State() == AfterStartGame(old(State()), shuffled)
    {
      ghost var s0 := State();
      deck.Shuffle(shuffled);
      DealAll();
      ghost var dealt := DealRounds(s0.players, shuffled, s0.keys, StartingHand);
      assert players == dealt.0 && deck.cards == dealt.1;
      currentTurn := Some(keys[0]);
      started := true;
      assert State() == s0.(players := dealt.0, deck := dealt.1, currentTurn := Some(s0.keys[0]), started := true);
    }

    /** The dealing loops of start_game: five rounds, in key order, each entry appended unguarded. */
    method DealAll()
      requires forall id :: id in keys ==> id in players
      modifies this, deck
      ensures (players, deck.cards) == DealRounds(old(players), old(deck.cards), old(keys), StartingHand)
      ensures deck == old(deck) && keys == old(keys) && started == old(started)
      ensures currentTurn == old(currentTurn) && discardPile == old(discardPile)
    {
      ghost var dealt := DealRounds(players, deck.cards, keys, StartingHand);
      var r := 0;
      while r < StartingHand
        invariant 0 <= r <= StartingHand
        invariant deck == old(deck) && keys == old(keys) && started == old(started)
        invariant currentTurn == old(currentTurn) && discardPile == old(discardPile)
        invariant players.Keys == old(players).Keys
        invariant DealRounds(players, deck.cards, keys, StartingHand - r) == dealt
      {
        DealOneRound();
        r := r + 1;
      }
    }

    /** The inner loop of start_game: one entry from the deck to each player, in key order. */
    method DealOneRound()
      requires forall id :: id in keys ==> id in players
      modifies this, deck
      ensures (players, deck.cards) == DealRound(old(players), old(deck.cards), old(keys))
      ensures deck == old(deck) && keys == old(keys) && started == old(started)
      ensures currentTurn == old(currentTurn) && discardPile == old(discardPile)
    {
      ghost var start := (players, deck.cards);
      var j := 0;
      while j < |keys|
        invariant 0 <= j <= |keys|
        invariant deck == old(deck) && keys == old(keys) && started == old(started)
        invariant currentTurn == old(currentTurn) && discardPile == old(discardPile)
        invariant players.Keys == start.0.Keys
        invariant (players, deck.cards) == DealRound(start.0, start.1, keys[..j])
      {
        var pid := keys[j];
        assert pid in keys;
        var card := deck.DealCard();
        players := players[pid := AddCard(players[pid], card)];
        assert keys[..j + 1][..j] == keys[..j];
        j := j + 1;
      }
      assert keys[..|keys|] == keys;
    }

    /** `get_game_state(player_id)`: the dictionary built from the fields is the projection of the state. */
    function GetGameState(playerId: PlayerId): (v: Option<View>)
      reads this, deck
      ensures v == Project(State(), playerId)
    {
      if playerId !in players then None
      else
        var top := if discardPile == [] then None else Some(SlotString(discardPile[|discardPile| - 1]));
        Some(View(SlotStrings(players[playerId].hand), currentTurn, |deck.cards|, top))
    }

    /** `handle_action(player_id, action_data)`. */
    method HandleAction(id: PlayerId, msg: ActionMsg) returns (ok: bool)
      requires Inv()
      modifies this, deck
      ensures Inv() && deck == old(deck)
      ensures (State(), ok) == AfterHandleAction(old(State()), id, msg)
    {
      ghost var s0 := State();
      HandleActionSpec(s0, id, msg);
      if currentTurn != Some(id) {
        return false;
      }
      if msg.action == Some(DrawAction) {
        DrawCard(id);
        return true;
      } else if msg.action == Some(DiscardAction) {
        var found := FindSlot(players[id].hand, msg.card);
        if found.Some? {
          ghost var i := IndexOf(SlotStrings(players[id].hand), msg.card.value).value;
          FirstMatch(players[id].hand, msg.card.value, i);
          DiscardEntry(id, found.value, i);
          return true;
        }
      }
      return false;
    }

    /** The draw branch of handle_action. */
    method DrawCard(id: PlayerId)
      requires id in players
      modifies this, deck
      ensures deck == old(deck) && State() == Draw(old(State()), id)
    {
      var card := deck.DealCard();
      if card.Some? {
        players := players[id := AddCard(players[id], card)];
      }
    }

    /** The discard branch of handle_action: `hand.remove(card)`, onto the pile, turn to the next key. */
    method DiscardEntry(id: PlayerId, x: Slot, ghost i: nat)
      requires Inv() && id in players && i < |players[id].hand| && players[id].hand[i] == x
      requires forall k :: 0 <= k < i ==> players[id].hand[k] != x
      modifies this
      ensures deck == old(deck) && State() == Discard(old(State()), id, i)
    {
      ghost var s0 := State();
      var player := players[id];
      RemoveFirstAt(player.hand, i);
      var next := keys[(IndexOf(keys, id).value + 1) % |players|];
      assert next == NextKey(s0, id);
      players := players[id := player.(hand := RemoveFirst(player.hand, x))];
      discardPile := discardPile + [x];
      currentTurn := Some(next);
    }
  }

  /**
   * The search loop of handle_action: the first hand entry whose string equals `cardStr`, or None
   * when `cardStr` is None or no entry prints as it.
   */
  method FindSlot(hand: seq<Slot>, cardStr: Option<string>) returns (found: Option<Slot>)
    ensures found.None? <==> forall j :: 0 <= j < |hand| ==> Some(SlotString(hand[j])) != cardStr
    ensures found.Some? ==> && cardStr.Some?
                            && var i := IndexOf(SlotStrings(hand), cardStr.value);
                               i.Some? && found.value == hand[i.value]
  {
    if cardStr.None? {
      return None;
    }
    var at := FindIndex(SlotStrings(hand), cardStr.value);
    found := if at.Some? then Some(hand[at.value]) else None;
  }
}
