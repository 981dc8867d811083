/**
 * The authoritative game engine of the socket server: a registry of players with a turn
 * order, round-robin dealing, a discard-then-draw turn rule, cyclic turn advance, and the
 * per-player view it broadcasts. GameState is the engine's state as a value and the After*
 * functions are its transitions; class Game keeps the same state in fields and its methods
 * are proved to perform exactly those transitions.
 */
module ServerGame {
  import opened Wrappers
  import opened Seqs
  import opened Strings
  import opened Cards
  import opened Arith

  /** A player's identity; the server uses the client's address, which is opaque here. */
  type PlayerId = int

  /** `min_players`. */
  const MinPlayers: nat := 2

  /** The default of `start_game(cards_per_player=7)` and of `add_player(name="Player")`. */
  const DefaultCardsPerPlayer: int := 7
  const DefaultName: string := "Player"

  /** The two actions the engine knows. */
  const DiscardAction: string := "discard_card"
  const DrawAction: string := "draw_card"

  datatype Player = Player(name: string, id: PlayerId, hand: seq<Card>)

  /** `Player.add_card`: appends a card, ignores None. */
  function AddCard(p: Player, card: Option<Card>): (r: Player)
    ensures r.name == p.name && r.id == p.id
    ensures |r.hand| == |p.hand| + (if card.Some? then 1 else 0)
    ensures r.hand[..|p.hand|] == p.hand
    ensures card.Some? ==> r.hand[|p.hand|] == card.value
  {
    match card
    case Some(c) => p.(hand := p.hand + [c])
    case None => p
  }

  /** `Player.play_card`: takes the card at a valid index out of the hand, else None. */
  function PlayCard(p: Player, index: int): (r: (Player, Option<Card>))
    ensures r.1.Some? <==> 0 <= index < |p.hand|
    ensures r.1.None? ==> r.0 == p
    ensures r.1.Some? ==> && r.1.value == p.hand[index]
                          && r.0 == p.(hand := p.hand[..index] + p.hand[index + 1..])
                          && multiset(r.0.hand) + multiset{r.1.value} == multiset(p.hand)
  {
    if 0 <= index < |p.hand| then
      assert p.hand == p.hand[..index] + [p.hand[index]] + p.hand[index + 1..];
      (p.(hand := p.hand[..index] + p.hand[index + 1..]), Some(p.hand[index]))
    else (p, None)
  }

  /** The server's `Deck`: an ordered pile whose end is the top. */
  class Deck {
    var cards: seq<Card>

    /** A fresh deck; `shuffled` is the order `random.shuffle` left the 52 built cards in. */
    constructor (shuffled: seq<Card>)
      requires IsShuffledDeck(shuffled)
      ensures cards == shuffled
    {
      cards := shuffled;
    }

    /** `len(deck)`: the cards left, zero exactly when `deal_card` has nothing to hand out. */
    function Size(): (n: nat)
      reads this
      ensures n == |cards|
      ensures n == 0 <==> Pop(cards).0.None?
    {
      |cards|
    }

    /** `deal_card`: pops the top card, or returns None and leaves an empty deck alone. */
    method DealCard() returns (card: Option<Card>)
      modifies this
      ensures (card, cards) == Pop(old(cards))
    {
      if cards == [] {
        card := None;
      } else {
        card := Some(cards[|cards| - 1]);
        cards := cards[..|cards| - 1];
      }
    }
  }

  /** The fields of `Game` other than the lock and the constant `min_players`. */
  datatype GameState = GameState(
    players: map<PlayerId, Player>,
    order: seq<PlayerId>,
    deck: seq<Card>,
    discardPile: seq<Card>,
    currentTurn: Option<PlayerId>,
    hasDiscarded: bool,
    started: bool)

  /**
   * What every operation keeps: the registry and the turn order list the same players once
   * each, and a started game has enough players, one of whom holds the turn.
   */
  ghost predicate Valid(s: GameState) {
    && (forall id :: id in s.players ==> id in s.order)
    && (forall id :: id in s.order ==> id in s.players)
    && NoDup(s.order)
    && (forall id :: id in s.players ==> s.players[id].id == id)
    && (s.started ==> |s.players| >= MinPlayers && s.currentTurn.Some? && s.currentTurn.value in s.players)
  }

  /** A registered player is in the turn order. */
  lemma InOrder(s: GameState, id: PlayerId)
    requires Valid(s) && id in s.players
    ensures id in s.order
  {
  }

  /** `Game()`: no players, a freshly shuffled deck, nothing discarded, not started. */
  function Initial(shuffled: seq<Card>): GameState {
    GameState(map[], [], shuffled, [], None, false, false)
  }

  // ---------------------------------------------------------------- card accounting

  /** The cards in the hands of the players listed in `ids`, as one multiset. */
  function HandCards(ps: map<PlayerId, Player>, ids: seq<PlayerId>): multiset<Card> {
    if ids == [] then multiset{}
    else (if ids[0] in ps then multiset(ps[ids[0]].hand) else multiset{}) + HandCards(ps, ids[1..])
  }

  /** The total number of cards in the hands of the players listed in `ids`. */
  function HandTotal(ps: map<PlayerId, Player>, ids: seq<PlayerId>): nat {
    if ids == [] then 0
    else (if ids[0] in ps then |ps[ids[0]].hand| else 0) + HandTotal(ps, ids[1..])
  }

  /** Every card the game holds: deck, hands and discard pile. */
  function AllCards(s: GameState): multiset<Card> {
    multiset(s.deck) + HandCards(s.players, s.order) + multiset(s.discardPile)
  }

  /** The conservation invariant: the game holds exactly the 52 cards of one deck. */
  ghost predicate Conserved(s: GameState) {
    AllCards(s) == multiset(FullDeck())
  }

  lemma {:induction false} HandCardsSize(ps: map<PlayerId, Player>, ids: seq<PlayerId>)
    ensures |HandCards(ps, ids)| == HandTotal(ps, ids)
  {
    if ids != [] {
      HandCardsSize(ps, ids[1..]);
    }
  }

  /** Conservation read as a count: |deck| + the hand sizes + |discard pile| = 52. */
  lemma ConservedCount(s: GameState)
    requires Conserved(s)
    ensures |s.deck| + HandTotal(s.players, s.order) + |s.discardPile| == 52
  {
    FullDeckExact();
    HandCardsSize(s.players, s.order);
    assert |AllCards(s)| == |multiset(FullDeck())|;
  }

  lemma {:induction false} HandCardsConcat(ps: map<PlayerId, Player>, a: seq<PlayerId>, b: seq<PlayerId>)
    ensures HandCards(ps, a + b) == HandCards(ps, a) + HandCards(ps, b)
  {
    if a != [] {
      assert (a + b)[0] == a[0];
      assert (a + b)[1..] == a[1..] + b;
      HandCardsConcat(ps, a[1..], b);
    } else {
      assert a + b == b;
    }
  }

  /** HandCards only looks at the hands of the listed players. */
  lemma {:induction false} HandCardsFrame(ps1: map<PlayerId, Player>, ps2: map<PlayerId, Player>, ids: seq<PlayerId>)
    requires forall id :: id in ids ==> (id in ps1 <==> id in ps2)
    requires forall id :: id in ids && id in ps1 ==> ps1[id].hand == ps2[id].hand
    ensures HandCards(ps1, ids) == HandCards(ps2, ids)
  {
    if ids != [] {
      var h := ids[0];
      assert h in ids;
      assert h in ps1 <==> h in ps2;
      if h in ps1 {
        assert ps1[h].hand == ps2[h].hand;
      }
      assert forall id :: id in ids[1..] ==> id in ids;
      HandCardsFrame(ps1, ps2, ids[1..]);
    }
  }

  /** Replacing one listed player's hand changes HandCards by exactly the two hands. */
  lemma HandCardsUpdate(ps: map<PlayerId, Player>, ids: seq<PlayerId>, pid: PlayerId, p: Player)
    requires NoDup(ids) && pid in ids && pid in ps
    ensures HandCards(ps[pid := p], ids) + multiset(ps[pid].hand) == HandCards(ps, ids) + multiset(p.hand)
  {
    var i := IndexOf(ids, pid).value;
    SplitAt(ids, i);
    NoDupSplit(ids, i);
    HandCardsUpdateAt(ps, ids[..i], pid, ids[i + 1..], p);
  }

  /** The same, with the order cut around the one occurrence of `pid`. */
  lemma HandCardsUpdateAt(ps: map<PlayerId, Player>, pre: seq<PlayerId>, pid: PlayerId, post: seq<PlayerId>, p: Player)
    requires pid !in pre && pid !in post && pid in ps
    ensures HandCards(ps[pid := p], pre + [pid] + post) + multiset(ps[pid].hand) == HandCards(ps, pre + [pid] + post) + multiset(p.hand)
  {
    var ps' := ps[pid := p];
    HandCardsConcat(ps, pre + [pid], post);
    HandCardsConcat(ps, pre, [pid]);
    HandCardsConcat(ps', pre + [pid], post);
    HandCardsConcat(ps', pre, [pid]);
    HandCardsFrame(ps, ps', pre);
    HandCardsFrame(ps, ps', post);
  }

  /** A new player appended to the order brings exactly their own hand. */
  lemma HandCardsAppendNew(ps: map<PlayerId, Player>, ids: seq<PlayerId>, pid: PlayerId, p: Player)
    requires pid !in ids
    ensures HandCards(ps[pid := p], ids + [pid]) == HandCards(ps, ids) + multiset(p.hand)
  {
    HandCardsConcat(ps[pid := p], ids, [pid]);
    HandCardsFrame(ps, ps[pid := p], ids);
  }

  /** Removing a listed player from the map and the order loses exactly their hand. */
  lemma HandCardsRemove(ps: map<PlayerId, Player>, ids: seq<PlayerId>, pid: PlayerId)
    requires NoDup(ids) && pid in ids && pid in ps
    ensures HandCards(ps - {pid}, RemoveFirst(ids, pid)) + multiset(ps[pid].hand) == HandCards(ps, ids)
  {
    var i := IndexOf(ids, pid).value;
    SplitAt(ids, i);
    NoDupSplit(ids, i);
    HandCardsRemoveAt(ps, ids[..i], pid, ids[i + 1..]);
  }

  /** The same, with the order cut around the one occurrence of `pid`. */
  lemma HandCardsRemoveAt(ps: map<PlayerId, Player>, pre: seq<PlayerId>, pid: PlayerId, post: seq<PlayerId>)
    requires pid !in pre && pid !in post && pid in ps
    ensures HandCards(ps - {pid}, pre + post) + multiset(ps[pid].hand) == HandCards(ps, pre + [pid] + post)
  {
    HandCardsConcat(ps, pre + [pid], post);
    HandCardsConcat(ps, pre, [pid]);
    HandCardsConcat(ps - {pid}, pre, post);
    HandCardsFrame(ps, ps - {pid}, pre);
    HandCardsFrame(ps, ps - {pid}, post);
  }

  // ---------------------------------------------------------------- registry

  /** `add_player`: registers a new id while the game is not started. */
  function AfterAddPlayer(s: GameState, id: PlayerId, name: string): (GameState, Option<Player>) {
    if !s.started && id !in s.players then
      var p := Player(name + " " + NatToDecimal(|s.players| + 1), id, []);
      (s.(players := s.players[id := p], order := s.order + [id]), Some(p))
    else (s, None)
  }

  /**
   * add_player succeeds exactly when the game is not started and the id is new; it then
   * appends the id to the order and registers an empty-handed player named after the given name
   * and the new player count, and changes nothing else; otherwise nothing changes.
   * The registry stays consistent and no card appears or disappears.
   */
  lemma AddPlayerSpec(s: GameState, id: PlayerId, name: string)
    requires Valid(s)
    ensures var (s', p) := AfterAddPlayer(s, id, name);
      && (p.Some? <==> !s.started && id !in s.players)
      && (p.None? ==> s' == s)
      && (p.Some? ==> && s' == s.(players := s.players[id := p.value], order := s.order + [id])
                      && p.value == Player(name + " " + NatToDecimal(|s.players| + 1), id, [])
                      && !s'.started)
      && Valid(s')
      && AllCards(s') == AllCards(s)
  {
    if !s.started && id !in s.players {
      AddPlayerKeeps(s, id, AfterAddPlayer(s, id, name).1.value);
    }
  }

  /** Registering a new empty-handed player keeps the invariant and the cards. */
  lemma AddPlayerKeeps(s: GameState, id: PlayerId, p: Player)
    requires Valid(s) && !s.started && id !in s.players && p.id == id && p.hand == []
    ensures var s' := s.(players := s.players[id := p], order := s.order + [id]);
      Valid(s') && AllCards(s') == AllCards(s)
  {
    assert id !in s.order;
    HandCardsAppendNew(s.players, s.order, id, p);
    NoDupSnoc(s.order, id);
  }

  // ---------------------------------------------------------------- turns

  /** `next_turn`: the cyclic successor in the order; a current id missing from it resets to the first. */
  function AfterNextTurn(s: GameState): (r: GameState) {
    if !s.started || s.order == [] || s.currentTurn.None? then s
    else match IndexOf(s.order, s.currentTurn.value)
      case Some(i) => s.(currentTurn := Some(s.order[(i + 1) % |s.order|]), hasDiscarded := false)
      case None => s.(currentTurn := Some(s.order[0]), hasDiscarded := false)
  }

  /** In a valid started game there are at least two players in the order. */
  lemma OrderSize(s: GameState)
    requires Valid(s)
    ensures |s.order| == |s.players|
    ensures s.started ==> |s.order| >= MinPlayers
  {
    NoDupSize(s.order);
    forall x ensures x in s.players.Keys <==> x in Elems(s.order) {
      assert x in s.players <==> x in s.order;
    }
    assert s.players.Keys == Elems(s.order);
  }

  /**
   * next_turn changes nothing unless the game is started with a non-empty order and a current
   * id; otherwise the turn goes to the next id in the order, wrapping around, and the discard
   * flag is cleared. In a valid game the turn really changes hands, and the invariant and the
   * cards are kept.
   */
  lemma NextTurnSpec(s: GameState)
    requires Valid(s)
    ensures var r := AfterNextTurn(s);
      && (!s.started || s.order == [] || s.currentTurn.None? ==> r == s)
      && (s.started ==>
            var i := IndexOf(s.order, s.currentTurn.value).value;
            && r == s.(currentTurn := Some(s.order[(i + 1) % |s.order|]), hasDiscarded := false)
            && r.currentTurn != s.currentTurn)
      && Valid(r)
      && AllCards(r) == AllCards(s)
  {
    if s.started {
      OrderSize(s);
      InOrder(s, s.currentTurn.value);
      var i := IndexOf(s.order, s.currentTurn.value).value;
      var n := |s.order|;
      SuccMod(i, n);
      assert s.order[(i + 1) % n] != s.order[i];
    }
  }

  /** The turn state after `k` successive calls of next_turn. */
  function NextTurns(s: GameState, k: nat): GameState {
    if k == 0 then s else AfterNextTurn(NextTurns(s, k - 1))
  }

  /** Turning never changes the players, the order or the invariant. */
  lemma {:induction false} NextTurnsKeep(s: GameState, k: nat)
    requires Valid(s) && s.started
    ensures var r := NextTurns(s, k);
      Valid(r) && r.started && r.order == s.order && r.players == s.players
  {
    if k > 0 {
      NextTurnsKeep(s, k - 1);
      NextTurnSpec(NextTurns(s, k - 1));
    }
  }

  /** Turning never changes the order or whether the game is started. */
  lemma {:induction false} NextTurnsOrder(s: GameState, k: nat)
    ensures NextTurns(s, k).order == s.order && NextTurns(s, k).started == s.started
  {
    if k > 0 {
      NextTurnsOrder(s, k - 1);
    }
  }

  /** One turn from position m of the order leads to the next position, wrapping to the first. */
  lemma TurnFromPosition(s: GameState, m: nat)
    requires s.started && NoDup(s.order) && m < |s.order| && s.currentTurn == Some(s.order[m])
    ensures AfterNextTurn(s).currentTurn == Some(s.order[CyclicNext(m, |s.order|)])
  {
    var j := IndexOf(s.order, s.order[m]).value;
    assert s.order[j] == s.order[m];
    SuccMod(m, |s.order|);
  }

  /** From position i of the order, k turns step k positions round the order. */
  lemma {:induction false} NextTurnsFrom(s: GameState, i: nat, k: nat)
    requires s.started && NoDup(s.order) && i < |s.order| && s.currentTurn == Some(s.order[i])
    ensures 0 <= CyclicAdvance(i, k, |s.order|) < |s.order|
    ensures NextTurns(s, k).currentTurn == Some(s.order[CyclicAdvance(i, k, |s.order|)])
  {
    if k > 0 {
      NextTurnsFrom(s, i, k - 1);
      NextTurnsOrder(s, k - 1);
      var t, m := NextTurns(s, k - 1), CyclicAdvance(i, k - 1, |s.order|);
      assert t.order == s.order && t.started && 0 <= m < |t.order|;
      assert t.currentTurn == Some(t.order[m]);
      TurnFromPosition(t, m);
      assert NextTurns(s, k) == AfterNextTurn(t);
      assert CyclicAdvance(i, k, |s.order|) == CyclicNext(m, |s.order|);
    }
  }

  /** After `k` turns, the turn is `k` places further round the order. */
  lemma NextTurnsRotate(s: GameState, k: nat)
    requires Valid(s) && s.started
    ensures |s.order| >= MinPlayers && s.currentTurn.value in s.order
    ensures NextTurns(s, k).currentTurn
            == Some(s.order[(IndexOf(s.order, s.currentTurn.value).value + k) % |s.order|])
  {
    OrderSize(s);
    var i := IndexOf(s.order, s.currentTurn.value).value;
    NextTurnsFrom(s, i, k);
    CyclicAdvanceMod(i, k, |s.order|);
  }

  /** Fairness: within |order| turns every player holds the turn. */
  lemma EveryPlayerGetsTurn(s: GameState, p: PlayerId)
    requires Valid(s) && s.started && p in s.players
    ensures exists k :: 0 <= k < |s.order| && NextTurns(s, k).currentTurn == Some(p)
  {
    InOrder(s, p);
    InOrder(s, s.currentTurn.value);
    var i := IndexOf(s.order, s.currentTurn.value).value;
    var j := IndexOf(s.order, p).value;
    var n := |s.order|;
    var k: nat;
    if i <= j {
      k := j - i;
      ModUnique(i + k, n, 0, j);
    } else {
      k := j + n - i;
      ModUnique(i + k, n, 1, j);
    }
    NextTurnsFrom(s, i, k);
    CyclicAdvanceMod(i, k, n);
  }

  /** `remove_player`: passes a held turn on, then drops the id from the order and the registry. */
  function AfterRemovePlayer(s: GameState, id: PlayerId): GameState {
    if id !in s.players then s
    else
      var s1 := PassTurnFrom(s, id);
      var order := if id in s1.order then RemoveFirst(s1.order, id) else s1.order;
      var players := s1.players - {id};
      s1.(order := order, players := players,
          started := if s1.started && |players| < MinPlayers then false else s1.started)
  }

  /**
   * remove_player ignores an unknown id. For a registered one it first passes a held turn on,
   * then removes the id from the order, keeping the others in order, and from the registry, and
   * stops the game when fewer than two players remain. The invariant is kept; the removed
   * player's hand leaves the game with them.
   */
  lemma RemovePlayerSpec(s: GameState, id: PlayerId)
    requires Valid(s)
    ensures var r := AfterRemovePlayer(s, id);
      && (id !in s.players ==> r == s)
      && (id in s.players ==>
            var i := IndexOf(s.order, id).value;
            && r.order == s.order[..i] + s.order[i + 1..]
            && r.players == s.players - {id}
            && r.currentTurn == (if s.currentTurn == Some(id) then AfterNextTurn(s) else s).currentTurn
            && r.hasDiscarded == (if s.currentTurn == Some(id) then AfterNextTurn(s) else s).hasDiscarded
            && r.started == (s.started && |s.players| - 1 >= MinPlayers)
            && r.deck == s.deck && r.discardPile == s.discardPile
            && AllCards(r) + multiset(s.players[id].hand) == AllCards(s))
      && Valid(r)
  {
    RemovePlayerValid(s, id);
    if id in s.players {
      RemovePlayerShape(s, id);
      RemovePlayerCards(s, id);
    }
  }

  /** The turn as remove_player leaves it passed on, before the id leaves the order. */
  function PassTurnFrom(s: GameState, id: PlayerId): GameState {
    if s.currentTurn == Some(id) then AfterNextTurn(s) else s
  }

  /** Passing a held turn on keeps the invariant, the registry and the order. */
  lemma PassTurnFromSpec(s: GameState, id: PlayerId)
    requires Valid(s)
    ensures var s1 := PassTurnFrom(s, id);
      && Valid(s1) && s1.order == s.order && s1.players == s.players && s1.started == s.started
      && s1.deck == s.deck && s1.discardPile == s.discardPile
      && (s1.started ==> s1.currentTurn != Some(id))
      && AllCards(s1) == AllCards(s)
  {
    NextTurnSpec(s);
  }

  /** The removed id leaves the order, keeping the others in order, and the registry. */
  lemma RemovePlayerShape(s: GameState, id: PlayerId)
    requires Valid(s) && id in s.players
    ensures var r := AfterRemovePlayer(s, id);
      var i := IndexOf(s.order, id).value;
      && id in s.order
      && r.order == s.order[..i] + s.order[i + 1..]
      && r.players == s.players - {id}
      && |r.players| == |s.players| - 1
      && r.started == (s.started && |s.players| - 1 >= MinPlayers)
  {
    PassTurnFromSpec(s, id);
    InOrder(s, id);
    assert (s.players - {id}).Keys == s.players.Keys - {id};
  }

  /** remove_player keeps the invariant. */
  lemma RemovePlayerValid(s: GameState, id: PlayerId)
    requires Valid(s)
    ensures Valid(AfterRemovePlayer(s, id))
  {
    if id in s.players {
      var s1 := PassTurnFrom(s, id);
      PassTurnFromSpec(s, id);
      RemovePlayerShape(s, id);
      RemoveFirstElems(s.order, id);
    }
  }

  /** The removed player's hand is exactly what leaves the game. */
  lemma RemovePlayerCards(s: GameState, id: PlayerId)
    requires Valid(s) && id in s.players
    ensures AllCards(AfterRemovePlayer(s, id)) + multiset(s.players[id].hand) == AllCards(s)
  {
    PassTurnFromSpec(s, id);
    InOrder(s, id);
    HandCardsRemove(s.players, s.order, id);
  }

  /**
   * A stopped game can name a departed player as turn holder: in a started game of players 1
   * and 2 with 1 to move, 2 leaves (the game stops), then 1 leaves while still holding the
   * turn. The state is valid, and next_turn leaves it alone because the game is not started.
   */
  lemma StaleTurnAfterStop(s: GameState)
    requires Valid(s) && s.started && s.order == [1, 2] && s.currentTurn == Some(1)
    ensures var r := AfterRemovePlayer(AfterRemovePlayer(s, 2), 1);
      && Valid(r) && !r.started && r.order == [] && r.players == map[] && r.currentTurn == Some(1)
      && AfterNextTurn(r) == r
  {
    OrderSize(s);
    assert 2 in s.order;
    RemovePlayerSpec(s, 2);
    var s4 := AfterRemovePlayer(s, 2);
    assert IndexOf(s.order, 2) == Some(1);
    assert s4.order == [1];
    assert 1 in s4.order;
    RemovePlayerSpec(s4, 1);
    assert IndexOf(s4.order, 1) == Some(0);
    OrderSize(AfterRemovePlayer(s4, 1));
  }

  /** Two players joining a new game and a start reach the state StaleTurnAfterStop begins from. */
  lemma TwoPlayersStart(shuffled: seq<Card>)
    ensures var s2 := AfterAddPlayer(AfterAddPlayer(Initial(shuffled), 1, DefaultName).0, 2, DefaultName).0;
      && Valid(s2)
      && var s3 := AfterStartGame(s2, shuffled, DefaultCardsPerPlayer).0;
         Valid(s3) && s3.started && s3.order == [1, 2] && s3.currentTurn == Some(1)
  {
    var s0 := Initial(shuffled);
    AddPlayerSpec(s0, 1, DefaultName);
    var s1 := AfterAddPlayer(s0, 1, DefaultName).0;
    AddPlayerSpec(s1, 2, DefaultName);
    var s2 := AfterAddPlayer(s1, 2, DefaultName).0;
    assert s2.order == [1, 2] && |s2.players| == 2;
    StartGameSpec(s2, shuffled, DefaultCardsPerPlayer);
  }

  // ---------------------------------------------------------------- dealing

  /** One `deal_card` given to `pid`, skipped when the deck is empty. */
  function DealTo(ps: map<PlayerId, Player>, deck: seq<Card>, pid: PlayerId): (r: (map<PlayerId, Player>, seq<Card>))
    requires pid in ps
    ensures r.0.Keys == ps.Keys
  {
    var (card, rest) := Pop(deck);
    if card.Some? then (ps[pid := AddCard(ps[pid], card)], rest) else (ps, rest)
  }

  /** One dealing round: one card to each of `ids`, in order. */
  function DealRound(ps: map<PlayerId, Player>, deck: seq<Card>, ids: seq<PlayerId>): (r: (map<PlayerId, Player>, seq<Card>))
    requires forall id :: id in ids ==> id in ps
    ensures r.0.Keys == ps.Keys
    decreases |ids|
  {
    if ids == [] then (ps, deck)
    else
      var prev := DealRound(ps, deck, ids[..|ids| - 1]);
      DealTo(prev.0, prev.1, ids[|ids| - 1])
  }

  /** Dealing to the first j + 1 of `ids` is dealing to the first j, then to the next one. */
  lemma DealRoundSnoc(ps: map<PlayerId, Player>, deck: seq<Card>, ids: seq<PlayerId>, j: nat)
    requires forall id :: id in ids ==> id in ps
    requires j < |ids|
    ensures forall id :: id in ids[..j] ==> id in ps
    ensures var prev := DealRound(ps, deck, ids[..j]);
      ids[j] in prev.0 && DealRound(ps, deck, ids[..j + 1]) == DealTo(prev.0, prev.1, ids[j])
  {
    var t := ids[..j + 1];
    assert t[..|t| - 1] == ids[..j];
    assert t[|t| - 1] == ids[j];
    assert ids[j] in ids;
    assert forall id :: id in t ==> id in ids;
  }

  /** `rounds` dealing rounds: one round, then the rest. */
  function DealRounds(ps: map<PlayerId, Player>, deck: seq<Card>, ids: seq<PlayerId>, rounds: nat): (r: (map<PlayerId, Player>, seq<Card>))
    requires forall id :: id in ids ==> id in ps
    ensures r.0.Keys == ps.Keys
    decreases rounds
  {
    if rounds == 0 then (ps, deck)
    else
      var first := DealRound(ps, deck, ids);
      DealRounds(first.0, first.1, ids, rounds - 1)
  }

  /** Dealing changes hands only: every player keeps their id and name. */
  lemma DealToKeeps(ps: map<PlayerId, Player>, deck: seq<Card>, pid: PlayerId)
    requires pid in ps
    ensures var r := DealTo(ps, deck, pid);
      forall q :: q in ps ==> r.0[q].id == ps[q].id && r.0[q].name == ps[q].name
  {
  }

  lemma {:induction false} DealRoundKeeps(ps: map<PlayerId, Player>, deck: seq<Card>, ids: seq<PlayerId>)
    requires forall id :: id in ids ==> id in ps
    ensures var r := DealRound(ps, deck, ids);
      forall q :: q in ps ==> r.0[q].id == ps[q].id && r.0[q].name == ps[q].name
    decreases |ids|
  {
    if ids != [] {
      var init := ids[..|ids| - 1];
      assert forall id :: id in init ==> id in ids;
      DealRoundKeeps(ps, deck, init);
      var prev := DealRound(ps, deck, init);
      assert ids[|ids| - 1] in ids;
      DealToKeeps(prev.0, prev.1, ids[|ids| - 1]);
    }
  }

  lemma {:induction false} DealRoundsKeeps(ps: map<PlayerId, Player>, deck: seq<Card>, ids: seq<PlayerId>, rounds: nat)
    requires forall id :: id in ids ==> id in ps
    ensures var r := DealRounds(ps, deck, ids, rounds);
      forall q :: q in ps ==> r.0[q].id == ps[q].id && r.0[q].name == ps[q].name
    decreases rounds
  {
    if rounds > 0 {
      DealRoundKeeps(ps, deck, ids);
      var first := DealRound(ps, deck, ids);
      DealRoundsKeeps(first.0, first.1, ids, rounds - 1);
    }
  }

  /** One deal moves the top card, if any, from the deck into a listed player's hand. */
  lemma DealToConserves(ps: map<PlayerId, Player>, deck: seq<Card>, pid: PlayerId, order: seq<PlayerId>)
    requires NoDup(order) && pid in ps && pid in order
    ensures var r := DealTo(ps, deck, pid);
      multiset(r.1) + HandCards(r.0, order) == multiset(deck) + HandCards(ps, order)
  {
    var (card, rest) := Pop(deck);
    if card.Some? {
      var p := ps[pid];
      var p' := AddCard(p, card);
      HandCardsUpdate(ps, order, pid, p');
      assert p'.hand == p.hand + [card.value];
      assert deck == rest + [card.value];
      var before := HandCards(ps, order);
      var after := HandCards(ps[pid := p'], order);
      assert after + multiset(p.hand) == (before + multiset{card.value}) + multiset(p.hand);
      MultisetCancel(after, before + multiset{card.value}, multiset(p.hand));
    }
  }

  /** Dealing only moves cards from the deck into the hands, even when the deck runs out. */
  lemma {:induction false} DealRoundConserves(ps: map<PlayerId, Player>, deck: seq<Card>, ids: seq<PlayerId>, order: seq<PlayerId>)
    requires NoDup(order) && forall id :: id in ids ==> id in ps && id in order
    ensures var r := DealRound(ps, deck, ids);
      multiset(r.1) + HandCards(r.0, order) == multiset(deck) + HandCards(ps, order)
    decreases |ids|
  {
    if ids != [] {
      var init := ids[..|ids| - 1];
      assert forall id :: id in init ==> id in ids;
      DealRoundConserves(ps, deck, init, order);
      var prev := DealRound(ps, deck, init);
      var pid := ids[|ids| - 1];
      assert pid in ids;
      DealToConserves(prev.0, prev.1, pid, order);
    }
  }

  lemma {:induction false} DealRoundsConserves(ps: map<PlayerId, Player>, deck: seq<Card>, order: seq<PlayerId>, rounds: nat)
    requires NoDup(order) && forall id :: id in order ==> id in ps
    ensures var r := DealRounds(ps, deck, order, rounds);
      multiset(r.1) + HandCards(r.0, order) == multiset(deck) + HandCards(ps, order)
    decreases rounds
  {
    if rounds > 0 {
      DealRoundConserves(ps, deck, order, order);
      var first := DealRound(ps, deck, order);
      DealRoundsConserves(first.0, first.1, order, rounds - 1);
    }
  }

  /** With enough cards, a round takes |ids| cards off the top of the deck. */
  lemma {:induction false} DealRoundDeck(ps: map<PlayerId, Player>, deck: seq<Card>, ids: seq<PlayerId>)
    requires |ids| <= |deck| && forall id :: id in ids ==> id in ps
    ensures DealRound(ps, deck, ids).1 == deck[..|deck| - |ids|]
    decreases |ids|
  {
    if ids == [] {
      assert deck[..|deck|] == deck;
    } else {
      var init := ids[..|ids| - 1];
      assert forall id :: id in init ==> id in ids;
      DealRoundDeck(ps, deck, init);
    }
  }

  /** A round leaves players outside `ids` alone. */
  lemma {:induction false} DealRoundUntouched(ps: map<PlayerId, Player>, deck: seq<Card>, ids: seq<PlayerId>, q: PlayerId)
    requires q in ps && q !in ids && forall id :: id in ids ==> id in ps
    ensures DealRound(ps, deck, ids).0[q] == ps[q]
    decreases |ids|
  {
    if ids != [] {
      var init := ids[..|ids| - 1];
      assert forall id :: id in init ==> id in ids;
      assert ids[|ids| - 1] in ids;
      DealRoundUntouched(ps, deck, init, q);
    }
  }

  /** With enough cards, a round gives the j-th player the (j+1)-th card from the top. */
  lemma {:induction false} DealRoundHand(ps: map<PlayerId, Player>, deck: seq<Card>, ids: seq<PlayerId>, j: nat)
    requires NoDup(ids) && |ids| <= |deck| && j < |ids| && forall id :: id in ids ==> id in ps
    ensures DealRound(ps, deck, ids).0[ids[j]].hand == ps[ids[j]].hand + [deck[|deck| - 1 - j]]
    decreases |ids|
  {
    var m := |ids|;
    if j == m - 1 {
      DealRoundHandLast(ps, deck, ids);
    } else {
      var init := ids[..m - 1];
      assert forall id :: id in init ==> id in ids;
      assert ids[j] == init[j] && ids[j] != ids[m - 1];
      assert NoDup(init);
      DealRoundHand(ps, deck, init, j);
    }
  }

  /** The last player of a round receives the |ids|-th card from the top. */
  lemma DealRoundHandLast(ps: map<PlayerId, Player>, deck: seq<Card>, ids: seq<PlayerId>)
    requires NoDup(ids) && 0 < |ids| <= |deck| && forall id :: id in ids ==> id in ps
    ensures DealRound(ps, deck, ids).0[ids[|ids| - 1]].hand == ps[ids[|ids| - 1]].hand + [deck[|deck| - |ids|]]
  {
    var m := |ids|;
    var init := ids[..m - 1];
    var pid := ids[m - 1];
    assert forall id :: id in init ==> id in ids;
    assert pid in ids;
    assert pid !in init;
    var prev := DealRound(ps, deck, init);
    DealRoundUntouched(ps, deck, init, pid);
    DealRoundDeck(ps, deck, init);
    assert DealRound(ps, deck, ids) == DealTo(prev.0, prev.1, pid);
    assert prev.0[pid] == ps[pid];
    assert Pop(prev.1).0 == Some(deck[|deck| - m]);
  }

  /**
   * The cards the j-th of n players receives in k rounds dealt from the top of `deck`: the
   * (j+1)-th card from the top, then every n-th card after it.
   */
  function Column(deck: seq<Card>, n: nat, j: nat, k: nat): (col: seq<Card>)
    requires j < n && Times(k, n) <= |deck|
    ensures |col| == k
  {
    if k == 0 then [] else [deck[|deck| - 1 - j]] + Column(deck[..|deck| - n], n, j, k - 1)
  }

  /** A column of k > 0 cards: its first card, then the column of the deck less one round. */
  lemma ColumnStep(deck: seq<Card>, n: nat, j: nat, k: nat)
    requires j < n && 0 < k && Times(k, n) <= |deck|
    ensures Times(k - 1, n) <= |deck| - n
    ensures Column(deck, n, j, k) == [deck[|deck| - 1 - j]] + Column(deck[..|deck| - n], n, j, k - 1)
  {
  }

  /** `k` rounds to n players take the top k*n cards and leave the rest in order. */
  lemma {:induction false} DealRoundsDeck(ps: map<PlayerId, Player>, deck: seq<Card>, ids: seq<PlayerId>, k: nat)
    requires Times(k, |ids|) <= |deck| && forall id :: id in ids ==> id in ps
    ensures DealRounds(ps, deck, ids, k).1 == deck[..|deck| - Times(k, |ids|)]
    decreases k
  {
    if k == 0 {
      assert deck[..|deck|] == deck;
    } else {
      var n := |ids|;
      DealRoundDeck(ps, deck, ids);
      var first := DealRound(ps, deck, ids);
      var a := |deck| - n;
      assert first.1 == deck[..a];
      assert Times(k - 1, n) <= a;
      DealRoundsDeck(first.0, first.1, ids, k - 1);
      assert deck[..a][..a - Times(k - 1, n)] == deck[..|deck| - Times(k, n)];
    }
  }

  /** `k` rounds to n players deal the j-th of them the j-th column of the deck, round-robin. */
  lemma {:induction false} DealRoundsHand(ps: map<PlayerId, Player>, deck: seq<Card>, ids: seq<PlayerId>, k: nat, j: nat)
    requires NoDup(ids) && Times(k, |ids|) <= |deck| && j < |ids| && forall id :: id in ids ==> id in ps
    ensures DealRounds(ps, deck, ids, k).0[ids[j]].hand == ps[ids[j]].hand + Column(deck, |ids|, j, k)
    decreases k
  {
    assert ids[j] in ids;
    if k > 0 {
      var n := |ids|;
      DealRoundHand(ps, deck, ids, j);
      DealRoundDeck(ps, deck, ids);
      var first := DealRound(ps, deck, ids);
      ColumnStep(deck, n, j, k);
      DealRoundsHand(first.0, first.1, ids, k - 1, j);
      SnocThenAppend(ps[ids[j]].hand, deck[|deck| - 1 - j], Column(first.1, n, j, k - 1));
    }
  }

  /** `start_game(cards_per_player)`. */
  function AfterStartGame(s: GameState, shuffled: seq<Card>, cardsPerPlayer: int): (GameState, bool)
    requires Valid(s)
  {
    if !s.started && |s.players| >= MinPlayers then
      var dealt := DealRounds(s.players, shuffled, s.order, if cardsPerPlayer < 0 then 0 else cardsPerPlayer);
      (s.(players := dealt.0, deck := dealt.1, discardPile := [], hasDiscarded := false,
          currentTurn := if s.order != [] then Some(s.order[0]) else s.currentTurn,
          started := true),
       true)
    else (s, false)
  }

  /**
   * start_game fails, changing nothing, unless the game is not started and has at least two
   * players. On success the deck is a fresh shuffled one minus the dealt cards, the discard pile
   * is empty, the flag is cleared, the first player in the order holds the turn and the game is
   * started; every player keeps its name. Existing hands are not cleared: the game then holds
   * the new deck's 52 cards plus whatever the hands held before.
   */
  lemma StartGameSpec(s: GameState, shuffled: seq<Card>, cardsPerPlayer: int)
    requires Valid(s)
    ensures var (r, ok) := AfterStartGame(s, shuffled, cardsPerPlayer);
      && (ok <==> !s.started && |s.players| >= MinPlayers)
      && (!ok ==> r == s)
      && (ok ==> && s.order != [] && r.currentTurn == Some(s.order[0])
                 && r.started && !r.hasDiscarded && r.discardPile == []
                 && r.order == s.order && r.players.Keys == s.players.Keys
                 && (forall id :: id in s.players ==> r.players[id].name == s.players[id].name)
                 && AllCards(r) == multiset(shuffled) + HandCards(s.players, s.order))
      && Valid(r)
  {
    var (r, ok) := AfterStartGame(s, shuffled, cardsPerPlayer);
    if ok {
      OrderSize(s);
      var k := if cardsPerPlayer < 0 then 0 else cardsPerPlayer;
      DealRoundsConserves(s.players, shuffled, s.order, k);
      DealRoundsKeeps(s.players, shuffled, s.order, k);
      assert s.order[0] in s.order;
      assert s.order[0] in s.players;
      assert s.order[0] in s.order;
    }
  }

  /** A start from empty hands with a shuffled deck leaves exactly one deck's cards in the game. */
  lemma StartFromEmptyHandsConserves(s: GameState, shuffled: seq<Card>, cardsPerPlayer: int)
    requires Valid(s) && IsShuffledDeck(shuffled)
    requires forall id :: id in s.players ==> s.players[id].hand == []
    ensures var (r, ok) := AfterStartGame(s, shuffled, cardsPerPlayer);
      ok ==> Conserved(r)
  {
    StartGameSpec(s, shuffled, cardsPerPlayer);
    EmptyHands(s.players, s.order);
  }

  lemma {:induction false} EmptyHands(ps: map<PlayerId, Player>, ids: seq<PlayerId>)
    requires forall id :: id in ps ==> ps[id].hand == []
    ensures HandCards(ps, ids) == multiset{}
  {
    if ids != [] {
      EmptyHands(ps, ids[1..]);
    }
  }

  /**
   * When n players times `cardsPerPlayer` cards fit in the deck, each player in the order gets
   * exactly `cardsPerPlayer` more cards, dealt round-robin from the top of the shuffled deck,
   * and the deck keeps the rest in order.
   */
  lemma StartGameDealsRoundRobin(s: GameState, shuffled: seq<Card>, cardsPerPlayer: nat)
    requires Valid(s) && !s.started && |s.players| >= MinPlayers
    requires cardsPerPlayer * |s.order| <= |shuffled|
    ensures Times(cardsPerPlayer, |s.order|) == cardsPerPlayer * |s.order|
    ensures var (r, ok) := AfterStartGame(s, shuffled, cardsPerPlayer);
      && r.deck == shuffled[..|shuffled| - cardsPerPlayer * |s.order|]
      && forall j :: 0 <= j < |s.order| ==>
           && s.order[j] in s.players && s.order[j] in r.players
           && |r.players[s.order[j]].hand| == |s.players[s.order[j]].hand| + cardsPerPlayer
           && r.players[s.order[j]].hand == s.players[s.order[j]].hand + Column(shuffled, |s.order|, j, cardsPerPlayer)
  {
    TimesIsProduct(cardsPerPlayer, |s.order|);
    DealRoundsDeck(s.players, shuffled, s.order, cardsPerPlayer);
    forall j | 0 <= j < |s.order|
      ensures DealRounds(s.players, shuffled, s.order, cardsPerPlayer).0[s.order[j]].hand
           == s.players[s.order[j]].hand + Column(shuffled, |s.order|, j, cardsPerPlayer)
    {
      DealRoundsHand(s.players, shuffled, s.order, cardsPerPlayer, j);
    }
  }

  // ---------------------------------------------------------------- actions

  /** The action message a client sends: `action_data.get("action")` and `action_data.get("card")`. */
  datatype ActionMsg = ActionMsg(action: Option<string>, card: Option<string>)

  /** `[str(card) for card in hand]`. */
  function HandStrings(hand: seq<Card>): (r: seq<string>)
    ensures |r| == |hand|
    ensures forall i :: 0 <= i < |hand| ==> r[i] == CardString(hand[i])
  {
    seq(|hand|, i requires 0 <= i < |hand| => CardString(hand[i]))
  }

  /** A discard of the card at position i of the caller's hand. */
  function Discard(s: GameState, id: PlayerId, i: nat): GameState
    requires id in s.players && i < |s.players[id].hand|
  {
    var p := s.players[id];
    s.(players := s.players[id := p.(hand := p.hand[..i] + p.hand[i + 1..])],
       discardPile := s.discardPile + [p.hand[i]],
       hasDiscarded := true)
  }

  /** A draw of the top card of the deck into the caller's hand. */
  function Draw(s: GameState, id: PlayerId): GameState
    requires id in s.players
  {
    var (card, rest) := Pop(s.deck);
    s.(players := s.players[id := AddCard(s.players[id], card)], deck := rest, hasDiscarded := false)
  }

  /** `handle_action`: the new state and the pair (processed, advance turn). */
  function AfterHandleAction(s: GameState, id: PlayerId, msg: ActionMsg): (GameState, bool, bool)
    requires Valid(s)
  {
    if !s.started || s.currentTurn != Some(id) then (s, false, false)
    else if msg.action == Some(DiscardAction) then
      if s.hasDiscarded || msg.card.None? || msg.card.value == "" then (s, false, false)
      else match IndexOf(HandStrings(s.players[id].hand), msg.card.value)
        case None => (s, false, false)
        case Some(i) => (Discard(s, id, i), true, false)
    else if msg.action == Some(DrawAction) then
      if !s.hasDiscarded || |s.deck| == 0 then (s, false, false)
      else (Draw(s, id), true, true)
    else (s, false, false)
  }

  /** A discard keeps the invariant. */
  lemma DiscardValid(s: GameState, id: PlayerId, i: nat)
    requires Valid(s) && id in s.players && i < |s.players[id].hand|
    ensures Valid(Discard(s, id, i))
  {
  }

  /** A discard moves one card from the hand to the pile. */
  lemma DiscardCards(s: GameState, id: PlayerId, i: nat)
    requires Valid(s) && id in s.players && i < |s.players[id].hand|
    ensures AllCards(Discard(s, id, i)) == AllCards(s)
  {
    var p := s.players[id];
    var c := p.hand[i];
    var h' := p.hand[..i] + p.hand[i + 1..];
    assert p.hand == p.hand[..i] + [c] + p.hand[i + 1..];
    assert multiset(p.hand) == multiset(h') + multiset{c};
    InOrder(s, id);
    HandCardsUpdate(s.players, s.order, id, p.(hand := h'));
    var before := HandCards(s.players, s.order);
    var after := HandCards(s.players[id := p.(hand := h')], s.order);
    assert (after + multiset{c}) + multiset(h') == before + multiset(h');
    MultisetCancel(after + multiset{c}, before, multiset(h'));
    assert multiset(s.discardPile + [c]) == multiset(s.discardPile) + multiset{c};
  }

  /** A draw keeps the invariant. */
  lemma DrawValid(s: GameState, id: PlayerId)
    requires Valid(s) && id in s.players
    ensures Valid(Draw(s, id))
  {
  }

  /** A draw moves the top card of the deck, if any, to the hand. */
  lemma DrawCards(s: GameState, id: PlayerId)
    requires Valid(s) && id in s.players
    ensures AllCards(Draw(s, id)) == AllCards(s)
  {
    var p := s.players[id];
    var (card, rest) := Pop(s.deck);
    InOrder(s, id);
    HandCardsUpdate(s.players, s.order, id, AddCard(p, card));
    var before := HandCards(s.players, s.order);
    var after := HandCards(s.players[id := AddCard(p, card)], s.order);
    if card.Some? {
      assert AddCard(p, card).hand == p.hand + [card.value];
      assert s.deck == rest + [card.value];
      assert after + multiset(p.hand) == (before + multiset{card.value}) + multiset(p.hand);
      MultisetCancel(after, before + multiset{card.value}, multiset(p.hand));
    } else {
      assert AddCard(p, card) == p;
      MultisetCancel(after, before, multiset(p.hand));
    }
  }

  /** The conditions under which handle_action accepts an action. */
  ghost predicate Accepts(s: GameState, id: PlayerId, msg: ActionMsg)
    requires Valid(s)
  {
    && s.started && s.currentTurn == Some(id)
    && (|| (&& msg.action == Some(DiscardAction) && !s.hasDiscarded
            && msg.card.Some? && msg.card.value != ""
            && msg.card.value in HandStrings(s.players[id].hand))
        || (msg.action == Some(DrawAction) && s.hasDiscarded && s.deck != []))
  }

  /**
   * handle_action accepts exactly a discard of a held card before discarding, or a draw from
   * a non-empty deck after discarding, by the player holding the turn of a started game.
   * Anything else — game not started, not the caller's turn, unknown action, second discard,
   * card not in hand, draw before discarding, empty deck — returns (False, False) and changes
   * nothing. Only a draw asks for the turn to advance. The invariant and the cards are kept.
   */
  lemma HandleActionSpec(s: GameState, id: PlayerId, msg: ActionMsg)
    requires Valid(s)
    ensures var (r, processed, advance) := AfterHandleAction(s, id, msg);
      && (processed <==> Accepts(s, id, msg))
      && (!processed ==> r == s && !advance)
      && (processed ==> advance == (msg.action == Some(DrawAction)))
      && Valid(r)
      && AllCards(r) == AllCards(s)
  {
    var (r, processed, advance) := AfterHandleAction(s, id, msg);
    if processed {
      if msg.action == Some(DiscardAction) {
        var i := IndexOf(HandStrings(s.players[id].hand), msg.card.value).value;
        DiscardValid(s, id, i);
        DiscardCards(s, id, i);
      } else {
        DrawValid(s, id);
        DrawCards(s, id);
      }
    }
  }

  /**
   * A successful discard takes out the first card of the hand whose string is the one sent —
   * the card that string names — and puts it on top of the discard pile; nothing else moves.
   */
  lemma DiscardMovesNamedCard(s: GameState, id: PlayerId, cs: string)
    requires Valid(s) && s.started && s.currentTurn == Some(id) && !s.hasDiscarded
    requires cs in HandStrings(s.players[id].hand)
    ensures var hand := s.players[id].hand;
      var i := IndexOf(HandStrings(hand), cs).value;
      && AfterHandleAction(s, id, ActionMsg(Some(DiscardAction), Some(cs))) == (Discard(s, id, i), true, false)
      && ParseCard(cs) == Some(hand[i])
      && (forall k :: 0 <= k < i ==> hand[k] != hand[i])
  {
    var hand := s.players[id].hand;
    var i := IndexOf(HandStrings(hand), cs).value;
    DiscardBranch(s, id, cs, i);
    FirstMatch(hand, cs, i);
  }

  /**
   * A discard takes that one card out of the caller's hand, keeping the order of the rest, and
   * puts it on top of the pile; the other players, the deck, the turn order and the turn stay.
   */
  lemma DiscardEffect(s: GameState, id: PlayerId, i: nat)
    requires id in s.players && i < |s.players[id].hand|
    ensures var hand, r := s.players[id].hand, Discard(s, id, i);
      && r.players.Keys == s.players.Keys
      && (forall other :: other in s.players && other != id ==> r.players[other] == s.players[other])
      && r.players[id].id == s.players[id].id && r.players[id].name == s.players[id].name
      && |r.players[id].hand| == |hand| - 1
      && multiset(r.players[id].hand) + multiset{hand[i]} == multiset(hand)
      && (forall k :: 0 <= k < i ==> r.players[id].hand[k] == hand[k])
      && (forall k :: i < k < |hand| ==> r.players[id].hand[k - 1] == hand[k])
      && |r.discardPile| == |s.discardPile| + 1
      && r.discardPile[..|s.discardPile|] == s.discardPile
      && r.discardPile[|s.discardPile|] == hand[i]
      && r.hasDiscarded
      && r.deck == s.deck && r.order == s.order && r.currentTurn == s.currentTurn && r.started == s.started
  {
    var hand := s.players[id].hand;
    var rest := hand[..i] + hand[i + 1..];
    SplitAt(hand, i);
    assert multiset(hand) == multiset(hand[..i]) + multiset{hand[i]} + multiset(hand[i + 1..]);
    DeleteAtIndex(hand, i);
    assert (s.discardPile + [hand[i]])[..|s.discardPile|] == s.discardPile;
  }

  /** A card string of the hand sent by the current player before discarding selects the discard branch. */
  lemma DiscardBranch(s: GameState, id: PlayerId, cs: string, i: nat)
    requires Valid(s) && s.started && s.currentTurn == Some(id) && !s.hasDiscarded
    requires IndexOf(HandStrings(s.players[id].hand), cs) == Some(i)
    ensures AfterHandleAction(s, id, ActionMsg(Some(DiscardAction), Some(cs))) == (Discard(s, id, i), true, false)
  {
    assert cs == CardString(s.players[id].hand[i]);
  }

  /** The first card whose string matches is the card the string names, and no earlier card is it. */
  lemma FirstMatch(hand: seq<Card>, cs: string, i: nat)
    requires IndexOf(HandStrings(hand), cs) == Some(i)
    ensures i < |hand| && ParseCard(cs) == Some(hand[i])
    ensures forall k :: 0 <= k < i ==> hand[k] != hand[i]
  {
    var strs := HandStrings(hand);
    assert strs[i] == cs == CardString(hand[i]);
    ParseCardString(hand[i]);
    forall k | 0 <= k < i ensures hand[k] != hand[i] {
      assert strs[k] == strs[..i][k];
      assert strs[k] != cs;
    }
  }

  /**
   * The search loop of handle_action: the first card of the hand whose string is `cardStr`,
   * or None when no card prints as `cardStr`.
   */
  method FindCard(hand: seq<Card>, cardStr: string) returns (found: Option<Card>)
    ensures found.None? <==> forall j :: 0 <= j < |hand| ==> CardString(hand[j]) != cardStr
    ensures found.Some? ==> var i := IndexOf(HandStrings(hand), cardStr);
      i.Some? && found.value == hand[i.value] && CardString(found.value) == cardStr
  {
    var strs := HandStrings(hand);
    var at := FindIndex(strs, cardStr);
    found := if at.Some? then Some(hand[at.value]) else None;
  }

  /** A successful draw moves the top card of the deck to the end of the caller's hand and clears the flag; nothing else changes. */
  lemma DrawMovesTopCard(s: GameState, id: PlayerId, msg: ActionMsg)
    requires Valid(s) && msg.action == Some(DrawAction)
    requires AfterHandleAction(s, id, msg).1
    ensures var (r, _, advance) := AfterHandleAction(s, id, msg);
      && s.deck != [] && advance
      && r == s.(players := s.players[id := s.players[id].(hand := s.players[id].hand + [s.deck[|s.deck| - 1]])],
                 deck := s.deck[..|s.deck| - 1],
                 hasDiscarded := false)
  {
  }

  /** One received action as the connection handler applies it: handle_action, then next_turn when asked. */
  function AfterStep(s: GameState, id: PlayerId, msg: ActionMsg): (GameState, bool)
    requires Valid(s)
  {
    var (s1, processed, advance) := AfterHandleAction(s, id, msg);
    (if processed && advance then AfterNextTurn(s1) else s1, processed)
  }

  /**
   * A step keeps the invariant and all cards where they are counted, so a game that holds one
   * deck's cards keeps holding them; a successful draw passes the turn to the next player in
   * the order.
   */
  lemma StepSpec(s: GameState, id: PlayerId, msg: ActionMsg)
    requires Valid(s)
    ensures var (r, processed) := AfterStep(s, id, msg);
      && Valid(r)
      && AllCards(r) == AllCards(s)
      && (Conserved(s) ==> Conserved(r))
      && (!processed ==> r == s)
      && (processed && msg.action == Some(DrawAction) ==>
            var i := IndexOf(s.order, id).value;
            r.currentTurn == Some(s.order[(i + 1) % |s.order|]) && r.currentTurn != Some(id))
  {
    HandleActionSpec(s, id, msg);
    var (s1, processed, advance) := AfterHandleAction(s, id, msg);
    NextTurnSpec(s1);
  }

  // ---------------------------------------------------------------- projection

  datatype PlayerSummary = PlayerSummary(name: string, handSize: nat)

  /** The dictionary `get_game_state` builds for one player. */
  datatype View = View(
    myHand: seq<string>,
    myId: PlayerId,
    players: map<PlayerId, PlayerSummary>,
    deckSize: nat,
    discardTop: Option<string>,
    currentTurn: Option<PlayerId>,
    started: bool,
    order: seq<PlayerId>)

  /** `get_game_state(player_id)`. */
  function Project(s: GameState, viewer: PlayerId): Option<View> {
    if viewer !in s.players then None
    else Some(View(
      HandStrings(s.players[viewer].hand),
      viewer,
      map id | id in s.players :: PlayerSummary(s.players[id].name, |s.players[id].hand|),
      |s.deck|,
      if s.discardPile == [] then None else Some(CardString(s.discardPile[|s.discardPile| - 1])),
      s.currentTurn,
      s.started,
      s.order))
  }

  /** The strings a hand is shown as read back as the hand's cards, position by position. */
  lemma HandStringsParse(hand: seq<Card>)
    ensures forall i :: 0 <= i < |hand| ==> ParseCard(HandStrings(hand)[i]) == Some(hand[i])
  {
    forall i | 0 <= i < |hand| ensures ParseCard(HandStrings(hand)[i]) == Some(hand[i]) {
      ParseCardString(hand[i]);
    }
  }

  /**
   * The view is None for an unknown id. Otherwise it shows the caller's own hand as strings
   * that decode to exactly the held cards, in order; every player's name and hand size; the
   * deck size; the top of the discard pile, if any; the viewer's id, the turn holder, whether
   * the game is started and the turn order.
   */
  lemma ProjectSpec(s: GameState, viewer: PlayerId)
    ensures var v := Project(s, viewer);
      && (v.None? <==> viewer !in s.players)
      && (v.Some? ==>
            var hand := s.players[viewer].hand;
            && |v.value.myHand| == |hand|
            && (forall i :: 0 <= i < |hand| ==> ParseCard(v.value.myHand[i]) == Some(hand[i]))
            && v.value.players.Keys == s.players.Keys
            && (forall id :: id in s.players ==>
                  v.value.players[id] == PlayerSummary(s.players[id].name, |s.players[id].hand|))
            && v.value.myId == viewer
            && v.value.deckSize == |s.deck|
            && (v.value.discardTop.None? <==> s.discardPile == [])
            && (v.value.discardTop.Some? ==>
                  ParseCard(v.value.discardTop.value) == Some(s.discardPile[|s.discardPile| - 1]))
            && v.value.currentTurn == s.currentTurn
            && v.value.started == s.started
            && v.value.order == s.order)
  {
    if viewer in s.players {
      var v := Project(s, viewer).value;
      HandStringsParse(s.players[viewer].hand);
      assert v.myHand == HandStrings(s.players[viewer].hand);
      if s.discardPile != [] {
        ParseCardString(s.discardPile[|s.discardPile| - 1]);
      }
    }
  }

  /** Two states that differ at most in the contents of hands other than the viewer's, sizes equal. */
  ghost predicate SameButHiddenHands(s1: GameState, s2: GameState, viewer: PlayerId) {
    && s1.players.Keys == s2.players.Keys
    && (forall id :: id in s1.players ==>
          && s1.players[id].name == s2.players[id].name
          && |s1.players[id].hand| == |s2.players[id].hand|
          && (id == viewer ==> s1.players[id].hand == s2.players[id].hand))
    && s1.order == s2.order && s1.deck == s2.deck && s1.discardPile == s2.discardPile
    && s1.currentTurn == s2.currentTurn && s1.started == s2.started
  }

  /** Hidden information: what a player is shown does not depend on the cards in others' hands. */
  lemma ProjectHidesOtherHands(s1: GameState, s2: GameState, viewer: PlayerId)
    requires SameButHiddenHands(s1, s2, viewer)
    ensures Project(s1, viewer) == Project(s2, viewer)
  {
    if viewer in s1.players {
      var m1 := map id | id in s1.players :: PlayerSummary(s1.players[id].name, |s1.players[id].hand|);
      var m2 := map id | id in s2.players :: PlayerSummary(s2.players[id].name, |s2.players[id].hand|);
      assert m1.Keys == m2.Keys;
      forall id | id in m1 ensures m1[id] == m2[id] {
        assert s1.players[id].name == s2.players[id].name;
      }
      assert m1 == m2;
    }
  }

  // ---------------------------------------------------------------- the Game object

  /** The server's `Game`: the same state in fields, changed in place by its methods. */
  class Game {
    var players: map<PlayerId, Player>
    var deck: Deck
    var currentTurn: Option<PlayerId>
    var discardPile: seq<Card>
    var order: seq<PlayerId>
    var started: bool
    var hasDiscarded: bool

    /** The fields as a GameState value. */
    function State(): GameState
      reads this, deck
    {
      GameState(players, order, deck.cards, discardPile, currentTurn, hasDiscarded, started)
    }

    ghost predicate Inv()
      reads this, deck
    {
      Valid(State())
    }

    /** `Game()`; `shuffled` is the order of the freshly shuffled deck. */
    constructor (shuffled: seq<Card>)
      requires IsShuffledDeck(shuffled)
      ensures State() == Initial(shuffled)
      ensures Inv() && Conserved(State())
    {
      players := map[];
      deck := new Deck(shuffled);
      currentTurn := None;
      discardPile := [];
      order := [];
      started := false;
      hasDiscarded := false;
      new;
      EmptyHands(map[], []);
    }

    method AddPlayer(id: PlayerId, name: string := DefaultName) returns (p: Option<Player>)
      requires Inv()
      modifies this
      ensures Inv() && deck == old(deck)
      ensures (State(), p) == AfterAddPlayer(old(State()), id, name)
    {
      ghost var s0 := State();
      p := None;
      if !started && id !in players {
        var player := Player(name + " " + NatToDecimal(|players| + 1), id, []);
        players := players[id := player];
        order := order + [id];
        p := Some(player);
      }
      AddPlayerSpec(s0, id, name);
    }

    /** `next_turn`, callable in any state; from a state meeting the invariant it keeps it. */
    method NextTurn()
      modifies this
      ensures old(Inv()) ==> Inv()
      ensures deck == old(deck)
      ensures State() == AfterNextTurn(old(State()))
    {
      ghost var s0 := State();
      if started && order != [] && currentTurn.Some? {
        match IndexOf(order, currentTurn.value)
        case Some(i) =>
          currentTurn := Some(order[(i + 1) % |order|]);
          hasDiscarded := false;
        case None =>
          currentTurn := Some(order[0]);
          hasDiscarded := false;
      }
      assert State() == AfterNextTurn(s0);
      if Valid(s0) {
        NextTurnSpec(s0);
      }
    }

    method RemovePlayer(id: PlayerId)
      requires Inv()
      modifies this
      ensures Inv() && deck == old(deck)
      ensures State() == AfterRemovePlayer(old(State()), id)
    {
      ghost var s0 := State();
      RemovePlayerValid(s0, id);
      if id in players {
        if currentTurn == Some(id) {
          NextTurn();
        }
        assert State() == PassTurnFrom(s0, id);
        DropPlayer(id);
      }
    }

    /** The second half of remove_player: out of the order and the registry, and the game stops below two. */
    method DropPlayer(id: PlayerId)
      requires id in players
      modifies this
      ensures deck == old(deck)
      ensures var s := old(State());
        var ps := s.players - {id};
        State() == s.(order := if id in s.order then RemoveFirst(s.order, id) else s.order, players := ps,
                      started := if s.started && |ps| < MinPlayers then false else s.started)
    {
      ghost var s := State();
      if id in order {
        order := RemoveFirst(order, id);
      }
      players := players - {id};
      if started && |players| < MinPlayers {
        started := false;
      }
      assert State() == s.(order := order, players := players, started := started);
    }

    /** `start_game(cards_per_player)`; `shuffled` is the order of the new deck. */
    method StartGame(shuffled: seq<Card>, cardsPerPlayer: int := DefaultCardsPerPlayer) returns (ok: bool)
      requires Inv() && IsShuffledDeck(shuffled)
      modifies this
      ensures Inv()
      ensures (State(), ok) == AfterStartGame(old(State()), shuffled, cardsPerPlayer)
    {
      ghost var s0 := State();
      StartGameSpec(s0, shuffled, cardsPerPlayer);
      if !started && |players| >= MinPlayers {
        FreshDeal(shuffled, cardsPerPlayer);
        ok := true;
      } else {
        ok := false;
      }
    }

    /** The successful part of start_game: a new deck, an empty pile, the deal and the first turn. */
    method FreshDeal(shuffled: seq<Card>, cardsPerPlayer: int)
      requires Valid(State()) && !started && |players| >= MinPlayers && IsShuffledDeck(shuffled)
      modifies this
      ensures State() == AfterStartGame(old(State()), shuffled, cardsPerPlayer).0
    {
      ghost var s0 := State();
      var d := new Deck(shuffled);
      deck := d;
      discardPile := [];
      hasDiscarded := false;
      DealAll(d, cardsPerPlayer);
      ghost var dealt := DealRounds(s0.players, shuffled, s0.order, if cardsPerPlayer < 0 then 0 else cardsPerPlayer);
      assert players == dealt.0 && d.cards == dealt.1;
      if order != [] {
        currentTurn := Some(order[0]);
      }
      started := true;
      assert State() == s0.(players := dealt.0, deck := dealt.1, discardPile := [], hasDiscarded := false,
                            currentTurn := if s0.order != [] then Some(s0.order[0]) else s0.currentTurn,
                            started := true);
    }

    /** The dealing loops of start_game: `cardsPerPlayer` rounds from `d`. */
    method DealAll(d: Deck, cardsPerPlayer: int)
      requires forall id :: id in order ==> id in players
      modifies this, d
      ensures (players, d.cards)
              == DealRounds(old(players), old(d.cards), old(order), if cardsPerPlayer < 0 then 0 else cardsPerPlayer)
      ensures deck == old(deck) && order == old(order) && started == old(started)
      ensures currentTurn == old(currentTurn) && discardPile == old(discardPile)
      ensures hasDiscarded == old(hasDiscarded)
    {
      ghost var rounds: nat := if cardsPerPlayer < 0 then 0 else cardsPerPlayer;
      ghost var dealt := DealRounds(players, d.cards, order, rounds);
      var r := 0;
      while r < cardsPerPlayer
        invariant 0 <= r <= rounds
        invariant deck == old(deck) && order == old(order) && started == old(started)
        invariant currentTurn == old(currentTurn) && discardPile == old(discardPile)
        invariant hasDiscarded == old(hasDiscarded)
        invariant players.Keys == old(players).Keys
        invariant DealRounds(players, d.cards, order, rounds - r) == dealt
      {
        DealOneRound(d);
        r := r + 1;
      }
    }

    /** The inner loop of start_game: one card from `d` to each player in the order. */
    method DealOneRound(d: Deck)
      requires forall id :: id in order ==> id in players
      modifies this, d
      ensures (players, d.cards) == DealRound(old(players), old(d.cards), old(order))
      ensures deck == old(deck) && order == old(order) && started == old(started)
      ensures currentTurn == old(currentTurn) && discardPile == old(discardPile)
      ensures hasDiscarded == old(hasDiscarded)
    {
      ghost var start := (players, d.cards);
      var j := 0;
      while j < |order|
        invariant 0 <= j <= |order|
        invariant deck == old(deck) && order == old(order) && started == old(started)
        invariant currentTurn == old(currentTurn) && discardPile == old(discardPile)
        invariant hasDiscarded == old(hasDiscarded)
        invariant players.Keys == start.0.Keys
        invariant (players, d.cards) == DealRound(start.0, start.1, order[..j])
      {
        var pid := order[j];
        DealRoundSnoc(start.0, start.1, order, j);
        ghost var before := (players, d.cards);
        var card := d.DealCard();
        if card.Some? {
          players := players[pid := AddCard(players[pid], card)];
        }
        assert (players, d.cards) == DealTo(before.0, before.1, pid);
        j := j + 1;
      }
      assert order[..|order|] == order;
    }

    /** `get_game_state(player_id)`: the dictionary built from the fields is the projection of the state. */
    function GetGameState(playerId: PlayerId): (v: Option<View>)
      reads this, deck
      ensures v == Project(State(), playerId)
    {
      if playerId !in players then None
      else
        var summaries := map id | id in players :: PlayerSummary(players[id].name, |players[id].hand|);
        var top := if discardPile == [] then None else Some(CardString(discardPile[|discardPile| - 1]));
        Some(View(HandStrings(players[playerId].hand), playerId, summaries, deck.Size(), top,
                  currentTurn, started, order))
    }

    method HandleAction(id: PlayerId, msg: ActionMsg) returns (processed: bool, advance: bool)
      requires Inv()
      modifies this, deck
      ensures Inv() && deck == old(deck)
      ensures (State(), processed, advance) == AfterHandleAction(old(State()), id, msg)
    {
      ghost var s0 := State();
      HandleActionSpec(s0, id, msg);
      if !started || currentTurn != Some(id) {
        return false, false;
      }
      processed, advance := false, false;
      if msg.action == Some(DiscardAction) {
        if !hasDiscarded && msg.card.Some? && msg.card.value != "" {
          var toRemove := FindCard(players[id].hand, msg.card.value);
          if toRemove.Some? {
            ghost var i := IndexOf(HandStrings(players[id].hand), msg.card.value).value;
            FirstMatch(players[id].hand, msg.card.value, i);
            DiscardCard(id, toRemove.value, i);
            processed := true;
          }
        }
      } else if msg.action == Some(DrawAction) {
        if hasDiscarded && |deck.cards| > 0 {
          DrawCard(id);
          processed, advance := true, true;
        }
      }
    }

    /** The discard branch of handle_action: `hand.remove(card)` then onto the pile. */
    method DiscardCard(id: PlayerId, card: Card, ghost i: nat)
      requires id in players && i < |players[id].hand| && players[id].hand[i] == card
      requires forall k :: 0 <= k < i ==> players[id].hand[k] != card
      modifies this
      ensures deck == old(deck) && State() == Discard(old(State()), id, i)
    {
      var player := players[id];
      RemoveFirstAt(player.hand, i);
      players := players[id := player.(hand := RemoveFirst(player.hand, card))];
      discardPile := discardPile + [card];
      hasDiscarded := true;
    }

    /** The draw branch of handle_action: the top card of the deck into the hand. */
    method DrawCard(id: PlayerId)
      requires id in players
      modifies this, deck
      ensures deck == old(deck) && State() == Draw(old(State()), id)
    {
      var drawn := deck.DealCard();
      players := players[id := AddCard(players[id], drawn)];
      hasDiscarded := false;
    }

    /** The connection handler's treatment of one action: handle it, then advance the turn if asked. */
    method Step(id: PlayerId, msg: ActionMsg) returns (processed: bool)
      requires Inv()
      modifies this, deck
      ensures Inv() && deck == old(deck)
      ensures (State(), processed) == AfterStep(old(State()), id, msg)
    {
      ghost var s0 := State();
      StepSpec(s0, id, msg);
      var advance;
      processed, advance := HandleAction(id, msg);
      if processed && advance {
        NextTurn();
      }
    }
  }
}
