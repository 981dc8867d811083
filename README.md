# Card game sessions: the server engine, the template engine and the client's image keys

This project models, in Dafny, the rules core of a small multiplayer card game written in
Python. A server holds the one authoritative copy of the game: the deck, the discard pile, the
players' hands, the turn order and whose turn it is. It accepts actions from players and sends
each player a view of the game that shows only their own hand. The repository has two engines
of this kind, and the model covers both:

- **The server engine** (`card_game_server.py`). It has `Card`, `Deck`, `Player` and `Game`.
  `Game` registers and removes players, deals a fresh 52-card deck round-robin, and cycles the
  turn through a fixed player order. On a turn a player first discards one named card and then
  draws the top card; the draw passes the turn on.
- **The template engine** (`cardGameTemplate/game_logic.py`). It is a simpler relative. The
  player list is the dictionary's insertion order, five cards are dealt, a draw keeps the turn,
  and a discard passes it on.
- **The clients' key helpers** (`card_game.py` and `cardGameTemplate/client.py`). They turn a
  card's display string, such as `Ace of Spades`, into the key of its image, such as
  `ace_of_spades`. They also turn an image file name into the key the image is stored under.

## How the model is built

- **Values and their specification.** Each engine's state is a value (`GameState`). Each
  operation is a function from the old state to the new one: `AfterAddPlayer`,
  `AfterStartGame`, `AfterHandleAction` and so on. Lemmas state what each operation promises.
  - the invariant `Valid` holds again afterwards;
  - the exact success and failure conditions hold, with both directions of each "if and only if";
  - on failure, nothing changes;
  - the multiset of all cards in the deck, the hands and the pile is unchanged (`AllCards`).
- **The objects themselves.** The source's objects are `class`es with the same fields: `Game`
  and `Deck` in each engine. Their methods change those fields in place, with the same loops as
  the source. Each method's contract ties the new state to the specification function:
  `State() == AfterStartGame(old(State()), ...)`.
- **Details taken from the code.**
  - The deck is a `seq<Card>` whose top is the last element, as with Python's `list.pop()`.
  - A hand is a `seq` in insertion order.
  - The players are a `map` from ids to `Player` values.
  - The template engine's dictionary order is an explicit key list (`keys`).
  - A template hand is a `seq<Option<Card>>`, because the template deals from an empty deck
    without a guard and stores the `None` it gets.
- **Parameters instead of I/O and randomness.**
  - `random.shuffle` is replaced by a parameter: the order the shuffle produced. The model only
    asks that it is a permutation of what was shuffled (`IsShuffledDeck`).
  - The clients' connections, threads, `pickle` and the lock are outside the model.
  - Players are identified by an `int` id, where the source uses socket addresses.

Some behaviours of the code are stated as they are, not corrected:

- The server's `remove_player` drops the removed player's hand. Those cards leave the game:
  `RemovePlayerSpec` states the exact loss.
- The server refuses `start_game` while a game is started. After a game stops (a player leaves
  and fewer than two remain), a new start deals a fresh deck but does not clear the remaining
  hands. The game then holds more than 52 cards. So `StartFromEmptyHandsConserves` states the
  52-card conservation only for a start from empty hands. `StartGameSpec` states the general
  count: the new deck plus the old hands.
- The template's `start_game` neither checks whether a game is already running nor clears the
  discard pile. It reshuffles only the cards still in the deck. A restart therefore keeps every
  card exactly once (`StartGameConserves`), but the hands grow.
- The template's `handle_action` does not check `game_started`. A turn is only ever set by
  `start_game`, so the invariant ties "someone holds the turn" to "the game is started", and no
  action is accepted before a start.
- The fallback in the server's `next_turn` never runs. It gives the turn to the first player,
  or to nobody when the order is empty. In a started game the current player is always in the
  order (`Valid`), and when the game is not started `next_turn` returns early. A stopped game
  can still name a departed player as turn holder: with players 1 and 2 started, remove 2 (the
  game stops), then 1, and the turn still names 1 with an empty order (`TwoPlayersStart`,
  `StaleTurnAfterStop`).
  `NextTurnSpec` covers both cases.
- The modelled server handles only two actions. `discard_card` takes out the single named card,
  and `draw_card` takes the top card of the deck. Group discards, a pending-discard buffer,
  drawing from the discard pile, a same-rank skip, `show`/`new_game` and an opening discard are
  designs that this code does not contain, so the model does not have them either.

## Model

| member | source | states |
|---|---|---|
| Cards.NewCard | card_game_server.py:15-21 | A card is built exactly when both names are in the suit and rank lists. Otherwise the suit is checked first (InvalidSuit), then the rank (InvalidRank). |
| Cards.ParseCardString | card_game_server.py:23-24 | A card's display string `<rank> of <suit>` reads back as that same card. |
| Cards.CardStringInjective | card_game_server.py:23-24 | Two cards with the same display string are the same card, so a string names at most one card. |
| Cards.FullDeckExact | card_game_server.py:32 | The built deck has 52 cards, no repeats, and every suit-rank pair exactly once. |
| Cards.ShuffledDeckExact | card_game_server.py:31-37 | Any permutation of the built deck also has 52 cards, each exactly once. |
| Cards.Pop | card_game_server.py:40-44 | `deal_card` gives None exactly for an empty deck and leaves it alone. Otherwise it gives the last card, and the rest plus that card is the old deck. |
| ServerGame.Deck.constructor | card_game_server.py:31-33 | A new deck holds the shuffled order of the 52 built cards. |
| ServerGame.Deck.DealCard | card_game_server.py:40-44 | Pops the top card in place, exactly as `Pop` describes. |
| ServerGame.Deck.Size | card_game_server.py:46-47 | The length is the number of cards left, and it is zero exactly when dealing would give nothing. |
| ServerGame.AddCard | card_game_server.py:57-59 | A card is appended to the end of the hand. None leaves the hand unchanged. The name and id are kept. |
| ServerGame.PlayCard | card_game_server.py:61-66 | A card comes back exactly for an index within the hand. It is the card at that index, the hand loses only that position, and the multiset of cards is conserved. An index out of range changes nothing. |
| ServerGame.Game.constructor | card_game_server.py:73-82 | A new game has no players, an empty pile, no turn, is not started, and holds one deck's cards. |
| ServerGame.AddPlayerSpec | card_game_server.py:84-92 | Registration succeeds exactly when the game is not started and the id is new. On success the id is appended to the order and the player, named `<name> <n+1>` for n earlier players, starts with an empty hand; nothing else changes. On failure nothing changes. The invariant and the cards are kept. |
| ServerGame.Game.AddPlayer | card_game_server.py:84-92 | The in-place registration equals `AfterAddPlayer`, keeps the invariant and leaves the deck alone. |
| ServerGame.NextTurnSpec | card_game_server.py:135-157 | Nothing changes unless the game is started with a turn holder. Otherwise the turn goes to the next id in the order, wrapping round, and the discard flag is cleared. The turn really changes hands. |
| ServerGame.Game.NextTurn | card_game_server.py:135-157 | The in-place turn advance equals `AfterNextTurn` and leaves the deck alone. From a state meeting the invariant it keeps the invariant. It works in any state, with the unreachable fallback modelled. |
| ServerGame.NextTurnsRotate | card_game_server.py:145-147 | After k turns, the holder sits k places further round the order, modulo its length. |
| ServerGame.EveryPlayerGetsTurn | card_game_server.py:145-147 | Fairness: within as many turns as there are players, every registered player holds the turn. |
| ServerGame.RemovePlayerSpec | card_game_server.py:94-109 | An unknown id changes nothing. Otherwise a held turn is first passed on, clearing the discard flag, and the id leaves the order (the others keep their order) and the registry. The game stops when fewer than two players remain. The invariant holds, and exactly the removed hand leaves the game. |
| ServerGame.TwoPlayersStart | card_game_server.py:84-133 | Players 1 and 2 joining a new game with the default name, then a start with the default seven cards, give a valid started game with order [1, 2] and player 1 to move. |
| ServerGame.StaleTurnAfterStop | card_game_server.py:94-109 | From a started game with order [1, 2] and player 1 to move: 2 leaves, then 1 leaves while holding the turn. The result is valid and not started, with no players, an empty order and the turn still naming player 1; `next_turn` then changes nothing (lines 139-141). |
| ServerGame.Game.RemovePlayer | card_game_server.py:94-109 | The in-place removal equals `AfterRemovePlayer`, keeps the invariant and leaves the deck alone. |
| ServerGame.Game.DropPlayer | card_game_server.py:101-109 | Removes the id from the order and the registry and stops the game below two players. |
| ServerGame.StartGameSpec | card_game_server.py:112-133 | The start succeeds exactly when the game is not started and has at least two players. On success the pile is empty, the flag is cleared, the first id in the order holds the turn, every player keeps their name, and the cards are the new deck plus the old hands. On failure nothing changes. |
| ServerGame.StartFromEmptyHandsConserves | card_game_server.py:112-128 | A start from empty hands leaves exactly one deck's 52 cards in the game. |
| ServerGame.StartGameDealsRoundRobin | card_game_server.py:119-124 | Each player gains `cardsPerPlayer` cards, dealt round-robin from the top of the deck, and the deck keeps the rest in order. |
| ServerGame.Game.StartGame | card_game_server.py:112-133 | The in-place start equals `AfterStartGame` and keeps the invariant. |
| ServerGame.Game.FreshDeal | card_game_server.py:116-128 | A new deck, an empty pile, the deal, the first turn and the started flag: the successful state of `AfterStartGame`. |
| ServerGame.Game.DealAll | card_game_server.py:120-124 | The outer dealing loop gives the same hands and deck as `DealRounds`, and touches nothing else. |
| ServerGame.Game.DealOneRound | card_game_server.py:121-124 | The inner loop deals one card to each id in order, as `DealRound` does, and touches nothing else. |
| ServerGame.ProjectSpec | card_game_server.py:171-192 | Unknown ids get None. Otherwise the viewer's own hand is shown as strings that read back as exactly the held cards, in order. The view also has the viewer's id, every player's name and hand size, the deck size, the pile top, if any, the turn holder, the started flag and the turn order. |
| ServerGame.ProjectHidesOtherHands | card_game_server.py:177-191 | Two states that differ only in the contents of other players' hands (same sizes) give the viewer the same view. |
| ServerGame.Game.GetGameState | card_game_server.py:171-192 | The dictionary built from the fields is `Project` of the state. |
| ServerGame.HandleActionSpec | card_game_server.py:194-254 | An action is accepted exactly in two cases: a discard of a held card before discarding, or a draw from a non-empty deck after discarding, by the turn holder of a started game. Anything else returns (False, False) and changes nothing. Only a draw asks for the turn to advance. The invariant and the cards are kept. |
| ServerGame.Game.HandleAction | card_game_server.py:194-254 | The in-place handling equals `AfterHandleAction` and keeps the invariant. |
| ServerGame.FindCard | card_game_server.py:216-220 | The search returns None exactly when no card of the hand prints as the string. Otherwise it returns the first card that does. |
| ServerGame.DiscardMovesNamedCard | card_game_server.py:210-229 | A successful discard removes the first card whose string matches, which is the card the string names, with no equal card before it. |
| ServerGame.DiscardEffect | card_game_server.py:224-227 | A discard removes that one card, keeping the rest of the hand in order, and puts it on top of the pile. It sets the flag. Other players, the deck, the order and the turn stay. |
| ServerGame.Game.DiscardCard | card_game_server.py:222-227 | `hand.remove` plus the pile append equals `Discard` at the matched position. |
| ServerGame.DrawMovesTopCard | card_game_server.py:239-248 | A successful draw moves the deck's top card to the end of the hand, clears the flag, and asks for the turn to advance; nothing else changes. |
| ServerGame.Game.DrawCard | card_game_server.py:243-248 | The in-place draw equals `Draw`. |
| ServerGame.StepSpec | card_game_server.py:346-353 | Handling an action, followed by `next_turn` when asked, keeps the invariant and every card, so 52-card conservation is preserved. A rejected action changes nothing. A successful draw passes the turn to the next player in the order. |
| ServerGame.Game.Step | card_game_server.py:346-353 | The in-place step equals `AfterStep` and keeps the invariant. |
| TemplateGame.SlotStringParse | cardGameTemplate/game_logic.py:11-12 | A hand entry's string reads back as the entry: a card as that card, and `"None"` as no card. |
| TemplateGame.AddCard | cardGameTemplate/game_logic.py:31-32 | Appends the entry, including None, unguarded. |
| TemplateGame.Deck.constructor | cardGameTemplate/game_logic.py:14-16 | A new deck holds the given shuffled order of the 52 built cards. |
| TemplateGame.Deck.DealCard | cardGameTemplate/game_logic.py:22-23 | Pops the top card, or gives None for an empty deck, as `Pop` describes. |
| TemplateGame.Deck.Shuffle | cardGameTemplate/game_logic.py:19-20 | The deck takes the given permutation of its own cards. |
| TemplateGame.InitialSpec | cardGameTemplate/game_logic.py:35-41 | A new game is valid and holds exactly one deck's 52 cards. |
| TemplateGame.Game.constructor | cardGameTemplate/game_logic.py:35-41 | A new game is `Initial` of the shuffled deck, valid and conserved. |
| TemplateGame.AddPlayerSpec | cardGameTemplate/game_logic.py:43-48 | Registration succeeds exactly when the game is not started and the id is new. On success the player takes the given name, an empty hand and the last place in key order. On failure nothing changes. The invariant and the cards are kept. |
| TemplateGame.Game.AddPlayer | cardGameTemplate/game_logic.py:43-48 | The in-place registration equals `AfterAddPlayer` and keeps the invariant. |
| TemplateGame.StartGameSpec | cardGameTemplate/game_logic.py:50-57 | Fewer than two players: nothing changes. Otherwise, started or not, the first key holds the turn, the game is started, and the pile and every player's name stay. The cards are the reshuffled deck, the old hands and the pile. |
| TemplateGame.StartGameConserves | cardGameTemplate/game_logic.py:50-57 | Since the shuffle is a permutation of the deck, a start or restart keeps every card of the game. |
| TemplateGame.StartGameDeals | cardGameTemplate/game_logic.py:53-55 | Each hand gains five entries. The r-th is what lies j + r·n pops down the deck: a card, or None once the deck has run out. The deck keeps what lies below the top 5n entries. |
| TemplateGame.DealtColumn | cardGameTemplate/game_logic.py:53-55 | The same layout for any number k of rounds. |
| TemplateGame.Game.StartGame | cardGameTemplate/game_logic.py:50-57 | The in-place start equals `AfterStartGame` and keeps the invariant. |
| TemplateGame.Game.ShuffleAndDeal | cardGameTemplate/game_logic.py:51-57 | Shuffle, deal, first turn and started flag: the successful state of `AfterStartGame`. |
| TemplateGame.Game.DealAll | cardGameTemplate/game_logic.py:53-55 | The five dealing rounds give the same hands and deck as `DealRounds`, and touch nothing else. |
| TemplateGame.Game.DealOneRound | cardGameTemplate/game_logic.py:54-55 | One entry to each key in order, as `DealRound` does, touching nothing else. |
| TemplateGame.ProjectSpec | cardGameTemplate/game_logic.py:59-68 | Unknown ids get None. Otherwise the own hand is shown as strings that read back as exactly the held entries, with the turn, the deck size and the pile top, if any. |
| TemplateGame.ProjectHidesOtherHands | cardGameTemplate/game_logic.py:59-68 | The view does not depend on any other player's hand. |
| TemplateGame.Game.GetGameState | cardGameTemplate/game_logic.py:59-68 | The dictionary built from the fields is `Project` of the state. |
| TemplateGame.NextKeySpec | cardGameTemplate/game_logic.py:86-88 | The next key is the following key in insertion order, wrapping to the first. It is a registered player, and another one when the game is started. |
| TemplateGame.DrawSpec | cardGameTemplate/game_logic.py:74-78 | A draw moves the top card, if any, to the end of the hand and keeps the turn. An empty deck changes nothing. The invariant and the cards are kept. |
| TemplateGame.Game.DrawCard | cardGameTemplate/game_logic.py:74-78 | The in-place draw equals `Draw`. |
| TemplateGame.DiscardSpec | cardGameTemplate/game_logic.py:79-89 | A discard keeps the invariant and the cards, and passes the turn to another player, the next key. |
| TemplateGame.HandleActionSpec | cardGameTemplate/game_logic.py:70-90 | True exactly in two cases: a draw by the turn holder, or a discard by the turn holder naming an entry of the hand. Otherwise False, with nothing changed. A draw keeps the turn and a discard passes it on. The invariant and the cards are kept. |
| TemplateGame.Game.HandleAction | cardGameTemplate/game_logic.py:70-90 | The in-place handling equals `AfterHandleAction` and keeps the invariant. |
| TemplateGame.FindSlot | cardGameTemplate/game_logic.py:80-83 | The search returns None exactly when the string is None or no entry prints as it. Otherwise it returns the first entry that does. |
| TemplateGame.DiscardMovesNamedEntry | cardGameTemplate/game_logic.py:79-89 | A discard removes the first entry printing as the string, which is the entry the string names, puts it on top of the pile, and passes the turn to the next key. The caller's name, the other players, the deck, the keys and the started flag stay. |
| TemplateGame.Game.DiscardEntry | cardGameTemplate/game_logic.py:84-88 | `hand.remove` plus the pile append and the next-key turn equals `Discard` at the matched position. |
| Seqs.IndexOf | card_game_server.py:145 | `list.index`: None exactly when the element is absent. Otherwise the position of the first occurrence. |
| Seqs.RemoveFirst | card_game_server.py:103 | `list.remove`: deletes the first occurrence and keeps the rest in order. On an absent element Python raises ValueError, where the model returns the list unchanged; every caller checks membership first. |
| Seqs.FindIndex | card_game_server.py:216-220 | The front-to-back scan with a break finds exactly `IndexOf`. |
| Seqs.RemoveFirstElems | card_game_server.py:102-103 | In the duplicate-free order, removing an id removes that id and nothing else, and no repeat appears. |
| CardKeys.CardKeySpec | card_game.py:179-193 | None exactly for a non-string or the empty string. Otherwise a key of the same length: each space becomes `_`, each letter is lowercased, and no space or uppercase letter is left. |
| CardKeys.CardKeyIdempotent | card_game.py:179-193 | Applying the conversion to a key it returned gives the same key. |
| CardKeys.CardKeyOfCard | card_game.py:184-190 | A card's display string converts to `<rank>_of_<suit>`, lowercased. |
| CardKeys.CardKeyDocExample | card_game.py:180 | `Ace of Spades` becomes `ace_of_spades`. |
| CardKeys.CardKeyExample | card_game.py:187-189 | `10 of Hearts` becomes `10_of_hearts`. |
| CardKeys.CardBackImageKey | card_game.py:141-143 | `card_back.png` is stored under `back`. |
| CardKeys.CardImageKeys | card_game.py:139-146 | For every card, both `<key>.png` and `<key>2.png` are stored under the very key the display-name conversion produces. |
| CardKeys.KeyImageFiles | card_game.py:139-146 | For any name with no `.`, other than `card_back`, that does not end in `2`, both `<name>.png` and `<name>2.png` are stored under the name lowercased. |
| CardKeys.StemKey | card_game.py:139-146 | A file whose stem has no `.`, is not `card_back`, and is a name not ending in `2` followed by any number of `2`s, is stored under that name lowercased. |
| CardKeys.MixedCaseImageKey | card_game.py:145-146 | `Jack_of_Clubs2.png` is stored under `jack_of_clubs`: the trailing `2` is stripped and the capitals are lowered. |
| Strings.NatToDecimalExamples | card_game_server.py:87 | `str(1)` is `1` and `str(12)` is `12`, the numbers in the default names of the first and twelfth player. |
| Strings.RStrip | card_game.py:146 | `rstrip('2')` leaves a prefix that does not end in `2`, and everything stripped was `2`. |
| Strings.ReplaceAllSuffix | card_game.py:141 | Replacing `.png` in `<stem>.png`, where the stem has no `.`, removes exactly the final `.png`. |
| TemplateClient.CardStrToKeySpec | cardGameTemplate/client.py:48-50 | The key has the same length: each space becomes `_`, each letter is lowercased, and no space or uppercase letter is left. |
| TemplateClient.AgreesWithDisplayNameKey | cardGameTemplate/client.py:48-50 | On non-empty strings it agrees with the main client's conversion. The empty string maps to itself, where that conversion gives None. |
| TemplateClient.CardStrToKeyOfCard | cardGameTemplate/client.py:48-50 | A card's display string converts to `<rank>_of_<suit>`, lowercased. |
| TemplateClient.CardStrToKeyExample | cardGameTemplate/client.py:49 | `10 of clubs` becomes `10_of_clubs`. |
| TemplateClient.CardStrToKeyCardExample | cardGameTemplate/client.py:49 | The ten of clubs' display string becomes `10_of_clubs`. |

## Left out

- Networking, threads, `pickle` and the `RLock`. The lock serialises every `Game` method, so each method is modelled as one atomic step. `Game.Step` is the exception: `handle_action` and `next_turn` take the lock separately (card_game_server.py:346-353), so another thread's `remove_player` could run between them. The model runs them back to back.
- `random.shuffle` is replaced by a parameter: the resulting order, required to be a permutation of the shuffled cards.
- Console output (`print`) and the failure branches that only print. The `try`/`except` around `hand.remove` in the server's discard is also left out, because that remove cannot fail.
- The `except Exception` branch of the server's `next_turn`. Nothing in its `try` block can raise anything but the `ValueError` that is modelled.
- `Card.__repr__` and `Player.__str__`, which serve only for printing.
- The template's `Card` does no validation. The model uses the one `Card` type with its 52 suit-rank pairs, which are the only cards the template's deck ever builds.
- Players are values in a map, not shared objects. Each Python method changes one player through one reference, so no aliasing is lost.
- `list.remove` compares cards by identity in Python. The model removes the matched position, and proves that no equal card comes before it, so the same card leaves the hand.
- Client-side rendering, click handling, `os.listdir` and image loading. Only the two key derivations are modelled.
- Strings.ToLower: lowercases ASCII letters only, where Python's `str.lower` covers all of Unicode. Card names and file names are ASCII.
- ServerGame.StartGameDealsRoundRobin: states the card layout only when `cardsPerPlayer` times the number of players fits in the deck. Beyond that, only the key set and the card count are proved (`StartGameSpec`).
- ServerGame.StartFromEmptyHandsConserves: states 52-card conservation only for a start from empty hands, because a restart after a stop keeps the old hands (see above).
