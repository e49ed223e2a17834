# Hanabi game engine — a Dafny model

This project models the per-game turn engine and the per-viewer state
projection of a Hanabi session server (`seveneightn9ne/hanabi-server`, Go).
The server keeps a registry of named games. Each game is configured for 2 to 5
players and holds:

- the joined players as session tokens in join order, and their display names;
- a hand per session;
- a pile per color on the board;
- a discard pile;
- hint and mistake ("bomb") tokens;
- the index of the player whose turn it is, or -1 once the game is finished;
- a turn log;
- the deck.

The model covers:

- **Cards** (`cards.dfy`): colors, ranks, per-rank copy counts, move kinds, moves, cards, turn records and hidden cards.
- **Deck** (`deck.dfy`): construction of the 50-card deck from a permutation of its slots. The nested loops write each (color, rank) copy into the slot the permutation assigns it, and each card takes its slot as its id.
- **Tables** (`table.dfy`): a game's fields as one value (`Table`), the invariant a game keeps, Go's missing-key map semantics, card bookkeeping (`AllCards`) and the pile top.
- **Rules** (`rules.dfy`): joining (`AddPlayer`) and moving (`MoveResult`, with `PlayCard` for the Play branch) as functions from state to state, plus the properties they keep. The validity predicate of the Hint move that the tests describe is here too.
- **View** (`view.dfy`): what `getState` returns to one viewer. That is the player names, the board, the discard pile, the viewer's own hand as ids only, every other hand keyed by name, the status, and the turns since a cursor. It comes with the hidden-information and turn-status lemmas.
- **Games** (`game.dfy`): the mutable objects. `Game` is a class with the fields above. Its methods update them in place and are proved to agree with the functions of Rules and View. `Registry` holds the list of games and implements starting and joining a game.

Where the source revisions differ, the model uses the newer field layout: players are session tokens, names live in a separate map, and hands are keyed by session. `JoinGame` therefore takes the new player's session token as a parameter. Its duplicate scan compares display names, as the older revision in `join_game.go` compares player entries against the requested name.

Where the game's rules or the tests and the code disagree, the model follows the code:

- a join deals no cards;
- a Play never advances the turn and never logs a turn;
- a Play always reports an error, even after it has changed the game;
- Discard and Hint change nothing;
- running out of mistake tokens does not end the game.

## Model

| member | source | states |
|---|---|---|
| Cards.ColorCode | game.go:11-19 | a color's integer code is its position in the declaration order |
| Cards.ConstantsAgree | game.go:11-21 | the six declared colors are pairwise distinct; the deck colors are the first five; the ranks are 1..5 ascending; the copy counts 3,2,2,2,1 sum to ten per color |
| Cards.MoveTypeOf | game.go:5-10 | codes 0, 1, 2 denote Hint, Play, Discard (each iff), and every other code is unrecognized and keeps its value |
| Cards.Move.Kind | game.go:23-24 | a move's kind is decoded from its submitted integer code: unrecognized iff the code is outside 0..2, and it encodes back to that code |
| Cards.MoveTypeRoundTrip | game.go:5-10 | decoding then encoding a move code gives the code back, so no two codes decode to the same kind |
| Cards.Hide | get_state.go:121 | a hidden card keeps the card's id and nothing else |
| Deck.RunAt | start_game.go:43-45 | inside one color's run of ten slots, rank n occupies exactly the Copies[n] slots starting at Starts[n], all of that color |
| Deck.LoopWritesLength | start_game.go:42-54 | the nested loops make ten writes per color they range over |
| Deck.LoopWritesAt | start_game.go:42-54 | write number 10*ci + k is the k-th pair of color ci's run |
| Deck.StepKind | start_game.go:42-54 | step 10*ci + Starts[n] + d of the loops writes color ci of the deck colors with rank Numbers[n] |
| Deck.LayoutKind | start_game.go:42-49 | every step writes a deck color and a rank from Numbers |
| Deck.Layout | start_game.go:38 | over the five deck colors the loops make exactly 5*(3+2+2+2+1) = 50 writes |
| Deck.SixColorsOverrun | start_game.go:42-46 | ranging over all six declared colors would make 60 writes against a 50-entry permutation |
| Deck.WriteStep | start_game.go:46-51 | writing one step's card keeps every earlier step's card, since the permutation sends different steps to different slots |
| Deck.NewDeck | start_game.go:37-56 | given a permutation of 0..49, the deck has 50 cards; the card in slot i has id i; every card has a deck color and a rank from Numbers; write p lands in slot order[p] |
| Deck.ScatteredCards | start_game.go:46-50 | every slot of a deck scattered through a permutation is written: slot i holds id i, a deck color and a rank from Numbers |
| Deck.SlotsInImage | start_game.go:42-54 | a slot holding a given color and rank was written by one of that color and rank's steps |
| Deck.ImageInSlots | start_game.go:42-54 | each step of a given color and rank writes a slot holding that color and rank |
| Deck.DeckMultiplicity | start_game.go:42-54 | in a deck built from a permutation, each deck color holds rank Numbers[n] exactly Copies[n] times |
| Tables.Lookup | get_state.go:119 | a missing map key reads as an empty hand or pile |
| Tables.NameOf | get_state.go:64 | a missing name reads as the empty string |
| Tables.EmptyBoard | get_state_test.go:28-35 | a new board has exactly the deck colors as keys, each with an empty pile |
| Tables.NewTable | start_game.go:26-32 | a new game has no players, no names, no hands, an empty log, turn 0, the given deck, 8 hint and 3 mistake tokens, an empty discard pile and empty piles for the five deck colors |
| Tables.NewTableCards | start_game.go:26-32 | a new game holds exactly the cards of its deck |
| Tables.NewTableValid | start_game.go:26-32 | a new game with a 2..5 player count and a deck of game cards satisfies the game invariant |
| Tables.IndexOf | move.go:94-101 | the result is None iff the session is absent, else the position of its first occurrence |
| Tables.IndexOfDistinct | move.go:94-101 | among distinct players, the search finds each player's own position |
| Tables.FindCard | move.go:55-58 | the result is None iff no held card has the id, else the position of the first card that has it |
| Tables.Without | move.go:55-58 | removing one card leaves a hand one shorter whose multiset plus that card is the old hand's |
| Tables.TakeCard | move.go:55-58 | taking a card by id is None iff no held card has that id; otherwise the card has that id and the rest plus the card is the old hand as a multiset |
| Tables.Draw | move.go:81 | drawing is None iff the deck is empty; otherwise the drawn card plus the remaining deck is the old deck as a multiset, with the deck one shorter |
| Tables.TopRank | move.go:59-61 | the top rank of a pile is its last card's rank, an empty pile counting as 0 |
| Tables.TopRankOfOrdered | move.go:59-61 | an ordered pile's top rank is its height |
| Tables.TopAsWritten | move.go:60 | the top read as written faults exactly on an empty pile and otherwise agrees with TopRank |
| Tables.FirstPlayFaults | move.go:59-60 | on a new game's board, the top read as written faults for every deck color |
| Rules.AddPlayer | join_game.go:19-28 | a full game is refused first, then a taken name; it succeeds iff neither holds, and on success the session is appended last and the name map gains exactly that session's name, other names unchanged; hands, board, deck, discard pile, turns and tokens never change |
| Rules.AddPlayerConservesCards | join_game.go:27 | a join by a session that holds no hand moves no card: deck, hands, board and discard hold the same cards before and after |
| Rules.AddPlayerKeepsValid | join_game.go:19-27 | a join of a new session keeps the invariant, so the player count never exceeds the configured number and names stay distinct |
| Rules.PlaceCard | move.go:59-79 | placing a card changes only the board, the discard pile and the tokens; hands, deck, players, turn index and log are unchanged |
| Rules.PlayCard | move.go:59-82 | playing a taken card leaves the players, names, turn index and log unchanged |
| Rules.PlaceIgnoresHands | move.go:59-79 | where a card is placed never depends on the hands |
| Rules.PlayCardAfterTake | move.go:55-82 | playing from a hand the card was already removed from has the same effect as playing it with the rest of the hand |
| Rules.MoveResult | move.go:45-91 | only an in-turn Play of a held card changes the game; an unknown session reports SessionNotInGame, a player out of turn NotYourTurn with their index, an in-turn Play of an unheld id CardNotInHand with that id, an in-turn Discard or Hint ToBeAccomplished, an unknown code UnrecognizedMoveType with that code, each with nothing changed; an accepted Play also reports ToBeAccomplished; a finished game changes nothing; players, names, turn index and log never change |
| Rules.PlayOutcome | move.go:59-82 | a card one above its pile's height goes on that pile alone (a 5 earns a hint token below 8); any other card costs exactly one mistake token and goes to the discard pile, the board untouched; the deck's top card is appended to the mover's hand; other hands are untouched |
| Rules.PlaceOutcome | move.go:59-79 | in a valid game a card one above its pile's height goes on that pile alone (a 5 earns a hint token below 8); any other card costs exactly one mistake token and goes to the discard pile, the board untouched |
| Rules.PlaceKeepsValid | move.go:59-79 | placing a game card keeps the piles ordered and at most five high and the hints within 0..8 |
| Rules.RedealKeepsValid | move.go:81-82 | giving a joined player a hand of game cards, with a deck of game cards, keeps the invariant |
| Rules.MoveKeepsValid | move.go:54-84 | every move keeps the invariant: hints within 0..8, piles ordered and at most five high, mistakes at most 3, game cards only |
| Rules.PlaceCardPlaces | move.go:59-79 | the piles and the discard pile together gain exactly the played card |
| Rules.PlayCardDraws | move.go:81-82 | the mover's hand becomes the rest of the hand plus the deck's top card (if any), which the deck loses, other hands unchanged |
| Rules.PlayCardHandDeck | move.go:54-82 | when the played card came out of the mover's hand, the mover's hand and the deck together lose exactly the played card |
| Rules.PlayCardConserves | move.go:54-82 | playing a taken card neither creates nor loses a card across deck, hands, board and discard |
| Rules.MoveConservesCards | move.go:41-92 | no move creates or loses a card, given that taking a card removes it from the hand (the modelled body of `getCardFromHand`, which is defined outside the files this model covers) |
| Rules.HintIdsCorrectIff | move_test.go:25-55 | a hint's card ids are acceptable iff every cited id is a held card matching the hinted color or rank, and every matching held card is cited |
| View.NamesUpTo | get_state.go:62-65 | the names list has one entry per joined player, in join order |
| View.NamesIgnoreHands | get_state.go:62-65 | the names list never depends on the hands |
| View.ExportBoard | get_state.go:93-103 | the exported board equals the board: the same colors with the same piles |
| View.TurnsSince | get_state.go:85 | the turns from the cursor on, appended to the turns before it, make up the whole log |
| View.NamesDiffer | join_game.go:22-26 | two different joined players of a valid game have different names |
| View.ValidHandNamesDistinct | get_state.go:105-115 | in a valid game no two hands share a holder name, so keying hands by name loses none |
| View.OtherHands | get_state.go:105-115 | every hand but the viewer's appears in full under its holder's name, and every key is such a holder's name |
| View.OwnHandNotShown | get_state.go:108-111 | the viewer's own name is never a key of the other hands |
| View.HiddenPlayerHand | get_state.go:117-124 | one hidden card per held card, in the same order, carrying that card's id |
| View.Status | get_state.go:71-84 | not started iff fewer players than configured; finished iff started with turn -1; your turn iff started, not finished, and the turn index names the viewer; else waiting |
| View.ExactlyOneYourTurn | get_state.go:78-84 | in a started, unfinished valid game exactly one joined player is told it is their turn and every other is told to wait |
| View.ValidCanSummarize | get_state.go:56-91 | every valid game, with a cursor within its log, meets the summary's precondition |
| View.Summary | get_state.go:56-91 | the response carries the names, board, discard pile, hidden own hand, other hands and status; before the start no turns and cursor 0; afterwards the seen prefix plus the returned turns is the whole log, and the new cursor is its length |
| View.CursorResumes | get_state.go:85-89 | polling again with the returned cursor returns exactly the turns logged since |
| View.HiddenIgnoresOwnCards | get_state.go:117-124 | the hidden own hand depends only on the ids of the viewer's cards |
| View.OthersAgree | get_state.go:105-115 | the other hands depend only on the names and on hands other than the viewer's |
| View.OthersIncluded | get_state.go:105-115 | a name shown among the other hands of one table is shown with the same hand in any table that agrees on names and on every hand but the viewer's |
| View.ViewIgnoresOwnCards | get_state.go:56-91 | replacing the colors and ranks of the viewer's own cards (same ids, same order) leaves the response unchanged |
| Games.Game.constructor | start_game.go:26-32 | a new game is the new-game value for its deck, satisfies the invariant, and holds exactly its deck's cards, which become its fixed card set |
| Games.Game.PlayerIndex | move.go:94-101 | the linear search returns the session's first position, or None when it has not joined |
| Games.Game.Join | join_game.go:19-28 | the new state and the error are AddPlayer's, the invariant is kept, and the game still holds exactly its card set |
| Games.Game.GetCardFromHand | move.go:55 | when the hand holds the id, the card comes back and is removed from the hand; otherwise nothing changes |
| Games.Game.DrawCard | move.go:81 | the deck's first card is returned and removed; with an empty deck nothing changes |
| Games.Game.Place | move.go:59-79 | the in-place updates of placing a card produce exactly PlaceCard's state |
| Games.Game.PlaceAndDraw | move.go:59-82 | the in-place updates of a Play produce exactly PlayCard's state |
| Games.Game.LockingMove | move.go:41-92 | the new state and the error are MoveResult's, a valid game stays valid, and a valid game holding exactly its card set still does |
| Games.Game.GetState | get_state.go:56-91 | the loop-built response equals Summary, and the game is not written |
| Games.Registry.constructor | game.go:54 | the registry starts empty and valid |
| Games.Registry.Add | start_game.go:33 | appending a valid game under an unused name keeps names unique and every game valid |
| Games.DeckCardsOk | start_game.go:30 | a freshly built deck holds only cards of a deck color and a rank 1..5 |
| Games.Registry.FindGame | start_game.go:18-22 | the scan finds a game iff one has the requested name, and then the position of one with that name |
| Games.Registry.NewGame | start_game.go:26-32 | the created game has the requested name and count, the new-game state, a deck scattered by the permutation, the invariant, and that deck's cards as its card set |
| Games.Registry.Create | start_game.go:26-33 | exactly one fresh game is appended, with the requested name and count, the new-game state, a deck scattered by the permutation and that deck's cards; earlier games stay, names stay unique and every game stays valid |
| Games.Registry.StartGame | start_game.go:15-35 | a taken name is refused first, then a count outside 2..5, leaving the games unchanged; otherwise exactly one fresh game is appended with the name, count, new-game state, a deck scattered by the permutation and that deck's cards as the game's card set; names stay unique |
| Games.Registry.JoinGame | join_game.go:15-32 | an unknown name reports GameNotFound; the game of that name follows AddPlayer; every other game is unchanged; every game stays valid |

## Left out

- Locking (`GamesLock`, the per-game mutex): every operation is modelled as running alone.
- The polling loop `getStateLoop` (get_state.go:44-54) sleeps on a timer; it is not modelled.
- The request wrappers (`GetState`, `MoveHandler`) with their dynamic type assertions, `gameForSession`, server.go (HTTP and JSON), getstate.go and dump_state.go are not part of this model.
- Randomness: `rand.Perm` becomes the `order` parameter of `Deck.NewDeck` and `Games.Registry.StartGame`, required to be a permutation of 0..49.
- Session-token generation is defined outside the files this model covers (testutils.go:62 only reads the token a join returns). The token is a parameter of `Games.Registry.JoinGame`, required to be unused by every game.
- Games.Game.GetCardFromHand: `getCardFromHand` is defined outside the files this model covers (move.go:55 only calls it). The model removes the taken card from the hand, as the game's rules require.
- Games.Game.DrawCard: `DrawCard` is defined outside the files this model covers (move.go:81 only calls it). The model takes the deck's first card. With an empty deck the model draws nothing, where the source would dereference nil at move.go:82.
- Rules.AddPlayer: deals no starting hand and does not reject an empty name. The code does neither, although the tests expect 5 or 4 cards on join and a refused empty name.
- Rules.MoveResult: follows the code, not the game's rules. A Play never advances the turn, never appends a turn record, never ends the game, and reports an error even after it took effect. Discard and Hint change nothing. Mistake tokens may fall below zero.
- Games.Registry.StartGame: accepts an empty game name, as the code does (start_game.go:18-25 checks only duplicates and the player count), although start_game_test.go:75-82 expects it to be refused.
- Cards.Hide: `Card.Hide` and the hidden card type are defined outside the files this model covers (get_state.go:121 only calls `card.Hide()`). The model assumes the hidden form keeps the id alone.
- Rules.HintIdsCorrectIff: the Hint move is not implemented in the source. Only the validity of a hint's card ids, as the tests describe it, is modelled, and nothing applies it.
- Tables.NewTable: the creation code shown still fills the older game record and never sets the board or the tokens. The model starts with an empty pile per deck color, 8 hint tokens and 3 mistake tokens.
- The Go `Move` carries one card id, and the Turn's `NewCard` is a plain card; the model uses `Option` for a turn's drawn card.
- Tables.Valid bounds mistake tokens above only (at most 3), since the code lets them go negative.

## Findings

| source | as written | input that shows it | evidently intended | confidence | as-written member | corrected member |
|---|---|---|---|---|---|---|
| start_game.go:42-46 | `newDeck` loops over all six declared colors while sizing `order` for five | any call: the 51st write reads `order[50]` of a 50-entry permutation | loop over the five deck colors, giving a 50-card deck | high (not executed) | Deck.SixColorsOverrun | Deck.NewDeck, Deck.DeckMultiplicity |
| move.go:59-61 | the pile top is read as `pile[len(pile)-1]` | the first Play of any color on a new board: the pile is empty | an empty pile counts as rank 0, so a 1 can be played | high (not executed) | Tables.TopAsWritten, Tables.FirstPlayFaults | Tables.TopRank, Tables.TopRankOfOrdered, Rules.PlayOutcome |
