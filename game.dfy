/** The engine's mutable objects: a game whose methods update its fields in
    place, each proved to follow the rule functions of Rules and View, and
    the registry of games that new games are appended to and joined through. */
module Games {
  import opened Cards
  import opened Tables
  import opened Rules
  import opened View
  import Deck

  /** One game. players holds session tokens in join order; hands are keyed
      by session and piles by color; whoseTurn indexes players, -1 once the
      game is finished. */
  class Game {
    const name: string
    const numPlayers: int
    var players: seq<Session>
    var playerNames: map<Session, string>
    var hands: map<Session, seq<Card>>
    var board: map<Color, seq<Card>>
    var discard: seq<Card>
    var hints: int
    var bombs: int
    var whoseTurn: int
    var turns: seq<Turn>
    var deck: seq<Card>
    /** The cards the game was created with; no operation adds or loses one. */
    ghost const cards: multiset<Card>

    /** The fields as a value. */
    function State(): Table
      reads this
    {
      Table(players, playerNames, hands, board, discard, hints, bombs, whoseTurn, turns, deck)
    }

    ghost predicate Valid()
      reads this
    {
      Tables.Valid(State(), numPlayers)
    }

    /** The game holds exactly the cards it was created with. */
    ghost predicate Conserved()
      reads this
    {
      AllCards(State()) == cards
    }

    /** A new game with no players, the given deck, empty piles and full
        token supplies. */
    constructor (name: string, numPlayers: int, deck: seq<Card>)
      requires 2 <= numPlayers <= 5
      requires forall c :: c in deck ==> CardOk(c)
      ensures this.name == name && this.numPlayers == numPlayers
      ensures State() == NewTable(deck) && cards == multiset(deck)
      ensures Valid() && Conserved()
    {
      this.name := name;
      this.numPlayers := numPlayers;
      players := [];
      playerNames := map[];
      hands := map[];
      board := EmptyBoard();
      discard := [];
      hints := MaxHints;
      bombs := StartBombs;
      whoseTurn := 0;
      turns := [];
      this.deck := deck;
      cards := multiset(deck);
      new;
      NewTableValid(deck, numPlayers);
      NewTableCards(deck);
    }

    /** The position of session among the players, or None when it has not
        joined. */
    method PlayerIndex(session: Session) returns (r: Option<nat>)
      ensures r == IndexOf(players, session)
    {
      var i := 0;
      while i < |players|
        invariant 0 <= i <= |players|
        invariant session !in players[..i]
      {
        if players[i] == session {
          return Some(i);
        }
        assert players[..i + 1] == players[..i] + [players[i]];
        i := i + 1;
      }
      assert players[..i] == players;
      return None;
    }

    /** Adding a player under a name: refused when the game is full or the
        name is taken, otherwise the session joins last. */
    method Join(playerName: string, session: Session) returns (err: Option<JoinError>)
      requires Valid() && session !in players
      modifies this
      ensures (State(), err) == AddPlayer(old(State()), numPlayers, playerName, session)
      ensures Valid()
      ensures old(Conserved()) ==> Conserved()
    {
      AddPlayerKeepsValid(State(), numPlayers, playerName, session);
      AddPlayerConservesCards(State(), numPlayers, playerName, session);
      if |players| >= numPlayers {
        return Some(GameFull);
      }
      var i := 0;
      while i < |players|
        invariant 0 <= i <= |players|
        invariant forall k :: 0 <= k < i ==> NameOf(State(), players[k]) != playerName
      {
        var taken := if players[i] in playerNames then playerNames[players[i]] else "";
        if taken == playerName {
          return Some(DuplicatePlayerName);
        }
        i := i + 1;
      }
      players := players + [session];
      playerNames := playerNames[session := playerName];
      err := None;
    }

    /** Taking the card with the given id out of session's hand; None, with
        nothing changed, when the hand holds no such card. */
    method GetCardFromHand(cardId: int, session: Session) returns (card: Option<Card>)
      modifies this
      ensures var taken := TakeCard(Lookup(old(hands), session), cardId);
              (taken.None? ==> card == None && State() == old(State())) &&
              (taken.Some? ==> card == Some(taken.value.0) &&
                               State() == old(State()).(hands := old(hands)[session := taken.value.1]))
    {
      var hand := if session in hands then hands[session] else [];
      var k := 0;
      while k < |hand|
        invariant 0 <= k <= |hand|
        invariant forall j :: 0 <= j < k ==> hand[j].id != cardId
      {
        if hand[k].id == cardId {
          assert FindCard(hand, cardId) == Some(k);
          card := Some(hand[k]);
          hands := hands[session := hand[..k] + hand[k + 1..]];
          return;
        }
        k := k + 1;
      }
      card := None;
    }

    /** Drawing the top card of the deck; None, with nothing changed, when
        the deck is empty. */
    method DrawCard() returns (card: Option<Card>)
      modifies this
      ensures Draw(old(deck)).None? ==> card == None && State() == old(State())
      ensures Draw(old(deck)).Some? ==>
                card == Some(Draw(old(deck)).value.0) &&
                State() == old(State()).(deck := Draw(old(deck)).value.1)
    {
      if |deck| == 0 {
        return None;
      }
      card := Some(deck[0]);
      deck := deck[1..];
    }

    /** Placing a played card on its pile or, at the cost of a mistake
        token, on the discard pile. */
    method Place(card: Card)
      modifies this
      ensures State() == PlaceCard(old(State()), card)
    {
      var pile := if card.color in board then board[card.color] else [];
      if TopRank(pile) + 1 == card.number {
        if card.number == 5 && hints < MaxHints {
          hints := hints + 1;
        }
        board := board[card.color := pile + [card]];
      } else {
        bombs := bombs - 1;
        discard := discard + [card];
      }
    }

    /** The effect of playing a card already taken out of session's hand:
        the card is placed, then a card is drawn into the hand. */
    method PlaceAndDraw(session: Session, card: Card)
      requires session in hands
      modifies this
      ensures State() == PlayCard(old(State()), session, card, Lookup(old(hands), session))
    {
      ghost var t := State();
      ghost var rest := hands[session];
      Place(card);
      ghost var placed := State();
      var newCard := DrawCard();
      if newCard.Some? {
        var held := if session in hands then hands[session] else [];
        hands := hands[session := held + [newCard.value]];
        assert State() == placed.(hands := t.hands[session := rest + [newCard.value]], deck := t.deck[1..]);
      } else {
        assert t.hands[session := rest] == t.hands;
      }
    }

    /** A move submitted by the holder of session: the new state and the
        reported error are those of MoveResult, and the invariant is kept. */
    method LockingMove(session: Session, move: Move) returns (err: MoveError)
      modifies this
      ensures (State(), err) == MoveResult(old(State()), session, move)
      ensures old(Valid()) ==> Valid()
      ensures old(Valid() && Conserved()) ==> Conserved()
    {
      ghost var t := State();
      if Valid() {
        MoveKeepsValid(t, numPlayers, session, move);
        MoveConservesCards(t, numPlayers, session, move);
      }
      var index := PlayerIndex(session);
      if index.None? {
        return SessionNotInGame;
      }
      var playerIndex := index.value;
      if whoseTurn != playerIndex {
        return NotYourTurn(playerIndex);
      }
      match move.Kind() {
        case Play =>
          var card := GetCardFromHand(move.cardId, session);
          if card.None? {
            return CardNotInHand(move.cardId);
          }
          ghost var rest := TakeCard(Lookup(t.hands, session), move.cardId).value.1;
          PlayCardAfterTake(t, session, card.value, rest);
          PlaceAndDraw(session, card.value);
          return ToBeAccomplished;
        case Discard =>
          return ToBeAccomplished;
        case Hint =>
          return ToBeAccomplished;
        case Unrecognized(code) =>
          return UnrecognizedMoveType(code);
      }
    }

    /** The state shown to the holder of session, given the count of turns
        already seen; the game is not changed. */
    method GetState(session: Session, turnCursor: int) returns (resp: StateSummary)
      requires CanSummarize(State(), numPlayers, turnCursor)
      ensures resp == Summary(State(), numPlayers, session, turnCursor)
    {
      var names: seq<string> := [];
      for i := 0 to |players|
        invariant names == NamesUpTo(State(), i)
      {
        var name := if players[i] in playerNames then playerNames[players[i]] else "";
        names := names + [name];
      }
      var status: GameStatus;
      var shown: seq<Turn> := [];
      var cursor := 0;
      if |players| < numPlayers {
        status := NotStarted;
      } else {
        if whoseTurn == -1 {
          status := Finished;
        } else if players[whoseTurn] == session {
          status := YourTurn;
        } else {
          status := WaitingForTurn;
        }
        shown := TurnsSince(turns, turnCursor);
        cursor := |turns|;
      }
      resp := StateSummary(names, ExportBoard(board), discard, HiddenPlayerHand(State(), session),
                           OtherHands(State(), session), status, shown, cursor);
    }
  }

  /** Why a new game is refused. */
  datatype StartGameError = DuplicateGameName | BadPlayerCount

  /** Some listed game has this name. */
  predicate NameListed(games: seq<Game>, name: string)
  {
    exists i :: 0 <= i < |games| && games[i].name == name
  }

  /** A freshly built deck holds game cards only. */
  lemma DeckCardsOk(deck: seq<Card>)
    requires forall i :: 0 <= i < |deck| ==> deck[i].color in DeckColors && deck[i].number in Numbers
    ensures forall c :: c in deck ==> CardOk(c)
  {
    forall c | c in deck
      ensures CardOk(c)
    {
      var k :| 0 <= k < |deck| && deck[k] == c;
    }
  }

  /** Every game the server knows, in creation order. */
  class Registry {
    var games: seq<Game>

    /** Game names are unique and every game keeps its invariant. */
    ghost predicate Valid()
      reads this, games
    {
      (forall i, j :: 0 <= i < j < |games| ==> games[i].name != games[j].name) &&
      (forall i :: 0 <= i < |games| ==> games[i].Valid())
    }

    constructor ()
      ensures games == [] && Valid()
    {
      games := [];
    }

    /** Appending a valid game under a new name keeps the registry valid. */
    method Add(g: Game)
      requires Valid() && g.Valid() && !NameListed(games, g.name)
      modifies this
      ensures games == old(games) + [g]
      ensures Valid()
    {
      games := games + [g];
    }

    /** The position of the game called name, or None when no game has that
        name; nothing is changed. */
    method FindGame(name: string) returns (r: Option<nat>)
      ensures r.None? <==> !NameListed(games, name)
      ensures r.Some? ==> r.value < |games| && games[r.value].name == name
    {
      var i := 0;
      while i < |games|
        invariant 0 <= i <= |games|
        invariant forall k :: 0 <= k < i ==> games[k].name != name
      {
        if games[i].name == name {
          return Some(i);
        }
        i := i + 1;
      }
      return None;
    }

    /** A new game of the given name and count, dealt a deck built from
        order, holding exactly that deck's cards. */
    static method NewGame(name: string, numPlayers: int, order: seq<int>) returns (g: Game)
      requires 2 <= numPlayers <= 5 && Deck.IsPermutation(order, Deck.DeckSize)
      ensures fresh(g) && g.name == name && g.numPlayers == numPlayers
      ensures g.State() == NewTable(g.deck) && Deck.Scattered(g.deck, order)
      ensures g.cards == multiset(g.deck) && g.Valid()
    {
      var deck := Deck.NewDeck(order);
      DeckCardsOk(deck);
      g := new Game(name, numPlayers, deck);
    }

    /** Appending a new game under an unused name with a valid count. */
    method Create(name: string, numPlayers: int, order: seq<int>) returns (g: Game)
      requires Valid() && !NameListed(games, name) && 2 <= numPlayers <= 5
      requires Deck.IsPermutation(order, Deck.DeckSize)
      modifies this
      ensures Valid() && games == old(games) + [g]
      ensures fresh(g) && g.name == name && g.numPlayers == numPlayers
      ensures g.State() == NewTable(g.deck) && Deck.Scattered(g.deck, order)
      ensures g.cards == multiset(g.deck)
    {
      g := NewGame(name, numPlayers, order);
      Add(g);
    }

    /** Creating a game: refused when the name is taken, then when the
        player count is outside 2..5; otherwise a new game with a deck
        built from order is appended. */
    method StartGame(name: string, numPlayers: int, order: seq<int>) returns (err: Option<StartGameError>)
      requires Valid() && Deck.IsPermutation(order, Deck.DeckSize)
      modifies this
      ensures Valid()
      ensures NameListed(old(games), name) ==> err == Some(DuplicateGameName) && games == old(games)
      ensures !NameListed(old(games), name) && !(2 <= numPlayers <= 5) ==>
                err == Some(BadPlayerCount) && games == old(games)
      ensures err == None <==> !NameListed(old(games), name) && 2 <= numPlayers <= 5
      ensures err == None ==>
                |games| == |old(games)| + 1 && games[..|old(games)|] == old(games) &&
                var g := games[|old(games)|];
                fresh(g) && g.name == name && g.numPlayers == numPlayers &&
                g.State() == NewTable(g.deck) && Deck.Scattered(g.deck, order) &&
                g.cards == multiset(g.deck)
    {
      var found := FindGame(name);
      if found.Some? {
        return Some(DuplicateGameName);
      }
      if numPlayers < 2 || numPlayers > 5 {
        return Some(BadPlayerCount);
      }
      var g := Create(name, numPlayers, order);
      assert games[..|old(games)|] == old(games);
      err := None;
    }

    /** Joining the game called gameName under playerName with a fresh
        session: GameNotFound when no game has that name, otherwise that
        game's Join, every other game left as it was. */
    method JoinGame(gameName: string, playerName: string, session: Session) returns (err: Option<JoinError>)
      requires Valid()
      requires forall i :: 0 <= i < |games| ==> session !in games[i].players
      modifies games
      ensures Valid()
      ensures !NameListed(games, gameName) ==> err == Some(GameNotFound)
      ensures forall i :: 0 <= i < |games| && games[i].name == gameName ==>
                (games[i].State(), err) == AddPlayer(old(games[i].State()), games[i].numPlayers, playerName, session)
      ensures forall i :: 0 <= i < |games| && games[i].name != gameName ==>
                games[i].State() == old(games[i].State())
    {
      var found := FindGame(gameName);
      if found.None? {
        return Some(GameNotFound);
      }
      var g := games[found.value];
      err := g.Join(playerName, session);
      forall k | 0 <= k < |games| && k != found.value
        ensures games[k] != g
      {
        assert games[k].name != g.name;
      }
    }
  }
}
