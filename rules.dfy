/** The rules of joining a game and of making a move, as functions from one
    game state to the next, with the properties they keep. */
module Rules {
  import opened Cards
  import opened Tables

  /** Why a join is refused. */
  datatype JoinError = GameNotFound | GameFull | DuplicatePlayerName

  /** Why a move is refused. ToBeAccomplished is what every branch that the
      engine does not finish reports, including a Play after it took effect. */
  datatype MoveError =
    | SessionNotInGame
    | NotYourTurn(index: int)
    | CardNotInHand(cardId: int)
    | ToBeAccomplished
    | UnrecognizedMoveType(code: int)

  /** Some joined player already goes by this name. */
  predicate NameTaken(t: Table, name: string)
  {
    exists i :: 0 <= i < |t.players| && NameOf(t, t.players[i]) == name
  }

  /** Joining: a full game is refused first, then a name already in the
      game; otherwise the session is appended and given the name. */
  function AddPlayer(t: Table, numPlayers: int, name: string, session: Session): (r: (Table, Option<JoinError>))
    ensures |t.players| >= numPlayers ==> r == (t, Some(GameFull))
    ensures |t.players| < numPlayers && NameTaken(t, name) ==> r == (t, Some(DuplicatePlayerName))
    ensures r.1 == None <==> |t.players| < numPlayers && !NameTaken(t, name)
    ensures r.1 == None ==> r.0.players == t.players + [session] && NameOf(r.0, session) == name
    ensures r.1 == None ==> forall s :: s != session ==> NameOf(r.0, s) == NameOf(t, s)
    ensures r.1 == None ==> r.0.playerNames == t.playerNames[session := name]
    ensures r.0.hands == t.hands && r.0.board == t.board && r.0.deck == t.deck && r.0.turns == t.turns
    ensures r.0.discard == t.discard
    ensures r.0.whoseTurn == t.whoseTurn && r.0.hints == t.hints && r.0.bombs == t.bombs
  {
    if |t.players| >= numPlayers then (t, Some(GameFull))
    else if NameTaken(t, name) then (t, Some(DuplicatePlayerName))
    else (t.(players := t.players + [session], playerNames := t.playerNames[session := name]), None)
  }

  /** A join keeps the invariant: in particular the player count never
      exceeds the configured number and names stay distinct. */
  lemma AddPlayerKeepsValid(t: Table, numPlayers: int, name: string, session: Session)
    requires Valid(t, numPlayers) && session !in t.players
    ensures Valid(AddPlayer(t, numPlayers, name, session).0, numPlayers)
    ensures |AddPlayer(t, numPlayers, name, session).0.players| <= numPlayers
  {
    var r := AddPlayer(t, numPlayers, name, session);
    if r.1 == None {
      var u := r.0;
      forall i, j | 0 <= i < j < |u.players|
        ensures u.players[i] != u.players[j] && NameOf(u, u.players[i]) != NameOf(u, u.players[j])
      {
        if j == |t.players| {
          assert u.players[i] == t.players[i];
          assert NameOf(u, u.players[i]) == NameOf(t, t.players[i]);
        } else {
          assert u.players[i] == t.players[i] && u.players[j] == t.players[j];
        }
      }
    }
  }

  /** A join moves no card: the new player holds no hand yet, so deck, hands,
      board and discard hold the same cards before and after. */
  lemma AddPlayerConservesCards(t: Table, numPlayers: int, name: string, session: Session)
    requires session !in t.hands
    ensures AllCards(AddPlayer(t, numPlayers, name, session).0) == AllCards(t)
  {
    TotalAppend(t.players, t.hands, session);
  }

  /** Placing a played card: it goes on its color's pile when its rank is
      one above the pile's top (a 5 earns a hint token below the cap),
      otherwise a mistake token is spent and the card is discarded. Only the
      board, the discard pile and the tokens change. */
  function PlaceCard(t: Table, card: Card): (r: Table)
    ensures r.players == t.players && r.playerNames == t.playerNames && r.hands == t.hands
    ensures r.whoseTurn == t.whoseTurn && r.turns == t.turns && r.deck == t.deck
  {
    var pile := Lookup(t.board, card.color);
    if TopRank(pile) + 1 == card.number then
      t.(hints := if card.number == 5 && t.hints < MaxHints then t.hints + 1 else t.hints,
         board := t.board[card.color := pile + [card]])
    else
      t.(bombs := t.bombs - 1, discard := t.discard + [card])
  }

  /** Playing a card already taken out of the mover's hand: the card is
      placed, then the mover's hand becomes the rest of the hand plus the
      deck's top card, if the deck has one. */
  function PlayCard(t: Table, session: Session, card: Card, rest: seq<Card>): (r: Table)
    ensures r.players == t.players && r.playerNames == t.playerNames
    ensures r.whoseTurn == t.whoseTurn && r.turns == t.turns
    ensures r.board == PlaceCard(t, card).board && r.discard == PlaceCard(t, card).discard
    ensures r.hints == PlaceCard(t, card).hints && r.bombs == PlaceCard(t, card).bombs
  {
    var placed := PlaceCard(t, card);
    match Draw(t.deck)
    case None => placed.(hands := t.hands[session := rest])
    case Some((drawn, deck)) => placed.(hands := t.hands[session := rest + [drawn]], deck := deck)
  }

  /** Placing a card never looks at the hands. */
  lemma PlaceIgnoresHands(t: Table, card: Card, hands: map<Session, seq<Card>>)
    ensures PlaceCard(t.(hands := hands), card) == PlaceCard(t, card).(hands := hands)
  {
  }

  /** Playing from a hand the card was already taken out of is playing it
      with the rest of the hand: the hand is overwritten either way. */
  lemma PlayCardAfterTake(t: Table, session: Session, card: Card, rest: seq<Card>)
    ensures PlayCard(t.(hands := t.hands[session := rest]), session, card, rest) == PlayCard(t, session, card, rest)
  {
    var taken := t.hands[session := rest];
    PlaceIgnoresHands(t, card, taken);
    var placed := PlaceCard(t, card);
    match Draw(t.deck)
    case None =>
      assert taken[session := rest] == t.hands[session := rest];
      assert PlayCard(t.(hands := taken), session, card, rest) == placed.(hands := taken[session := rest]);
    case Some((drawn, deck)) =>
      assert taken[session := rest + [drawn]] == t.hands[session := rest + [drawn]];
      assert PlayCard(t.(hands := taken), session, card, rest) ==
             placed.(hands := taken[session := rest + [drawn]], deck := deck);
  }

  /** A move submitted by the holder of session: the state after it and the
      error it reports. Only an in-turn Play of a held card changes anything. */
  function MoveResult(t: Table, session: Session, move: Move): (r: (Table, MoveError))
    ensures move.Kind() != Play ==> r.0 == t
    ensures IndexOf(t.players, session) != Some(t.whoseTurn) ==> r.0 == t
    ensures TakeCard(Lookup(t.hands, session), move.cardId).None? ==> r.0 == t
    ensures r.1 == ToBeAccomplished || r.0 == t
    ensures IndexOf(t.players, session) == None ==> r == (t, SessionNotInGame)
    ensures t.whoseTurn == -1 ==> r.0 == t && r.1 != ToBeAccomplished
    ensures r.0.players == t.players && r.0.playerNames == t.playerNames
    ensures r.0.whoseTurn == t.whoseTurn && r.0.turns == t.turns
    ensures forall i :: IndexOf(t.players, session) == Some(i) && t.whoseTurn != i ==>
              r == (t, NotYourTurn(i))
    ensures IndexOf(t.players, session) == Some(t.whoseTurn) ==>
              (move.Kind() == Play && TakeCard(Lookup(t.hands, session), move.cardId).None? ==>
                 r == (t, CardNotInHand(move.cardId))) &&
              (move.Kind() == Play && TakeCard(Lookup(t.hands, session), move.cardId).Some? ==>
                 r.1 == ToBeAccomplished) &&
              (move.Kind() in {Hint, Discard} ==> r == (t, ToBeAccomplished)) &&
              (move.Kind().Unrecognized? ==> r == (t, UnrecognizedMoveType(move.moveType)))
  {
    match IndexOf(t.players, session)
    case None => (t, SessionNotInGame)
    case Some(i) =>
      if t.whoseTurn != i then (t, NotYourTurn(i))
      else
        match move.Kind()
        case Play =>
          (match TakeCard(Lookup(t.hands, session), move.cardId)
           case None => (t, CardNotInHand(move.cardId))
           case Some((card, rest)) => (PlayCard(t, session, card, rest), ToBeAccomplished))
        case Discard => (t, ToBeAccomplished)
        case Hint => (t, ToBeAccomplished)
        case Unrecognized(code) => (t, UnrecognizedMoveType(code))
  }

  /** What an accepted Play does, in a valid game: with pile the card's color
      pile, a card of rank |pile| + 1 is appended to that pile alone (and a 5
      earns a hint token below the cap); any other rank costs exactly one
      mistake token and appends the card to the discard pile, leaving the board
      as it was. Either way the card leaves the mover's hand, the top card of
      the deck (if any) is appended to it, and other hands are untouched. */
  lemma PlayOutcome(t: Table, numPlayers: int, session: Session, move: Move)
    requires Valid(t, numPlayers) && move.Kind() == Play
    requires IndexOf(t.players, session) == Some(t.whoseTurn)
    requires TakeCard(Lookup(t.hands, session), move.cardId).Some?
    ensures var (card, rest) := TakeCard(Lookup(t.hands, session), move.cardId).value;
            var pile := Lookup(t.board, card.color);
            var u := MoveResult(t, session, move).0;
            card.color in t.board &&
            (card.number == |pile| + 1 ==>
               u.board == t.board[card.color := pile + [card]] && u.bombs == t.bombs &&
               u.discard == t.discard &&
               u.hints == (if card.number == 5 && t.hints < MaxHints then t.hints + 1 else t.hints)) &&
            (card.number != |pile| + 1 ==>
               u.board == t.board && u.bombs == t.bombs - 1 && u.discard == t.discard + [card] &&
               u.hints == t.hints) &&
            Lookup(u.hands, session) == (if t.deck == [] then rest else rest + [t.deck[0]]) &&
            u.deck == (if t.deck == [] then [] else t.deck[1..]) &&
            (forall s :: s != session ==> Lookup(u.hands, s) == Lookup(t.hands, s))
  {
    var (card, rest) := TakeCard(Lookup(t.hands, session), move.cardId).value;
    assert CardOk(card) by {
      assert session in t.hands;
    }
    assert MoveResult(t, session, move).0 == PlayCard(t, session, card, rest);
    PlaceOutcome(t, numPlayers, card);
    PlayCardDraws(t, session, card, rest);
  }

  /** Where a game card is placed, in a valid game: one above its pile's
      height onto that pile (a 5 earning a hint token below the cap),
      otherwise onto the discard pile for one mistake token. */
  lemma PlaceOutcome(t: Table, numPlayers: int, card: Card)
    requires Valid(t, numPlayers) && CardOk(card)
    ensures var pile := Lookup(t.board, card.color);
            var u := PlaceCard(t, card);
            card.color in t.board &&
            (card.number == |pile| + 1 ==>
               u.board == t.board[card.color := pile + [card]] && u.bombs == t.bombs &&
               u.discard == t.discard &&
               u.hints == (if card.number == 5 && t.hints < MaxHints then t.hints + 1 else t.hints)) &&
            (card.number != |pile| + 1 ==>
               u.board == t.board && u.bombs == t.bombs - 1 && u.discard == t.discard + [card] &&
               u.hints == t.hints)
  {
    TopRankOfOrdered(card.color, t.board[card.color]);
  }

  /** Placing a game card keeps the invariant: a pile only grows by the
      next rank, so it stays ordered and at most five high, and hint tokens
      never pass the cap. */
  lemma PlaceKeepsValid(t: Table, numPlayers: int, card: Card)
    requires Valid(t, numPlayers) && CardOk(card)
    ensures Valid(PlaceCard(t, card), numPlayers)
  {
    var pile := t.board[card.color];
    TopRankOfOrdered(card.color, pile);
    if card.number == |pile| + 1 {
      assert PileOrdered(card.color, pile + [card]);
    }
  }

  /** Giving a joined player a hand of game cards and keeping a deck of game
      cards keeps the invariant. */
  lemma RedealKeepsValid(t: Table, numPlayers: int, session: Session, hand: seq<Card>, deck: seq<Card>)
    requires Valid(t, numPlayers) && session in t.players
    requires forall c :: c in hand ==> CardOk(c)
    requires forall c :: c in deck ==> CardOk(c)
    ensures Valid(t.(hands := t.hands[session := hand], deck := deck), numPlayers)
  {
  }

  /** Every move keeps the invariant: hint tokens stay within 0..8, piles stay
      ordered and at most five high, and every card stays a game card. */
  lemma MoveKeepsValid(t: Table, numPlayers: int, session: Session, move: Move)
    requires Valid(t, numPlayers)
    ensures Valid(MoveResult(t, session, move).0, numPlayers)
  {
    var u := MoveResult(t, session, move).0;
    if u != t {
      var hand := Lookup(t.hands, session);
      var (card, rest) := TakeCard(hand, move.cardId).value;
      assert u == PlayCard(t, session, card, rest);
      assert session in t.hands;
      assert CardOk(card);
      assert forall c :: c in rest ==> CardOk(c) by {
        forall c | c in rest ensures CardOk(c) {
          assert c in multiset(rest);
          assert c in hand;
        }
      }
      PlaceKeepsValid(t, numPlayers, card);
      var placed := PlaceCard(t, card);
      if t.deck == [] {
        RedealKeepsValid(placed, numPlayers, session, rest, placed.deck);
        assert u == placed.(hands := placed.hands[session := rest], deck := placed.deck);
      } else {
        assert t.deck[0] in t.deck;
        RedealKeepsValid(placed, numPlayers, session, rest + [t.deck[0]], t.deck[1..]);
        assert u == placed.(hands := placed.hands[session := rest + [t.deck[0]]], deck := t.deck[1..]);
      }
    }
  }

  /** Bookkeeping for PlayCardConserves: the deck loses what the hand
      draws, the hand loses the played card, the board and discard pile gain
      it; then the total is unchanged. */
  lemma Rebalance(deck0: multiset<Card>, deck1: multiset<Card>, drawn: multiset<Card>,
                  hands0: multiset<Card>, hands1: multiset<Card>, oldHand: multiset<Card>,
                  rest: multiset<Card>, card: Card,
                  board0: multiset<Card>, board1: multiset<Card>,
                  discard0: multiset<Card>, discard1: multiset<Card>)
    requires deck0 == drawn + deck1
    requires oldHand == rest + multiset{card}
    requires hands1 + oldHand == hands0 + (rest + drawn)
    requires board1 + discard1 == board0 + discard0 + multiset{card}
    ensures deck1 + hands1 + board1 + discard1 == deck0 + hands0 + board0 + discard0
  {
    forall x
      ensures (deck1 + hands1 + board1 + discard1)[x] == (deck0 + hands0 + board0 + discard0)[x]
    {
      assert deck0[x] == drawn[x] + deck1[x];
      assert oldHand[x] == rest[x] + multiset{card}[x];
      assert (hands1 + oldHand)[x] == (hands0 + (rest + drawn))[x];
      assert (board1 + discard1)[x] == (board0 + discard0 + multiset{card})[x];
    }
  }

  /** The piles and the discard pile together gain exactly the played card. */
  lemma PlaceCardPlaces(t: Table, card: Card)
    requires card.color in DeckColors
    ensures var u := PlaceCard(t, card);
            Total(DeckColors, u.board) + multiset(u.discard) ==
            Total(DeckColors, t.board) + multiset(t.discard) + multiset{card}
  {
    var u := PlaceCard(t, card);
    var pile := Lookup(t.board, card.color);
    if TopRank(pile) + 1 == card.number {
      ConstantsAgree();
      TotalUpdate(DeckColors, t.board, card.color, pile + [card]);
      assert u.board == t.board[card.color := pile + [card]];
      assert u.discard == t.discard;
      var before, after := Total(DeckColors, t.board), Total(DeckColors, u.board);
      forall x
        ensures (after + multiset(u.discard))[x] == (before + multiset(t.discard) + multiset{card})[x]
      {
        assert (after + multiset(pile))[x] == (before + multiset(pile + [card]))[x];
        assert multiset(pile + [card])[x] == multiset(pile)[x] + multiset{card}[x];
      }
    } else {
      assert u.board == t.board;
      assert u.discard == t.discard + [card];
    }
  }

  /** The mover's hand gets the rest of the hand plus the drawn card, and the
      deck gives up exactly the drawn card. */
  lemma PlayCardDraws(t: Table, session: Session, card: Card, rest: seq<Card>)
    ensures var u := PlayCard(t, session, card, rest);
            var drawn := if t.deck == [] then [] else [t.deck[0]];
            u.hands == t.hands[session := rest + drawn] &&
            u.deck == (if t.deck == [] then [] else t.deck[1..]) &&
            multiset(t.deck) == multiset(drawn) + multiset(u.deck)
  {
    var u := PlayCard(t, session, card, rest);
    if t.deck != [] {
      assert Draw(t.deck) == Some((t.deck[0], t.deck[1..]));
      assert u.hands == t.hands[session := rest + [t.deck[0]]] && u.deck == t.deck[1..];
      assert t.deck == [t.deck[0]] + t.deck[1..];
    } else {
      assert rest + [] == rest;
      assert u.hands == t.hands[session := rest] && u.deck == t.deck;
    }
  }

  /** When the played card came out of the mover's hand, the mover's new hand
      and the new deck together hold what the old hand and the old deck held,
      less the played card: the drawn card only moves from deck to hand. */
  lemma PlayCardHandDeck(t: Table, session: Session, card: Card, rest: seq<Card>)
    requires multiset(rest) + multiset{card} == multiset(Lookup(t.hands, session))
    ensures var u := PlayCard(t, session, card, rest);
            multiset(Lookup(u.hands, session)) + multiset(u.deck) + multiset{card} ==
            multiset(Lookup(t.hands, session)) + multiset(t.deck)
  {
    var u := PlayCard(t, session, card, rest);
    var drawn := if t.deck == [] then [] else [t.deck[0]];
    PlayCardDraws(t, session, card, rest);
    assert Lookup(u.hands, session) == rest + drawn;
    assert multiset(rest + drawn) == multiset(rest) + multiset(drawn);
  }

  /** Playing a card taken from the mover's hand moves it to the board or
      the discard pile and moves the deck's top card (if any) to the hand. */
  lemma PlayCardConserves(t: Table, session: Session, card: Card, rest: seq<Card>)
    requires Distinct(t.players) && session in t.players && card.color in DeckColors
    requires multiset(rest) + multiset{card} == multiset(Lookup(t.hands, session))
    ensures AllCards(PlayCard(t, session, card, rest)) == AllCards(t)
  {
    var u := PlayCard(t, session, card, rest);
    var drawn := if t.deck == [] then [] else [t.deck[0]];
    PlayCardDraws(t, session, card, rest);
    PlaceCardPlaces(t, card);
    TotalUpdate(t.players, t.hands, session, rest + drawn);
    Rebalance(multiset(t.deck), multiset(u.deck), multiset(drawn),
              Total(t.players, t.hands), Total(t.players, u.hands), multiset(Lookup(t.hands, session)),
              multiset(rest), card,
              Total(DeckColors, t.board), Total(DeckColors, u.board), multiset(t.discard), multiset(u.discard));
  }

  /** No move creates or loses a card: the multiset of cards across deck,
      hands, board and discard pile is the same before and after. */
  lemma MoveConservesCards(t: Table, numPlayers: int, session: Session, move: Move)
    requires Valid(t, numPlayers)
    ensures AllCards(MoveResult(t, session, move).0) == AllCards(t)
  {
    var u := MoveResult(t, session, move).0;
    if u != t {
      var hand := Lookup(t.hands, session);
      var (card, rest) := TakeCard(hand, move.cardId).value;
      assert session in t.hands && card in t.hands[session];
      assert CardOk(card);
      PlayCardConserves(t, session, card, rest);
    }
  }

  /** What a Hint names: one color or one rank. */
  datatype HintSubject = ByColor(color: Color) | ByNumber(number: int)

  predicate Matches(c: Card, subject: HintSubject)
  {
    match subject
    case ByColor(color) => c.color == color
    case ByNumber(number) => c.number == number
  }

  /** The ids of the cards in hand that a hint about subject points at. */
  function MatchingIds(hand: seq<Card>, subject: HintSubject): set<int>
  {
    set c | c in hand && Matches(c, subject) :: c.id
  }

  /** A hint is accepted only when the submitted ids, as a set, are exactly
      the ids of the target's matching cards. */
  predicate HintIdsCorrect(hand: seq<Card>, subject: HintSubject, cardIds: seq<int>)
  {
    (set id | id in cardIds) == MatchingIds(hand, subject)
  }

  /** The submitted ids are accepted iff they name every matching card
      (omitting one is refused) and name only matching cards (claiming a
      card that does not match, or is not held, is refused). */
  lemma HintIdsCorrectIff(hand: seq<Card>, subject: HintSubject, cardIds: seq<int>)
    ensures HintIdsCorrect(hand, subject, cardIds) <==>
      (forall c :: c in hand && Matches(c, subject) ==> c.id in cardIds) &&
      (forall id :: id in cardIds ==> exists c :: c in hand && Matches(c, subject) && c.id == id)
  {
    var claimed := set id | id in cardIds;
    var matching := MatchingIds(hand, subject);
    if claimed == matching {
      forall c | c in hand && Matches(c, subject)
        ensures c.id in cardIds
      {
        assert c.id in matching;
      }
      forall id | id in cardIds
        ensures exists c :: c in hand && Matches(c, subject) && c.id == id
      {
        assert id in claimed;
      }
    }
    if (forall c :: c in hand && Matches(c, subject) ==> c.id in cardIds) &&
              (forall id :: id in cardIds ==> exists c :: c in hand && Matches(c, subject) && c.id == id)
    {
      assert claimed <= matching;
      assert matching <= claimed;
    }
  }
}
