/** Value types of a Hanabi game: colors, ranks, move kinds, moves, cards,
    turn records and the identity-only view of a card. */
module Cards {

  datatype Option<+T> = None | Some(value: T)

  /** The card colors, in declaration order; a color's integer code is its
      position in AllColors. */
  datatype Color = Red | Yellow | Green | Blue | Black | White

  /** Every color the type declares. */
  const AllColors: seq<Color> := [Red, Yellow, Green, Blue, Black, White]

  /** The five colors the deck is built from and the board keeps piles for. */
  const DeckColors: seq<Color> := [Red, Yellow, Green, Blue, Black]

  /** The ranks, in ascending order. */
  const Numbers: seq<int> := [1, 2, 3, 4, 5]

  /** Copies[n] is how many cards of rank Numbers[n] each color has. */
  const Copies: seq<int> := [3, 2, 2, 2, 1]

  /** The integer code of a color (its position in the declaration). */
  function ColorCode(c: Color): (code: int)
    ensures 0 <= code < |AllColors| && AllColors[code] == c
  {
    match c
    case Red => 0
    case Yellow => 1
    case Green => 2
    case Blue => 3
    case Black => 4
    case White => 5
  }

  /** The constants are what the deck construction relies on: the declared
      colors are distinct, the deck colors are the first five of them, and
      the ranks are 1..5 in ascending order with one copy count each. */
  lemma ConstantsAgree()
    ensures forall i, j :: 0 <= i < j < |AllColors| ==> AllColors[i] != AllColors[j]
    ensures DeckColors == AllColors[..5]
    ensures |Numbers| == |Copies| == 5
    ensures forall n :: 0 <= n < |Numbers| ==> Numbers[n] == n + 1
    ensures Copies[0] + Copies[1] + Copies[2] + Copies[3] + Copies[4] == 10
  {
    forall i, j | 0 <= i < j < |AllColors|
      ensures AllColors[i] != AllColors[j]
    {
      assert ColorCode(AllColors[i]) == i && ColorCode(AllColors[j]) == j;
    }
  }

  /** The kind of a move. Codes 0, 1 and 2 are Hint, Play and Discard; a
      move carries an integer code, so any other code is unrecognized. */
  datatype MoveType = Hint | Play | Discard | Unrecognized(code: int)

  /** The move kind a submitted integer code denotes. */
  function MoveTypeOf(code: int): (t: MoveType)
    ensures t.Unrecognized? <==> !(0 <= code <= 2)
    ensures t.Unrecognized? ==> t.code == code
    ensures code == 0 <==> t == Hint
    ensures code == 1 <==> t == Play
    ensures code == 2 <==> t == Discard
  {
    if code == 0 then Hint
    else if code == 1 then Play
    else if code == 2 then Discard
    else Unrecognized(code)
  }

  /** The integer code of a move kind. */
  function MoveTypeCode(t: MoveType): int
  {
    match t
    case Hint => 0
    case Play => 1
    case Discard => 2
    case Unrecognized(code) => code
  }

  /** Every code decodes to a move kind that encodes back to the same code:
      decoding loses nothing. */
  lemma MoveTypeRoundTrip(code: int)
    ensures MoveTypeCode(MoveTypeOf(code)) == code
  {
  }

  /** A submitted move: moveType is the integer code as submitted; toPlayer,
      color and number are the fields of a Hint; cardId is the field of a
      Play or Discard. */
  datatype Move = Move(moveType: int, toPlayer: string, color: Color, number: int, cardId: int)
  {
    /** The kind the move's code denotes; codes 0 to 2 are never unrecognized. */
    function Kind(): (k: MoveType)
      ensures k.Unrecognized? <==> !(0 <= moveType <= 2)
      ensures MoveTypeCode(k) == moveType
    {
      MoveTypeRoundTrip(moveType);
      MoveTypeOf(moveType)
    }
  }

  /** A card: its identity, color and rank. Values are immutable. */
  datatype Card = Card(id: int, color: Color, number: int)

  /** A logged turn. A Hint draws no card, so its record has no new card. */
  datatype Turn = Turn(id: int, player: string, move: Move, newCard: Option<Card>)
  {
    predicate WellFormed()
    {
      move.Kind() == Hint ==> newCard == None
    }
  }

  /** A card as its holder sees it: the identity only. */
  datatype HiddenCard = HiddenCard(id: int)

  /** The hidden form of a card keeps its identity and nothing else. */
  function Hide(c: Card): (h: HiddenCard)
    ensures h.id == c.id
  {
    HiddenCard(c.id)
  }
}
