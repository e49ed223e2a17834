/** The state of one game as a value: the fields the engine keeps per game,
    the invariant they satisfy, lookups with Go's missing-key semantics, and
    the card accounting used to show that no card is created or lost. */
module Tables {
  import opened Cards

  /** A player's opaque session token. */
  type Session = string

  /** Hint tokens never exceed this many. */
  const MaxHints: int := 8

  /** Mistake tokens a game starts with. */
  const StartBombs: int := 3

  /** One game's mutable fields. players holds session tokens in join order;
      whoseTurn is an index into players, or -1 once the game is finished. */
  datatype Table = Table(
    players: seq<Session>,
    playerNames: map<Session, string>,
    hands: map<Session, seq<Card>>,
    board: map<Color, seq<Card>>,
    discard: seq<Card>,
    hints: int,
    bombs: int,
    whoseTurn: int,
    turns: seq<Turn>,
    deck: seq<Card>)

  /** The cards stored under a key; a missing key reads as an empty list. */
  function Lookup<K>(m: map<K, seq<Card>>, k: K): (r: seq<Card>)
    ensures k in m ==> r == m[k]
    ensures k !in m ==> r == []
  {
    if k in m then m[k] else []
  }

  /** A player's display name; a missing entry reads as the empty string. */
  function NameOf(t: Table, s: Session): (r: string)
    ensures s in t.playerNames ==> r == t.playerNames[s]
    ensures s !in t.playerNames ==> r == ""
  {
    if s in t.playerNames then t.playerNames[s] else ""
  }

  predicate Distinct<T(==)>(s: seq<T>)
  {
    forall i, j :: 0 <= i < j < |s| ==> s[i] != s[j]
  }

  /** A card of the game: a deck color and a rank from 1 to 5. */
  predicate CardOk(c: Card)
  {
    c.color in DeckColors && 1 <= c.number <= 5
  }

  /** A color's pile holds that color's ranks 1, 2, ... with no gap. */
  predicate PileOrdered(c: Color, pile: seq<Card>)
  {
    forall k :: 0 <= k < |pile| ==> pile[k].color == c && pile[k].number == k + 1
  }

  /** The board of a new game: an empty pile per deck color. */
  function EmptyBoard(): (b: map<Color, seq<Card>>)
    ensures forall c :: c in b <==> c in DeckColors
    ensures forall c :: c in b ==> b[c] == []
  {
    map c | c in DeckColors :: []
  }

  /** No two joined players share a display name. */
  predicate NamesDistinct(t: Table)
  {
    forall i, j :: 0 <= i < j < |t.players| ==> NameOf(t, t.players[i]) != NameOf(t, t.players[j])
  }

  /** The invariant of a game configured for numPlayers players. */
  predicate Valid(t: Table, numPlayers: int)
  {
    2 <= numPlayers <= 5 &&
    |t.players| <= numPlayers &&
    Distinct(t.players) &&
    NamesDistinct(t) &&
    (forall s :: s in t.hands ==> s in t.players) &&
    (forall c :: c in t.board <==> c in DeckColors) &&
    (forall c :: c in t.board ==> PileOrdered(c, t.board[c]) && |t.board[c]| <= 5) &&
    (forall c :: c in t.deck ==> CardOk(c)) &&
    (forall s, c :: s in t.hands && c in t.hands[s] ==> CardOk(c)) &&
    0 <= t.hints <= MaxHints &&
    t.bombs <= StartBombs &&
    -1 <= t.whoseTurn < numPlayers &&
    (forall tr :: tr in t.turns ==> tr.WellFormed())
  }

  /** A game as StartGame creates it: no players, a full deck, empty piles,
      eight hint tokens, three mistake tokens, turn 0, an empty log. */
  function NewTable(deck: seq<Card>): (t: Table)
    ensures t.players == [] && t.turns == [] && t.whoseTurn == 0 && t.deck == deck
    ensures t.hints == MaxHints && t.bombs == StartBombs && t.discard == []
    ensures t.hands == map[] && t.playerNames == map[]
    ensures forall c :: c in t.board <==> c in DeckColors
    ensures forall c :: c in t.board ==> t.board[c] == []
  {
    Table([], map[], map[], EmptyBoard(), [], MaxHints, StartBombs, 0, [], deck)
  }

  lemma NewTableValid(deck: seq<Card>, numPlayers: int)
    requires 2 <= numPlayers <= 5
    requires forall c :: c in deck ==> CardOk(c)
    ensures Valid(NewTable(deck), numPlayers)
  {
  }

  /** The cards stored under keys, counted once per key. */
  function Total<K>(keys: seq<K>, m: map<K, seq<Card>>): multiset<Card>
  {
    if keys == [] then multiset{} else multiset(Lookup(m, keys[0])) + Total(keys[1..], m)
  }

  /** Rewriting a key that is not listed leaves the total unchanged. */
  lemma {:induction false} TotalIgnores<K>(keys: seq<K>, m: map<K, seq<Card>>, k: K, v: seq<Card>)
    requires k !in keys
    ensures Total(keys, m[k := v]) == Total(keys, m)
  {
    if keys != [] {
      assert keys[0] != k;
      TotalIgnores(keys[1..], m, k, v);
    }
  }

  /** Rewriting a listed key swaps its old cards for the new ones in the total. */
  lemma {:induction false} TotalUpdate<K>(keys: seq<K>, m: map<K, seq<Card>>, k: K, v: seq<Card>)
    requires Distinct(keys) && k in keys
    ensures Total(keys, m[k := v]) + multiset(Lookup(m, k)) == Total(keys, m) + multiset(v)
  {
    if keys[0] == k {
      assert k !in keys[1..];
      TotalIgnores(keys[1..], m, k, v);
      assert Total(keys, m[k := v]) == multiset(v) + Total(keys[1..], m[k := v]);
      assert Total(keys, m) == multiset(Lookup(m, k)) + Total(keys[1..], m);
    } else {
      assert k in keys[1..] by {
        var j :| 0 <= j < |keys| && keys[j] == k;
        assert keys[1..][j - 1] == k;
      }
      assert Lookup(m[k := v], keys[0]) == Lookup(m, keys[0]);
      TotalUpdate(keys[1..], m, k, v);
      calc {
        Total(keys, m[k := v]) + multiset(Lookup(m, k));
        multiset(Lookup(m, keys[0])) + Total(keys[1..], m[k := v]) + multiset(Lookup(m, k));
        multiset(Lookup(m, keys[0])) + (Total(keys[1..], m[k := v]) + multiset(Lookup(m, k)));
        multiset(Lookup(m, keys[0])) + (Total(keys[1..], m) + multiset(v));
        Total(keys, m) + multiset(v);
      }
    }
  }

  /** Listing one more key adds that key's cards to the total. */
  lemma {:induction false} TotalAppend<K>(keys: seq<K>, m: map<K, seq<Card>>, k: K)
    ensures Total(keys + [k], m) == Total(keys, m) + multiset(Lookup(m, k))
  {
    if keys == [] {
      assert Total([k], m) == multiset(Lookup(m, k)) + Total([], m);
    } else {
      assert (keys + [k])[1..] == keys[1..] + [k];
      TotalAppend(keys[1..], m, k);
    }
  }

  /** Every card of the game, wherever it is: deck, hands, board, discard. */
  function AllCards(t: Table): multiset<Card>
  {
    multiset(t.deck) + Total(t.players, t.hands) + Total(DeckColors, t.board) + multiset(t.discard)
  }

  /** A new game holds exactly the cards of its deck. */
  lemma NewTableCards(deck: seq<Card>)
    ensures AllCards(NewTable(deck)) == multiset(deck)
  {
  }

  /** Position of the first occurrence of x in s, or None. */
  function IndexOf<T(==)>(s: seq<T>, x: T): (r: Option<nat>)
    ensures r.None? <==> x !in s
    ensures r.Some? ==> r.value < |s| && s[r.value] == x && x !in s[..r.value]
  {
    if s == [] then None
    else if s[0] == x then Some(0)
    else match IndexOf(s[1..], x)
      case None => None
      case Some(i) =>
        assert s[..i + 1] == [s[0]] + s[1..][..i];
        Some(i + 1)
  }

  /** In a list without repeats, the found position is the only one. */
  lemma IndexOfDistinct<T>(s: seq<T>, i: nat)
    requires Distinct(s) && i < |s|
    ensures IndexOf(s, s[i]) == Some(i)
  {
  }

  /** Position of the first card with the given id, or None. */
  function FindCard(hand: seq<Card>, id: int): (r: Option<nat>)
    ensures r.None? <==> forall k :: 0 <= k < |hand| ==> hand[k].id != id
    ensures r.Some? ==> r.value < |hand| && hand[r.value].id == id
    ensures r.Some? ==> forall k :: 0 <= k < r.value ==> hand[k].id != id
  {
    if hand == [] then None
    else if hand[0].id == id then Some(0)
    else match FindCard(hand[1..], id)
      case None => None
      case Some(i) => Some(i + 1)
  }

  /** The hand without its k-th card, the others kept in order. */
  function Without(hand: seq<Card>, k: nat): (r: seq<Card>)
    requires k < |hand|
    ensures |r| == |hand| - 1
    ensures multiset(r) + multiset{hand[k]} == multiset(hand)
    ensures forall c :: c in r ==> c in hand
  {
    assert hand == hand[..k] + [hand[k]] + hand[k + 1..];
    hand[..k] + hand[k + 1..]
  }

  /** Taking the card with the given id from a hand: the card and the rest of
      the hand, or None when no held card has that id. */
  function TakeCard(hand: seq<Card>, id: int): (r: Option<(Card, seq<Card>)>)
    ensures r.None? <==> forall c :: c in hand ==> c.id != id
    ensures r.Some? ==> r.value.0.id == id && r.value.0 in hand
    ensures r.Some? ==> multiset(r.value.1) + multiset{r.value.0} == multiset(hand)
  {
    match FindCard(hand, id)
    case None => None
    case Some(k) => Some((hand[k], Without(hand, k)))
  }

  /** Drawing from the deck: its first card and the rest, or None when the
      deck is empty. */
  function Draw(deck: seq<Card>): (r: Option<(Card, seq<Card>)>)
    ensures r.None? <==> deck == []
    ensures r.Some? ==> multiset(r.value.1) + multiset{r.value.0} == multiset(deck)
    ensures r.Some? ==> |r.value.1| == |deck| - 1 && r.value.0 in deck
  {
    if deck == [] then None
    else
      assert deck == [deck[0]] + deck[1..];
      Some((deck[0], deck[1..]))
  }

  /** The rank on top of a pile, an empty pile counting as rank 0. */
  function TopRank(pile: seq<Card>): (r: int)
    ensures pile == [] ==> r == 0
    ensures pile != [] ==> r == pile[|pile| - 1].number
  {
    if pile == [] then 0 else pile[|pile| - 1].number
  }

  /** An ordered pile's top rank is its height. */
  lemma {:induction false} TopRankOfOrdered(c: Color, pile: seq<Card>)
    requires PileOrdered(c, pile)
    ensures TopRank(pile) == |pile|
  {
    if pile != [] {
      assert pile[|pile| - 1].number == |pile|;
    }
  }

  /** The top card as the source reads it, pile[len(pile)-1]: None stands for
      the index fault on an empty pile. */
  function TopAsWritten(pile: seq<Card>): (r: Option<int>)
    ensures r.None? <==> pile == []
    ensures r.Some? ==> r.value == TopRank(pile)
  {
    if |pile| - 1 < 0 then None else Some(pile[|pile| - 1].number)
  }

  /** On a new game's board every pile is empty, so the source's top-card
      read faults for the first card played in any deck color. */
  lemma FirstPlayFaults(deck: seq<Card>, c: Card)
    requires CardOk(c)
    ensures c.color in NewTable(deck).board
    ensures TopAsWritten(NewTable(deck).board[c.color]) == None
  {
  }
}
