/** The state a player is shown: everything about the game except the colors
    and ranks of the player's own cards, the game's status from that player's
    point of view, and the turns logged since the player's cursor. */
module View {
  import opened Cards
  import opened Tables

  /** The game's status as one viewer sees it. */
  datatype GameStatus = NotStarted | Finished | YourTurn | WaitingForTurn

  /** The response to a state query. */
  datatype StateSummary = StateSummary(
    players: seq<string>,
    board: map<Color, seq<Card>>,
    discard: seq<Card>,
    hand: seq<HiddenCard>,
    otherHands: map<string, seq<Card>>,
    state: GameStatus,
    turns: seq<Turn>,
    turnCursor: int)

  /** The display names of the first k joined players, in join order. */
  function NamesUpTo(t: Table, k: nat): (r: seq<string>)
    requires k <= |t.players|
    ensures |r| == k
    ensures forall i :: 0 <= i < k ==> r[i] == NameOf(t, t.players[i])
  {
    if k == 0 then [] else NamesUpTo(t, k - 1) + [NameOf(t, t.players[k - 1])]
  }

  /** The board as exported: the same colors with the same piles, an empty
      pile exported as an empty list. */
  function ExportBoard(board: map<Color, seq<Card>>): (r: map<Color, seq<Card>>)
    ensures r == board
  {
    var r := map c | c in board :: if |board[c]| == 0 then [] else board[c];
    assert r.Keys == board.Keys;
    r
  }

  /** The turns logged from cursor on: with the turns before the cursor they
      make up the whole log. */
  function TurnsSince(turns: seq<Turn>, cursor: int): (r: seq<Turn>)
    requires 0 <= cursor <= |turns|
    ensures turns[..cursor] + r == turns
    ensures |r| == |turns| - cursor
  {
    assert turns == turns[..cursor] + turns[cursor..];
    turns[cursor..]
  }

  /** No two sessions holding a hand share a display name, so hands keyed by
      name do not collide. */
  predicate HandNamesDistinct(t: Table)
  {
    forall s1, s2 :: s1 in t.hands && s2 in t.hands && s1 != s2 ==> NameOf(t, s1) != NameOf(t, s2)
  }

  /** Two different joined players of a valid game have different names. */
  lemma NamesDiffer(t: Table, numPlayers: int, s1: Session, s2: Session)
    requires Valid(t, numPlayers) && s1 in t.players && s2 in t.players && s1 != s2
    ensures NameOf(t, s1) != NameOf(t, s2)
  {
    var i :| 0 <= i < |t.players| && t.players[i] == s1;
    var j :| 0 <= j < |t.players| && t.players[j] == s2;
    if i < j {
      assert NameOf(t, t.players[i]) != NameOf(t, t.players[j]);
    } else {
      assert j < i;
      assert NameOf(t, t.players[j]) != NameOf(t, t.players[i]);
    }
  }

  lemma ValidHandNamesDistinct(t: Table, numPlayers: int)
    requires Valid(t, numPlayers)
    ensures HandNamesDistinct(t)
  {
    forall s1, s2 | s1 in t.hands && s2 in t.hands && s1 != s2
      ensures NameOf(t, s1) != NameOf(t, s2)
    {
      NamesDiffer(t, numPlayers, s1, s2);
    }
  }

  /** Every hand except the viewer's, in full, keyed by its holder's name. */
  function OtherHands(t: Table, viewer: Session): (r: map<string, seq<Card>>)
    requires HandNamesDistinct(t)
    ensures forall s :: s in t.hands && s != viewer ==> NameOf(t, s) in r && r[NameOf(t, s)] == t.hands[s]
    ensures forall k :: k in r ==> exists s :: s in t.hands && s != viewer && NameOf(t, s) == k
  {
    map s | s in t.hands && s != viewer :: NameOf(t, s) := t.hands[s]
  }

  /** In a valid game the viewer's own name is never a key of the other
      hands, so a player never sees their own cards there. */
  lemma OwnHandNotShown(t: Table, numPlayers: int, viewer: Session)
    requires Valid(t, numPlayers) && viewer in t.players
    ensures HandNamesDistinct(t)
    ensures NameOf(t, viewer) !in OtherHands(t, viewer)
  {
    ValidHandNamesDistinct(t, numPlayers);
    forall s | s in t.hands && s != viewer
      ensures NameOf(t, s) != NameOf(t, viewer)
    {
      NamesDiffer(t, numPlayers, s, viewer);
    }
  }

  /** The viewer's own hand with every card reduced to its identity, one per
      held card, in the same order. */
  function HiddenPlayerHand(t: Table, viewer: Session): (r: seq<HiddenCard>)
    ensures |r| == |Lookup(t.hands, viewer)|
    ensures forall i :: 0 <= i < |r| ==> r[i].id == Lookup(t.hands, viewer)[i].id
  {
    var hand := Lookup(t.hands, viewer);
    seq(|hand|, i requires 0 <= i < |hand| => Hide(hand[i]))
  }

  /** A game has started once all configured players have joined; from then
      on whoseTurn indexes a player or is -1. */
  predicate TurnInRange(t: Table, numPlayers: int)
  {
    |t.players| >= numPlayers ==> -1 <= t.whoseTurn < |t.players|
  }

  /** The status a viewer is shown: not started until every seat is taken,
      then finished when whoseTurn is -1, otherwise whether it is this
      viewer's turn. */
  function Status(t: Table, numPlayers: int, viewer: Session): (st: GameStatus)
    requires TurnInRange(t, numPlayers)
    ensures st == NotStarted <==> |t.players| < numPlayers
    ensures st == Finished <==> |t.players| >= numPlayers && t.whoseTurn == -1
    ensures st == YourTurn <==> |t.players| >= numPlayers && t.whoseTurn != -1 && t.players[t.whoseTurn] == viewer
  {
    if |t.players| < numPlayers then NotStarted
    else if t.whoseTurn == -1 then Finished
    else if t.players[t.whoseTurn] == viewer then YourTurn
    else WaitingForTurn
  }

  /** Once a valid game has started and is not finished, exactly one joined
      player is told it is their turn and every other one is told to wait. */
  lemma ExactlyOneYourTurn(t: Table, numPlayers: int)
    requires Valid(t, numPlayers) && |t.players| >= numPlayers && t.whoseTurn != -1
    ensures TurnInRange(t, numPlayers)
    ensures (set s | s in t.players && Status(t, numPlayers, s) == YourTurn) == {t.players[t.whoseTurn]}
    ensures forall s :: s in t.players && s != t.players[t.whoseTurn] ==> Status(t, numPlayers, s) == WaitingForTurn
  {
    var mover := t.players[t.whoseTurn];
    var yours := set s | s in t.players && Status(t, numPlayers, s) == YourTurn;
    assert mover in yours;
    assert yours <= {mover};
  }

  /** What a query needs: hands keyed by name do not collide, and once the
      game has started the turn index and the cursor are in range. */
  predicate CanSummarize(t: Table, numPlayers: int, cursor: int)
  {
    HandNamesDistinct(t) && TurnInRange(t, numPlayers) &&
    (|t.players| >= numPlayers ==> 0 <= cursor <= |t.turns|)
  }

  /** A valid game can always be summarized for a cursor within its log:
      joined names are distinct and whoseTurn is a seat or -1. */
  lemma ValidCanSummarize(t: Table, numPlayers: int, cursor: int)
    requires Valid(t, numPlayers) && 0 <= cursor <= |t.turns|
    ensures CanSummarize(t, numPlayers, cursor)
  {
    ValidHandNamesDistinct(t, numPlayers);
  }

  /** The state shown to viewer, given the count of turns already seen. */
  function Summary(t: Table, numPlayers: int, viewer: Session, cursor: int): (r: StateSummary)
    requires CanSummarize(t, numPlayers, cursor)
    ensures r.players == NamesUpTo(t, |t.players|)
    ensures r.board == t.board && r.discard == t.discard
    ensures r.hand == HiddenPlayerHand(t, viewer) && r.otherHands == OtherHands(t, viewer)
    ensures r.state == Status(t, numPlayers, viewer)
    ensures |t.players| < numPlayers ==> r.turns == [] && r.turnCursor == 0
    ensures |t.players| >= numPlayers ==> t.turns[..cursor] + r.turns == t.turns && r.turnCursor == |t.turns|
  {
    var started := |t.players| >= numPlayers;
    StateSummary(
      NamesUpTo(t, |t.players|),
      ExportBoard(t.board),
      t.discard,
      HiddenPlayerHand(t, viewer),
      OtherHands(t, viewer),
      Status(t, numPlayers, viewer),
      if started then TurnsSince(t.turns, cursor) else [],
      if started then |t.turns| else 0)
  }

  /** Polling with the returned cursor yields exactly the turns logged since:
      if the log has only grown, the next query's turns extend the old log to
      the new one. */
  lemma CursorResumes(t: Table, t': Table, numPlayers: int, viewer: Session, cursor: int)
    requires CanSummarize(t, numPlayers, cursor) && |t.players| >= numPlayers
    requires |t.turns| <= |t'.turns| && t'.turns[..|t.turns|] == t.turns
    requires CanSummarize(t', numPlayers, Summary(t, numPlayers, viewer, cursor).turnCursor)
    requires |t'.players| >= numPlayers
    ensures t.turns + Summary(t', numPlayers, viewer, Summary(t, numPlayers, viewer, cursor).turnCursor).turns == t'.turns
  {
  }

  /** The viewer's hidden hand depends on the ids of the viewer's cards only. */
  lemma HiddenIgnoresOwnCards(t: Table, viewer: Session, h: seq<Card>)
    requires viewer in t.hands && |h| == |t.hands[viewer]|
    requires forall i :: 0 <= i < |h| ==> h[i].id == t.hands[viewer][i].id
    ensures HiddenPlayerHand(t.(hands := t.hands[viewer := h]), viewer) == HiddenPlayerHand(t, viewer)
  {
    var mine, mine2 := HiddenPlayerHand(t, viewer), HiddenPlayerHand(t.(hands := t.hands[viewer := h]), viewer);
    forall i | 0 <= i < |mine|
      ensures mine2[i] == mine[i]
    {
      assert mine2[i].id == mine[i].id;
    }
  }

  /** The two tables agree on names and on every hand but the viewer's. */
  ghost predicate AgreeOffViewer(t1: Table, t2: Table, viewer: Session)
  {
    t1.playerNames == t2.playerNames &&
    (forall s :: s != viewer ==> (s in t1.hands <==> s in t2.hands)) &&
    (forall s :: s != viewer && s in t1.hands ==> t1.hands[s] == t2.hands[s])
  }

  /** Every name shown in t1's other hands is shown, with the same hand, in
      t2's. */
  lemma OthersIncluded(t1: Table, t2: Table, viewer: Session, k: string)
    requires HandNamesDistinct(t1) && HandNamesDistinct(t2) && AgreeOffViewer(t1, t2, viewer)
    requires k in OtherHands(t1, viewer)
    ensures k in OtherHands(t2, viewer) && OtherHands(t2, viewer)[k] == OtherHands(t1, viewer)[k]
  {
    var s :| s in t1.hands && s != viewer && NameOf(t1, s) == k;
    assert NameOf(t2, s) == k;
  }

  /** The other hands depend only on the names and on the hands of the
      sessions other than the viewer. */
  lemma OthersAgree(t1: Table, t2: Table, viewer: Session)
    requires HandNamesDistinct(t1) && HandNamesDistinct(t2)
    requires AgreeOffViewer(t1, t2, viewer)
    ensures OtherHands(t1, viewer) == OtherHands(t2, viewer)
  {
    var o1, o2 := OtherHands(t1, viewer), OtherHands(t2, viewer);
    forall k | k in o1
      ensures k in o2 && o1[k] == o2[k]
    {
      OthersIncluded(t1, t2, viewer, k);
    }
    forall k | k in o2
      ensures k in o1
    {
      OthersIncluded(t2, t1, viewer, k);
    }
  }

  /** Changing the viewer's own hand keeps hand names distinct. */
  lemma HandNamesAfterUpdate(t: Table, viewer: Session, h: seq<Card>)
    requires HandNamesDistinct(t) && viewer in t.hands
    ensures HandNamesDistinct(t.(hands := t.hands[viewer := h]))
  {
    var t2 := t.(hands := t.hands[viewer := h]);
    forall s1, s2 | s1 in t2.hands && s2 in t2.hands && s1 != s2
      ensures NameOf(t2, s1) != NameOf(t2, s2)
    {
      assert s1 in t.hands && s2 in t.hands;
    }
  }

  /** The hidden information: what a viewer is shown does not depend on the
      colors or ranks of the viewer's own cards. Replacing them by any cards
      with the same ids, in the same order, yields the same response. */
  lemma ViewIgnoresOwnCards(t: Table, numPlayers: int, viewer: Session, cursor: int, h: seq<Card>)
    requires CanSummarize(t, numPlayers, cursor) && viewer in t.hands
    requires |h| == |t.hands[viewer]|
    requires forall i :: 0 <= i < |h| ==> h[i].id == t.hands[viewer][i].id
    ensures CanSummarize(t.(hands := t.hands[viewer := h]), numPlayers, cursor)
    ensures Summary(t.(hands := t.hands[viewer := h]), numPlayers, viewer, cursor) == Summary(t, numPlayers, viewer, cursor)
  {
    var t2 := t.(hands := t.hands[viewer := h]);
    HiddenIgnoresOwnCards(t, viewer, h);
    HandNamesAfterUpdate(t, viewer, h);
    assert AgreeOffViewer(t2, t, viewer);
    OthersAgree(t2, t, viewer);
    NamesIgnoreHands(t, t2.hands, |t.players|);
  }

  /** The names list never depends on the hands. */
  lemma {:induction false} NamesIgnoreHands(t: Table, hands: map<Session, seq<Card>>, k: nat)
    requires k <= |t.players|
    ensures NamesUpTo(t.(hands := hands), k) == NamesUpTo(t, k)
  {
    if k > 0 {
      NamesIgnoreHands(t, hands, k - 1);
    }
  }
}
