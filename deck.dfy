/** Construction of a fresh deck: the fixed multiset of 50 cards scattered
    through a permutation of the slots, each card taking its slot as its id. */
module Deck {
  import opened Cards

  /** Five colors times (3 + 2 + 2 + 2 + 1) copies. */
  const DeckSize: int := 5 * (3 + 2 + 2 + 2 + 1)

  /** Starts[n] is where the copies of rank Numbers[n] begin inside one
      color's run of ten; Starts[5] is the run's length. */
  const Starts: seq<int> := [0, 3, 5, 7, 9, 10]

  /** order lists each of 0..n-1 exactly once. */
  predicate IsPermutation(order: seq<int>, n: int)
  {
    |order| == n &&
    (forall p :: 0 <= p < n ==> 0 <= order[p] < n) &&
    (forall p, q :: 0 <= p < q < n ==> order[p] != order[q]) &&
    (forall i :: 0 <= i < n ==> i in order)
  }

  /** The (color, rank) pairs the two inner loops visit for one color. */
  function Run(c: Color): (r: seq<(Color, int)>)
    ensures |r| == 10
  {
    [(c, 1), (c, 1), (c, 1), (c, 2), (c, 2), (c, 3), (c, 3), (c, 4), (c, 4), (c, 5)]
  }

  /** Inside a run, the d-th copy of rank Numbers[n] sits at Starts[n] + d,
      and the positions holding that rank are exactly those copies. */
  lemma RunAt(c: Color, n: int, k: int)
    requires 0 <= n < |Numbers| && 0 <= k < 10
    ensures Starts[n] + Copies[n] == Starts[n + 1]
    ensures Run(c)[k].0 == c
    ensures Run(c)[k].1 == Numbers[n] <==> Starts[n] <= k < Starts[n] + Copies[n]
  {
  }

  /** The (color, rank) pairs the nested loops visit, in visiting order,
      when they range over the given colors: the i-th pair is the kind of
      the card written through order[i]. */
  function LoopWrites(colors: seq<Color>): seq<(Color, int)>
  {
    if colors == [] then [] else Run(colors[0]) + LoopWrites(colors[1..])
  }

  lemma {:induction false} LoopWritesLength(colors: seq<Color>)
    ensures |LoopWrites(colors)| == 10 * |colors|
  {
    if colors != [] {
      LoopWritesLength(colors[1..]);
    }
  }

  /** The pair visited at step 10 * ci + k is the k-th of color ci's run. */
  lemma {:induction false} LoopWritesAt(colors: seq<Color>, ci: int, k: int)
    requires 0 <= ci < |colors| && 0 <= k < 10
    ensures |LoopWrites(colors)| == 10 * |colors|
    ensures LoopWrites(colors)[10 * ci + k] == Run(colors[ci])[k]
  {
    LoopWritesLength(colors);
    if ci > 0 {
      LoopWritesAt(colors[1..], ci - 1, k);
      assert colors[1..][ci - 1] == colors[ci];
    }
  }

  /** The visiting order over the five deck colors: one pair per card. */
  function Layout(): (l: seq<(Color, int)>)
    ensures |l| == DeckSize
  {
    LoopWritesLength(DeckColors);
    LoopWrites(DeckColors)
  }

  /** Over all six declared colors the loops would visit 60 slots, ten more
      than the 50 entries of order: the 51st visit would read order[50]. */
  lemma SixColorsOverrun()
    ensures |LoopWrites(AllColors)| == 60 > DeckSize
  {
    LoopWritesLength(AllColors);
  }

  /** The card the loops write at step p: it lands in slot order[p] and
      carries that slot as its id. */
  function Entry(order: seq<int>, p: int): Card
    requires 0 <= p < |order| && p < DeckSize
  {
    Card(order[p], Layout()[p].0, Layout()[p].1)
  }

  /** The first p steps' cards are in place. */
  ghost predicate WrittenUpTo(cards: seq<Card>, order: seq<int>, p: int)
    requires IsPermutation(order, DeckSize) && |cards| == DeckSize && 0 <= p <= DeckSize
  {
    forall q :: 0 <= q < p ==> cards[order[q]] == Entry(order, q)
  }

  /** Writing step p's card keeps the earlier steps' cards, since the
      permutation sends different steps to different slots. */
  lemma WriteStep(cards: seq<Card>, order: seq<int>, p: int)
    requires IsPermutation(order, DeckSize) && |cards| == DeckSize && 0 <= p < DeckSize
    requires WrittenUpTo(cards, order, p)
    ensures WrittenUpTo(cards[order[p] := Entry(order, p)], order, p + 1)
  {
  }

  /** Step 10 * ci + Starts[n] + d of the loops writes color DeckColors[ci]
      and rank Numbers[n]. */
  lemma StepKind(ci: int, n: int, d: int)
    requires 0 <= ci < |DeckColors| && 0 <= n < |Numbers| && 0 <= d < Copies[n]
    ensures 10 * ci + Starts[n] + d < DeckSize
    ensures Layout()[10 * ci + Starts[n] + d] == (DeckColors[ci], Numbers[n])
  {
    RunAt(DeckColors[ci], n, Starts[n] + d);
    LoopWritesAt(DeckColors, ci, Starts[n] + d);
  }

  /** deck is order's scatter of Layout: the card visited at step p lands in
      slot order[p] and carries order[p] as its id. */
  ghost predicate Scattered(deck: seq<Card>, order: seq<int>)
  {
    |deck| == DeckSize && |order| == DeckSize &&
    forall p :: 0 <= p < DeckSize ==>
      0 <= order[p] < DeckSize && deck[order[p]] == Card(order[p], Layout()[p].0, Layout()[p].1)
  }

  /** A fresh deck: every color and rank visited in order, each card written
      into the slot the permutation assigns to its visiting step. */
  method NewDeck(order: seq<int>) returns (deck: seq<Card>)
    requires IsPermutation(order, DeckSize)
    ensures Scattered(deck, order)
    ensures |deck| == DeckSize
    ensures forall i :: 0 <= i < |deck| ==> deck[i].id == i
    ensures forall i :: 0 <= i < |deck| ==> deck[i].color in DeckColors && deck[i].color in AllColors
    ensures forall i :: 0 <= i < |deck| ==> deck[i].number in Numbers
  {
    var cards := new Card[DeckSize](_ => Card(0, Red, 0));
    var p := 0;
    for ci := 0 to |DeckColors|
      invariant p == 10 * ci
      invariant WrittenUpTo(cards[..], order, p)
    {
      var color := DeckColors[ci];
      for n := 0 to |Numbers|
        invariant p == 10 * ci + Starts[n]
        invariant WrittenUpTo(cards[..], order, p)
      {
        var number := Numbers[n];
        var dupe := Copies[n];
        RunAt(color, n, 0);
        for d := 0 to dupe
          invariant p == 10 * ci + Starts[n] + d
          invariant WrittenUpTo(cards[..], order, p)
        {
          StepKind(ci, n, d);
          WriteStep(cards[..], order, p);
          cards[order[p]] := Card(order[p], color, number);
          p := p + 1;
        }
      }
    }
    deck := cards[..];
    ScatteredCards(deck, order);
  }

  /** Every slot of a scattered deck is written: the card in slot i has id i
      and a deck color and a rank from Numbers. */
  lemma ScatteredCards(deck: seq<Card>, order: seq<int>)
    requires IsPermutation(order, DeckSize) && Scattered(deck, order)
    ensures forall i :: 0 <= i < |deck| ==> deck[i].id == i
    ensures forall i :: 0 <= i < |deck| ==> deck[i].color in DeckColors && deck[i].color in AllColors
    ensures forall i :: 0 <= i < |deck| ==> deck[i].number in Numbers
  {
    forall i | 0 <= i < |deck|
      ensures deck[i].id == i && deck[i].color in DeckColors && deck[i].number in Numbers
    {
      assert i in order;
      var q :| 0 <= q < |order| && order[q] == i;
      LayoutKind(q);
    }
  }

  /** Every step writes a deck color and a rank from Numbers. */
  lemma LayoutKind(q: int)
    requires 0 <= q < DeckSize
    ensures Layout()[q].0 in DeckColors && Layout()[q].1 in Numbers
  {
    LoopWritesAt(DeckColors, q / 10, q % 10);
    RunAt(DeckColors[q / 10], 0, q % 10);
  }

  /** The slots holding cards of color c and rank r. */
  ghost function SlotsOf(deck: seq<Card>, c: Color, r: int): set<int>
  {
    set i | 0 <= i < |deck| && deck[i].color == c && deck[i].number == r
  }

  /** An injective stretch of order has as many distinct values as steps. */
  lemma {:induction false} ImageSize(order: seq<int>, lo: int, hi: int)
    requires 0 <= lo <= hi <= |order|
    requires forall p, q :: lo <= p < q < hi ==> order[p] != order[q]
    ensures |set p | lo <= p < hi :: order[p]| == hi - lo
  {
    if lo < hi {
      ImageSize(order, lo, hi - 1);
      var before := set p | lo <= p < hi - 1 :: order[p];
      assert (set p | lo <= p < hi :: order[p]) == before + {order[hi - 1]};
      assert order[hi - 1] !in before;
    }
  }

  /** A slot holding color DeckColors[ci] and rank Numbers[n] was written
      by one of the Copies[n] steps of that color and rank. */
  lemma SlotsInImage(deck: seq<Card>, order: seq<int>, ci: int, n: int, i: int)
    requires IsPermutation(order, DeckSize) && Scattered(deck, order)
    requires 0 <= ci < |DeckColors| && 0 <= n < |Numbers|
    requires i in SlotsOf(deck, DeckColors[ci], Numbers[n])
    ensures exists p :: 10 * ci + Starts[n] <= p < 10 * ci + Starts[n] + Copies[n] && order[p] == i
  {
    assert i in order;
    var q :| 0 <= q < |order| && order[q] == i;
    var c, k := q / 10, q % 10;
    LoopWritesAt(DeckColors, c, k);
    RunAt(DeckColors[c], n, k);
    assert c == ci by {
      ConstantsAgree();
    }
  }

  /** Each of the Copies[n] steps of color DeckColors[ci] and rank
      Numbers[n] writes a slot holding that color and rank. */
  lemma ImageInSlots(deck: seq<Card>, order: seq<int>, ci: int, n: int, p: int)
    requires IsPermutation(order, DeckSize) && Scattered(deck, order)
    requires 0 <= ci < |DeckColors| && 0 <= n < |Numbers|
    requires 10 * ci + Starts[n] <= p < 10 * ci + Starts[n] + Copies[n]
    ensures order[p] in SlotsOf(deck, DeckColors[ci], Numbers[n])
  {
    RunAt(DeckColors[ci], n, 0);
    LoopWritesAt(DeckColors, ci, p - 10 * ci);
    RunAt(DeckColors[ci], n, p - 10 * ci);
  }

  /** In a deck built from a permutation, each deck color holds rank
      Numbers[n] exactly Copies[n] times. */
  lemma DeckMultiplicity(deck: seq<Card>, order: seq<int>, ci: int, n: int)
    requires IsPermutation(order, DeckSize) && Scattered(deck, order)
    requires 0 <= ci < |DeckColors| && 0 <= n < |Numbers|
    ensures |SlotsOf(deck, DeckColors[ci], Numbers[n])| == Copies[n]
  {
    var lo := 10 * ci + Starts[n];
    RunAt(DeckColors[ci], n, 0);
    var hi := lo + Copies[n];
    var image := set p | lo <= p < hi :: order[p];
    var slots := SlotsOf(deck, DeckColors[ci], Numbers[n]);
    forall i | i in slots
      ensures i in image
    {
      SlotsInImage(deck, order, ci, n, i);
    }
    forall i | i in image
      ensures i in slots
    {
      var p :| lo <= p < hi && order[p] == i;
      ImageInSlots(deck, order, ci, n, p);
    }
    assert slots == image;
    ImageSize(order, lo, hi);
  }
}
