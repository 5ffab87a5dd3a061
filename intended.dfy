/**
 * The pagination the loop's own code aims at.  It reads the last key and
 * keeps a `last_key_reached` flag for the final record, and on that record
 * counts the empty cells left on the page and fills them with "-": the
 * evident aim is to pad the last batch to a full page and emit it.  Here
 * the end of the deck is recognised by position, and the last batch is
 * padded with placeholders up to exactly `cardsPerPage` cells.  For an
 * empty deck, where the program raises, this model chooses to emit one
 * page pair of placeholders.  For a deck that fills whole pages it emits
 * what the loop as written emits; otherwise it adds the padded last batch
 * that the loop drops.
 */
module Intended {
  import opened Grid
  import opened Paging

  /** Fill a short batch up to exactly cardsPerPage cells. */
  function PadToPage(content: seq<string>, cardsPerPage: nat): (padded: seq<string>)
    requires |content| <= cardsPerPage
    ensures |padded| == cardsPerPage
    ensures padded[..|content|] == content
    ensures forall i :: |content| <= i < cardsPerPage ==> padded[i] == PLACEHOLDER
  {
    content + Placeholders(cardsPerPage - |content|)
  }

  /** Front page then back page of every batch; the last batch, possibly empty, is padded. */
  function Paginate(deck: seq<Card>, cardsPerPage: nat): (pages: seq<Page>)
    requires ValidPageSize(cardsPerPage)
    ensures |pages| >= 2 && |pages| % 2 == 0
    decreases |deck|
  {
    if |deck| <= cardsPerPage then
      [FrontGrid(PadToPage(Fronts(deck), cardsPerPage)), BackGrid(PadToPage(Backs(deck), cardsPerPage))]
    else
      var batch := deck[..cardsPerPage];
      [FrontGrid(Fronts(batch)), BackGrid(Backs(batch))] + Paginate(deck[cardsPerPage..], cardsPerPage)
  }

  /** The number of page pairs: ceil(n / cardsPerPage), and one for an empty deck. */
  function PagePairs(n: nat, cardsPerPage: nat): nat
    requires cardsPerPage > 0
  {
    if n == 0 then 1 else (n + cardsPerPage - 1) / cardsPerPage
  }

  /** The placeholders after the last card: none when the deck fills its last page. */
  function PaddingCount(n: nat, cardsPerPage: nat): nat
    requires cardsPerPage > 0
  {
    if n > 0 && n % cardsPerPage == 0 then 0 else cardsPerPage - n % cardsPerPage
  }

  lemma {:induction false} PaginatePageCount(deck: seq<Card>, cardsPerPage: nat)
    requires ValidPageSize(cardsPerPage)
    ensures |Paginate(deck, cardsPerPage)| == 2 * PagePairs(|deck|, cardsPerPage)
    decreases |deck|
  {
    var n, c := |deck|, cardsPerPage;
    if n > c {
      var rest := deck[c..];
      PaginatePageCount(rest, c);
      assert |Paginate(deck, c)| == 2 + |Paginate(rest, c)|;
      DivStep(n + c - 1, c);
      assert PagePairs(|rest|, c) == ((n + c - 1) - c) / c;
      assert PagePairs(n, c) == (n + c - 1) / c;
    } else if n > 0 {
      DivUnique(n + c - 1, c, 1, n - 1);
      assert PagePairs(n, c) == 1;
    }
  }

  /** Every page, the last one included, has cardsPerPage / 2 rows of two cells. */
  lemma {:induction false} PaginateFullPages(deck: seq<Card>, cardsPerPage: nat, p: nat)
    requires ValidPageSize(cardsPerPage) && p < |Paginate(deck, cardsPerPage)|
    ensures |Paginate(deck, cardsPerPage)[p]| == cardsPerPage / 2
    decreases |deck|
  {
    if |deck| > cardsPerPage && p >= 2 {
      PaginateFullPages(deck[cardsPerPage..], cardsPerPage, p - 2);
    }
  }

  /** The pages of a deck that fits on one page read back as its cards and then placeholders. */
  lemma LastBatchInOrder(deck: seq<Card>, cardsPerPage: nat)
    requires ValidPageSize(cardsPerPage) && |deck| <= cardsPerPage
    ensures FrontSideCells(Paginate(deck, cardsPerPage)) ==
            Fronts(deck) + Placeholders(PaddingCount(|deck|, cardsPerPage))
    ensures BackSideCells(Paginate(deck, cardsPerPage)) ==
            Backs(deck) + Placeholders(PaddingCount(|deck|, cardsPerPage))
  {
    var n, c := |deck|, cardsPerPage;
    var pages := Paginate(deck, c);
    var f, b := PadToPage(Fronts(deck), c), PadToPage(Backs(deck), c);
    assert pages == [FrontGrid(f), BackGrid(b)];
    assert pages[2..] == [];
    CellsOfFrontGrid(f);
    CellsOfMirroredBack(b);
    if n < c {
      DivSmall(n, c);
    } else {
      DivUnique(n, c, 1, 0);
    }
    assert PaddingCount(n, c) == c - n;
    assert f == Fronts(deck) + Placeholders(c - n);
    assert b == Backs(deck) + Placeholders(c - n);
  }

  /**
   * Order preservation as intended: the front pages read back as every
   * front in deck order followed by the padding, and the back pages,
   * mirroring undone, as every back followed by the padding.
   */
  lemma {:induction false} PaginateInDeckOrder(deck: seq<Card>, cardsPerPage: nat)
    requires ValidPageSize(cardsPerPage)
    ensures FrontSideCells(Paginate(deck, cardsPerPage)) ==
            Fronts(deck) + Placeholders(PaddingCount(|deck|, cardsPerPage))
    ensures BackSideCells(Paginate(deck, cardsPerPage)) ==
            Backs(deck) + Placeholders(PaddingCount(|deck|, cardsPerPage))
    decreases |deck|
  {
    var n, c := |deck|, cardsPerPage;
    if n <= c {
      LastBatchInOrder(deck, c);
    } else {
      var batch, rest := deck[..c], deck[c..];
      var pad := Placeholders(PaddingCount(n, c));
      PaginateInDeckOrder(rest, c);
      DivStep(n, c);
      assert PaddingCount(|rest|, c) == PaddingCount(n, c);
      SideCellsOfPair(FrontGrid(Fronts(batch)), BackGrid(Backs(batch)), Paginate(rest, c));
      CellsOfFrontGrid(Fronts(batch));
      CellsOfMirroredBack(Backs(batch));
      assert deck == batch + rest;
      FrontsBacksConcat(batch, rest);
    }
  }

  /** The pages the loop as written emits are the first pages of the intended output. */
  lemma {:induction false} AsWrittenIsPrefix(deck: seq<Card>, cardsPerPage: nat)
    requires ValidPageSize(cardsPerPage)
    ensures |CardPages(deck, cardsPerPage)| <= |Paginate(deck, cardsPerPage)|
    ensures Paginate(deck, cardsPerPage)[..|CardPages(deck, cardsPerPage)|] == CardPages(deck, cardsPerPage)
    decreases |deck|
  {
    var c := cardsPerPage;
    if |deck| > c {
      AsWrittenIsPrefix(deck[c..], c);
    } else if |deck| == c {
      assert deck[c..] == [];
      assert deck[..c] == deck;
      assert PadToPage(Fronts(deck), c) == Fronts(deck);
      assert PadToPage(Backs(deck), c) == Backs(deck);
    }
  }

  /** A deck that fills its pages exactly is paged the same both ways. */
  lemma {:induction false} WholePagesAgree(deck: seq<Card>, cardsPerPage: nat)
    requires ValidPageSize(cardsPerPage) && |deck| > 0 && |deck| % cardsPerPage == 0
    ensures Paginate(deck, cardsPerPage) == CardPages(deck, cardsPerPage)
    decreases |deck|
  {
    var c := cardsPerPage;
    if |deck| == c {
      assert deck[c..] == [];
      assert deck[..c] == deck;
      assert PadToPage(Fronts(deck), c) == Fronts(deck);
      assert PadToPage(Backs(deck), c) == Backs(deck);
    } else {
      DivSmall(|deck|, c);
      DivStep(|deck|, c);
      WholePagesAgree(deck[c..], c);
    }
  }

  /** Thirteen cards on pages of twelve: the loop as written emits one page pair and drops card 13. */
  lemma ThirteenCardsAsWritten(deck: seq<Card>)
    requires |deck| == 13
    ensures |CardPages(deck, CARDS_PER_PAGE)| == 2
    ensures CardPages(deck, CARDS_PER_PAGE) == CardPages(deck[..12], CARDS_PER_PAGE)
    ensures |Paginate(deck, CARDS_PER_PAGE)| == 4
  {
    CardPageCount(deck, CARDS_PER_PAGE);
    TrailingCardsDropped(deck, CARDS_PER_PAGE);
    PaginatePageCount(deck, CARDS_PER_PAGE);
  }

  /** Thirteen cards, as intended: the second page pair holds card 13 and eleven placeholders. */
  lemma ThirteenCardsIntended(deck: seq<Card>)
    requires |deck| == 13
    ensures |Paginate(deck, CARDS_PER_PAGE)| == 4
    ensures |Paginate(deck, CARDS_PER_PAGE)[2]| == |Paginate(deck, CARDS_PER_PAGE)[3]| == 6
    ensures Paginate(deck, CARDS_PER_PAGE)[2][0] == (deck[12].0, PLACEHOLDER)
    ensures Paginate(deck, CARDS_PER_PAGE)[3][0] == (PLACEHOLDER, deck[12].1)
    ensures forall i :: 1 <= i < 6 ==> Paginate(deck, CARDS_PER_PAGE)[2][i] == (PLACEHOLDER, PLACEHOLDER)
    ensures forall i :: 1 <= i < 6 ==> Paginate(deck, CARDS_PER_PAGE)[3][i] == (PLACEHOLDER, PLACEHOLDER)
  {
    var rest := deck[12..];
    assert Paginate(deck, CARDS_PER_PAGE)[2..] == Paginate(rest, CARDS_PER_PAGE);
    var f, b := PadToPage(Fronts(rest), 12), PadToPage(Backs(rest), 12);
    FrontGridAt(f, 0);
    BackGridAt(b, 0);
    forall i | 1 <= i < 6 ensures FrontGrid(f)[i] == (PLACEHOLDER, PLACEHOLDER) {
      FrontGridAt(f, i);
    }
    forall i | 1 <= i < 6 ensures BackGrid(b)[i] == (PLACEHOLDER, PLACEHOLDER) {
      BackGridAt(b, i);
    }
  }

  /** An empty deck gives one front and one back page of placeholders only. */
  lemma EmptyDeckBlankPages(cardsPerPage: nat)
    requires ValidPageSize(cardsPerPage)
    ensures |Paginate([], cardsPerPage)| == 2
    ensures forall p, i :: 0 <= p < 2 && 0 <= i < cardsPerPage / 2 ==>
              Paginate([], cardsPerPage)[p][i] == (PLACEHOLDER, PLACEHOLDER)
  {
    var blank := PadToPage([], cardsPerPage);
    forall i | 0 <= i < cardsPerPage / 2
      ensures FrontGrid(blank)[i] == (PLACEHOLDER, PLACEHOLDER) && BackGrid(blank)[i] == (PLACEHOLDER, PLACEHOLDER)
    {
      FrontGridAt(blank, i);
      BackGridAt(blank, i);
    }
    assert Backs([]) == Fronts([]) == [];
  }
}
