/**
 * The card-paging loop of `create_doc` and the summary table that follows
 * it, as the code is written.
 *
 * Every record adds its first value to the front buffer and its second
 * value to the back buffer.  When both buffers hold `cardsPerPage` cells,
 * a front page and a mirrored back page are emitted and both buffers are
 * emptied.  The end-of-deck test compares the record dict with the last
 * key string, which Python never finds equal, so the padding branch is
 * never taken: the last `n % cardsPerPage` records reach no card page.
 * They are still listed in the summary table.
 */
module Paging {
  import opened Results
  import opened PyDict
  import opened Grid
  import opened Sheet

  /** `CARDS_PER_PAGE`, the page size the program uses. */
  const CARDS_PER_PAGE := 12

  /** The filler of the padding branch. */
  const PLACEHOLDER := "-"

  /** Rows of two cells need an even, positive page size. */
  predicate ValidPageSize(cardsPerPage: int) {
    cardsPerPage > 0 && cardsPerPage % 2 == 0
  }

  lemma DefaultPageSizeValid()
    ensures ValidPageSize(CARDS_PER_PAGE)
  {
  }

  // ---------------------------------------------------------------------
  // The deck: what the loop reads from each record.
  // ---------------------------------------------------------------------

  /** (front text, back text) of one record. */
  type Card = (string, string)

  /** `flash_item_values[0]` and `[1]` exist. */
  predicate HasCard(record: Record) {
    |Values(record)| >= 2
  }

  function CardOf(record: Record): Card
    requires HasCard(record)
  {
    (Values(record)[0], Values(record)[1])
  }

  ghost predicate AllHaveCards(input: Dict<Record>) {
    forall i :: 0 <= i < |input| ==> HasCard(input[i].1)
  }

  /**
   * A record built from a sheet row with distinct field names supplies a
   * card exactly when the row has two cells or more, and its card is the
   * row's first two cells.
   */
  lemma RecordCard(headingRow: seq<string>, row: seq<string>)
    requires |row| <= |headingRow| && Distinct(headingRow)
    ensures HasCard(BuildRecord(headingRow, row)) <==> |row| >= 2
    ensures |row| >= 2 ==> CardOf(BuildRecord(headingRow, row)) == (row[0], row[1])
  {
    BuildRecordInOrder(headingRow, row);
  }

  /** The cards of all records, in the dict's order. */
  function Deck(input: Dict<Record>): seq<Card>
    requires AllHaveCards(input)
  {
    seq(|input|, i requires 0 <= i < |input| => CardOf(input[i].1))
  }

  function Fronts(deck: seq<Card>): seq<string> {
    seq(|deck|, i requires 0 <= i < |deck| => deck[i].0)
  }

  function Backs(deck: seq<Card>): seq<string> {
    seq(|deck|, i requires 0 <= i < |deck| => deck[i].1)
  }

  // ---------------------------------------------------------------------
  // What the loop emits, batch by batch.
  // ---------------------------------------------------------------------

  /**
   * The card pages of `deck` as the loop emits them: for every complete
   * batch of `cardsPerPage` cards, in order, its front page and then its
   * mirrored back page.  A shorter rest emits nothing.
   */
  function CardPages(deck: seq<Card>, cardsPerPage: nat): (pages: seq<Page>)
    requires ValidPageSize(cardsPerPage)
    ensures |pages| % 2 == 0
    ensures forall p :: 0 <= p < |pages| ==> |pages[p]| == cardsPerPage / 2
    decreases |deck|
  {
    if |deck| < cardsPerPage then []
    else
      var batch := deck[..cardsPerPage];
      [FrontGrid(Fronts(batch)), BackGrid(Backs(batch))] + CardPages(deck[cardsPerPage..], cardsPerPage)
  }

  // Arithmetic on the page size, kept linear for the solver.

  lemma MulAtLeast(x: int, c: int)
    requires x >= 1 && c > 0
    ensures x * c >= c
  {
    assert x * c == (x - 1) * c + c;
    assert (x - 1) * c >= 0;
  }

  lemma DivUnique(n: int, c: int, q: int, r: int)
    requires c > 0 && 0 <= r < c && n == q * c + r
    ensures n / c == q && n % c == r
  {
    var q', r' := n / c, n % c;
    assert (q' - q) * c == r - r';
    if q' - q >= 1 {
      MulAtLeast(q' - q, c);
    } else if q - q' >= 1 {
      assert (q - q') * c == r' - r;
      MulAtLeast(q - q', c);
    }
  }

  lemma DivStep(n: nat, c: nat)
    requires 0 < c <= n
    ensures (n - c) / c == n / c - 1
    ensures (n - c) % c == n % c
    ensures ((n - c) / c) * c + c == (n / c) * c
  {
    DivUnique(n - c, c, n / c - 1, n % c);
    assert (n / c - 1) * c + c == (n / c) * c;
  }

  lemma DivSmall(n: nat, c: nat)
    requires c > 0
    ensures n < c ==> n / c == 0 && n % c == n
  {
  }

  /** n is a whole number of batches of c cards. */
  ghost predicate IsMultiple(n: nat, c: nat)
    requires c > 0
    decreases n
  {
    n == 0 || (n >= c && IsMultiple(n - c, c))
  }

  /** k * c, counted up batch by batch. */
  function Offset(k: nat, c: nat): nat {
    if k == 0 then 0 else Offset(k - 1, c) + c
  }

  lemma {:induction false} OffsetIsProduct(k: nat, c: nat)
    ensures Offset(k, c) == k * c
  {
    if k > 0 {
      OffsetIsProduct(k - 1, c);
      assert (k - 1) * c + c == k * c;
    }
  }

  /** The cards that fill complete batches: (n / c) * c, counted up batch by batch. */
  function Complete(n: nat, c: nat): nat
    requires c > 0
    decreases n
  {
    if n < c then 0 else Complete(n - c, c) + c
  }

  lemma {:induction false} CompleteIsWholeBatches(n: nat, c: nat)
    requires c > 0
    ensures Complete(n, c) == (n / c) * c
    ensures Complete(n, c) + n % c == n
    ensures Complete(n, c) <= n
    decreases n
  {
    if n < c {
      DivSmall(n, c);
    } else {
      CompleteIsWholeBatches(n - c, c);
      DivStep(n, c);
    }
  }

  // ---------------------------------------------------------------------

  /** One front page and one back page per complete batch. */
  lemma {:induction false} CardPageCount(deck: seq<Card>, cardsPerPage: nat)
    requires ValidPageSize(cardsPerPage)
    ensures |CardPages(deck, cardsPerPage)| == 2 * (|deck| / cardsPerPage)
    decreases |deck|
  {
    if |deck| >= cardsPerPage {
      CardPageCount(deck[cardsPerPage..], cardsPerPage);
      DivStep(|deck|, cardsPerPage);
    } else {
      DivSmall(|deck|, cardsPerPage);
    }
  }

  /** Dropping the pages of the first k batches leaves the pages of the rest of the deck. */
  lemma {:induction false} DropBatches(deck: seq<Card>, cardsPerPage: nat, k: nat)
    requires ValidPageSize(cardsPerPage) && Offset(k, cardsPerPage) <= |deck|
    ensures 2 * k <= |CardPages(deck, cardsPerPage)|
    ensures CardPages(deck, cardsPerPage)[2 * k..] == CardPages(deck[Offset(k, cardsPerPage)..], cardsPerPage)
  {
    if k == 0 {
      assert deck[0..] == deck;
    } else {
      var lo, lo' := Offset(k, cardsPerPage), Offset(k - 1, cardsPerPage);
      DropBatches(deck, cardsPerPage, k - 1);
      var tail := deck[lo'..];
      assert tail[cardsPerPage..] == deck[lo..];
      assert CardPages(tail, cardsPerPage)[2..] == CardPages(deck[lo..], cardsPerPage);
      assert CardPages(deck, cardsPerPage)[2 * k..] == CardPages(deck, cardsPerPage)[2 * (k - 1)..][2..];
    }
  }

  lemma CardPageAtOffset(deck: seq<Card>, cardsPerPage: nat, k: nat)
    requires ValidPageSize(cardsPerPage) && Offset(k, cardsPerPage) + cardsPerPage <= |deck|
    ensures 2 * k + 1 < |CardPages(deck, cardsPerPage)|
    ensures CardPages(deck, cardsPerPage)[2 * k] ==
            FrontGrid(Fronts(deck[Offset(k, cardsPerPage)..Offset(k, cardsPerPage) + cardsPerPage]))
    ensures CardPages(deck, cardsPerPage)[2 * k + 1] ==
            BackGrid(Backs(deck[Offset(k, cardsPerPage)..Offset(k, cardsPerPage) + cardsPerPage]))
  {
    var lo := Offset(k, cardsPerPage);
    DropBatches(deck, cardsPerPage, k);
    var tail := deck[lo..];
    assert tail[..cardsPerPage] == deck[lo..lo + cardsPerPage];
    var pages := CardPages(deck, cardsPerPage);
    assert pages[2 * k] == pages[2 * k..][0] == CardPages(tail, cardsPerPage)[0];
    assert pages[2 * k + 1] == pages[2 * k..][1] == CardPages(tail, cardsPerPage)[1];
  }

  /**
   * Page 2k is the front page of batch k, cards k*cardsPerPage up to
   * (k+1)*cardsPerPage; page 2k+1 is its back page.  `lo` is only a name
   * for k * cardsPerPage, the index of the batch's first card.
   */
  lemma CardPageAt(deck: seq<Card>, cardsPerPage: nat, k: nat, lo: nat)
    requires ValidPageSize(cardsPerPage) && lo == k * cardsPerPage && lo + cardsPerPage <= |deck|
    ensures 2 * k + 1 < |CardPages(deck, cardsPerPage)|
    ensures CardPages(deck, cardsPerPage)[2 * k] == FrontGrid(Fronts(deck[lo..lo + cardsPerPage]))
    ensures CardPages(deck, cardsPerPage)[2 * k + 1] == BackGrid(Backs(deck[lo..lo + cardsPerPage]))
  {
    OffsetIsProduct(k, cardsPerPage);
    CardPageAtOffset(deck, cardsPerPage, k);
  }

  /**
   * Row i of the front page of batch k holds the fronts of cards
   * k*cardsPerPage + 2i and k*cardsPerPage + 2i + 1, in that order; row i
   * of its back page holds those cards' backs, right one first.  Every
   * page has cardsPerPage / 2 rows.  As above, `lo` names k * cardsPerPage.
   */
  lemma CardPageRows(deck: seq<Card>, cardsPerPage: nat, k: nat, lo: nat, i: nat)
    requires ValidPageSize(cardsPerPage) && lo == k * cardsPerPage && lo + cardsPerPage <= |deck|
    requires i < cardsPerPage / 2
    ensures 2 * k + 1 < |CardPages(deck, cardsPerPage)|
    ensures |CardPages(deck, cardsPerPage)[2 * k]| == |CardPages(deck, cardsPerPage)[2 * k + 1]| == cardsPerPage / 2
    ensures lo + 2 * i + 1 < |deck|
    ensures CardPages(deck, cardsPerPage)[2 * k][i] == (deck[lo + 2 * i].0, deck[lo + 2 * i + 1].0)
    ensures CardPages(deck, cardsPerPage)[2 * k + 1][i] == (deck[lo + 2 * i + 1].1, deck[lo + 2 * i].1)
  {
    OffsetIsProduct(k, cardsPerPage);
    assert Offset(k, cardsPerPage) == lo;
    CardPageAtOffset(deck, cardsPerPage, k);
    BatchRows(deck, lo, cardsPerPage, i);
  }

  /** Row i of the two pages of the batch that starts at card `lo`. */
  lemma BatchRows(deck: seq<Card>, lo: nat, cardsPerPage: nat, i: nat)
    requires ValidPageSize(cardsPerPage) && lo + cardsPerPage <= |deck| && i < cardsPerPage / 2
    ensures lo + 2 * i + 1 < |deck|
    ensures |FrontGrid(Fronts(deck[lo..lo + cardsPerPage]))| == cardsPerPage / 2
    ensures |BackGrid(Backs(deck[lo..lo + cardsPerPage]))| == cardsPerPage / 2
    ensures FrontGrid(Fronts(deck[lo..lo + cardsPerPage]))[i] == (deck[lo + 2 * i].0, deck[lo + 2 * i + 1].0)
    ensures BackGrid(Backs(deck[lo..lo + cardsPerPage]))[i] == (deck[lo + 2 * i + 1].1, deck[lo + 2 * i].1)
  {
    var batch := deck[lo..lo + cardsPerPage];
    FrontGridAt(Fronts(batch), i);
    BackGridAt(Backs(batch), i);
  }

  /** Appending one complete batch to complete batches appends its two pages. */
  lemma {:induction false} CardPagesAppendBatch(done: seq<Card>, batch: seq<Card>, cardsPerPage: nat)
    requires ValidPageSize(cardsPerPage) && IsMultiple(|done|, cardsPerPage) && |batch| == cardsPerPage
    ensures CardPages(done + batch, cardsPerPage) ==
            CardPages(done, cardsPerPage) + [FrontGrid(Fronts(batch)), BackGrid(Backs(batch))]
    decreases |done|
  {
    if |done| == 0 {
      assert done + batch == batch;
      assert batch[..cardsPerPage] == batch && batch[cardsPerPage..] == [];
    } else {
      assert (done + batch)[..cardsPerPage] == done[..cardsPerPage];
      assert (done + batch)[cardsPerPage..] == done[cardsPerPage..] + batch;
      CardPagesAppendBatch(done[cardsPerPage..], batch, cardsPerPage);
    }
  }

  /** Fewer than cardsPerPage cards after complete batches add no page. */
  lemma {:induction false} CardPagesIgnoreRest(done: seq<Card>, rest: seq<Card>, cardsPerPage: nat)
    requires ValidPageSize(cardsPerPage) && IsMultiple(|done|, cardsPerPage) && |rest| < cardsPerPage
    ensures CardPages(done + rest, cardsPerPage) == CardPages(done, cardsPerPage)
    decreases |done|
  {
    if |done| == 0 {
      assert done + rest == rest;
    } else {
      assert (done + rest)[..cardsPerPage] == done[..cardsPerPage];
      assert (done + rest)[cardsPerPage..] == done[cardsPerPage..] + rest;
      CardPagesIgnoreRest(done[cardsPerPage..], rest, cardsPerPage);
    }
  }

  lemma {:induction false} CardPagesOfComplete(deck: seq<Card>, cardsPerPage: nat)
    requires ValidPageSize(cardsPerPage)
    ensures Complete(|deck|, cardsPerPage) <= |deck|
    ensures CardPages(deck, cardsPerPage) == CardPages(deck[..Complete(|deck|, cardsPerPage)], cardsPerPage)
    decreases |deck|
  {
    if |deck| >= cardsPerPage {
      var rest := deck[cardsPerPage..];
      var m, m' := Complete(|deck|, cardsPerPage), Complete(|rest|, cardsPerPage);
      CardPagesOfComplete(rest, cardsPerPage);
      assert deck[..m][..cardsPerPage] == deck[..cardsPerPage];
      assert deck[..m][cardsPerPage..] == rest[..m'];
    }
  }

  /** The last `|deck| % cardsPerPage` cards leave the card pages as they are. */
  lemma TrailingCardsDropped(deck: seq<Card>, cardsPerPage: nat)
    requires ValidPageSize(cardsPerPage)
    ensures 0 <= (|deck| / cardsPerPage) * cardsPerPage <= |deck|
    ensures (|deck| / cardsPerPage) * cardsPerPage + |deck| % cardsPerPage == |deck|
    ensures CardPages(deck, cardsPerPage) ==
            CardPages(deck[..(|deck| / cardsPerPage) * cardsPerPage], cardsPerPage)
  {
    CompleteIsWholeBatches(|deck|, cardsPerPage);
    CardPagesOfComplete(deck, cardsPerPage);
  }

  lemma FrontsBacksAppend(open: seq<Card>, card: Card)
    ensures Fronts(open + [card]) == Fronts(open) + [card.0]
    ensures Backs(open + [card]) == Backs(open) + [card.1]
  {
  }

  lemma FrontsBacksConcat(a: seq<Card>, b: seq<Card>)
    ensures Fronts(a + b) == Fronts(a) + Fronts(b)
    ensures Backs(a + b) == Backs(a) + Backs(b)
  {
  }

  /** The card that fills the open batch closes it: its two pages follow those emitted. */
  lemma CloseBatch(done: seq<Card>, open: seq<Card>, card: Card, cardsPerPage: nat)
    requires ValidPageSize(cardsPerPage) && IsMultiple(|done|, cardsPerPage) && |open| + 1 == cardsPerPage
    ensures IsMultiple(|done + (open + [card])|, cardsPerPage)
    ensures CardPages(done + (open + [card]), cardsPerPage) ==
            CardPages(done, cardsPerPage) + [FrontGrid(Fronts(open) + [card.0]), BackGrid(Backs(open) + [card.1])]
  {
    FrontsBacksAppend(open, card);
    CardPagesAppendBatch(done, open + [card], cardsPerPage);
  }

  /** The cells of the front pages, page after page, in reading order. */
  function FrontSideCells(pages: seq<Page>): seq<string>
    decreases |pages|
  {
    if |pages| < 2 then [] else Cells(pages[0]) + FrontSideCells(pages[2..])
  }

  /** The cells of the back pages with the mirroring undone, page after page. */
  function BackSideCells(pages: seq<Page>): seq<string>
    decreases |pages|
  {
    if |pages| < 2 then [] else Cells(SwapAll(pages[1])) + BackSideCells(pages[2..])
  }

  lemma SideCellsOfPair(front: Page, back: Page, rest: seq<Page>)
    ensures FrontSideCells([front, back] + rest) == Cells(front) + FrontSideCells(rest)
    ensures BackSideCells([front, back] + rest) == Cells(SwapAll(back)) + BackSideCells(rest)
  {
    assert ([front, back] + rest)[2..] == rest;
  }

  lemma {:induction false} CompleteBatchesInOrder(deck: seq<Card>, cardsPerPage: nat)
    requires ValidPageSize(cardsPerPage)
    ensures Complete(|deck|, cardsPerPage) <= |deck|
    ensures FrontSideCells(CardPages(deck, cardsPerPage)) == Fronts(deck[..Complete(|deck|, cardsPerPage)])
    ensures BackSideCells(CardPages(deck, cardsPerPage)) == Backs(deck[..Complete(|deck|, cardsPerPage)])
    decreases |deck|
  {
    if |deck| >= cardsPerPage {
      var batch, rest := deck[..cardsPerPage], deck[cardsPerPage..];
      var m, m' := Complete(|deck|, cardsPerPage), Complete(|rest|, cardsPerPage);
      CompleteBatchesInOrder(rest, cardsPerPage);
      var pages := CardPages(deck, cardsPerPage);
      assert pages[2..] == CardPages(rest, cardsPerPage);
      CellsOfFrontGrid(Fronts(batch));
      CellsOfMirroredBack(Backs(batch));
      assert deck[..m] == batch + rest[..m'];
      FrontsBacksConcat(batch, rest[..m']);
    }
  }

  /**
   * Order preservation: reading the front pages in order gives the fronts
   * of the first (|deck| / cardsPerPage) * cardsPerPage cards in deck order,
   * and the back pages, mirroring undone, give their backs.
   */
  lemma CardPagesInDeckOrder(deck: seq<Card>, cardsPerPage: nat)
    requires ValidPageSize(cardsPerPage)
    ensures 0 <= (|deck| / cardsPerPage) * cardsPerPage <= |deck|
    ensures FrontSideCells(CardPages(deck, cardsPerPage)) == Fronts(deck[..(|deck| / cardsPerPage) * cardsPerPage])
    ensures BackSideCells(CardPages(deck, cardsPerPage)) == Backs(deck[..(|deck| / cardsPerPage) * cardsPerPage])
  {
    CompleteIsWholeBatches(|deck|, cardsPerPage);
    CompleteBatchesInOrder(deck, cardsPerPage);
  }

  /** The summary lists every card; the card pages hold all but the last |deck| % cardsPerPage of them. */
  lemma CardPagesMissTheRest(deck: seq<Card>, cardsPerPage: nat)
    requires ValidPageSize(cardsPerPage)
    ensures |FrontSideCells(CardPages(deck, cardsPerPage))| + |deck| % cardsPerPage == |deck|
    ensures |BackSideCells(CardPages(deck, cardsPerPage))| + |deck| % cardsPerPage == |deck|
  {
    CardPagesInDeckOrder(deck, cardsPerPage);
    TrailingCardsDropped(deck, cardsPerPage);
  }

  // ---------------------------------------------------------------------
  // One pass of the loop body.
  // ---------------------------------------------------------------------

  /** The operands of the end-of-deck test: a record dict and a key string. */
  datatype PyValue = PyStr(s: string) | PyDictValue(entries: Record)

  /**
   * Python's `==` on these operands: strings by content, dicts by their
   * entries in any order, and a dict never equals a string.
   */
  function PyEquals(a: PyValue, b: PyValue): (r: bool)
    ensures a == b ==> r
    ensures a.PyStr? != b.PyStr? ==> !r
  {
    match (a, b)
    case (PyStr(x), PyStr(y)) => x == y
    case (PyDictValue(x), PyDictValue(y)) => (set e | e in x) == (set e | e in y)
    case _ => false
  }

  /** Python compares two dicts by lookup: equal exactly when every key finds the same value in both. */
  lemma DictEqualsByLookup(x: Record, y: Record)
    requires DistinctKeys(x) && DistinctKeys(y)
    ensures PyEquals(PyDictValue(x), PyDictValue(y)) <==> forall k :: Get(x, k) == Get(y, k)
  {
    var sx, sy := (set e | e in x), (set e | e in y);
    if sx == sy {
      forall e | e in x ensures e in y {
        assert e in sx;
      }
      forall e | e in y ensures e in x {
        assert e in sy;
      }
      forall k ensures Get(x, k) == Get(y, k) {
        EntriesDecideGet(x, y, k);
        EntriesDecideGet(y, x, k);
      }
    } else {
      var e :| (e in sx) != (e in sy);
      GetIsEntry(x, e.0);
      GetIsEntry(y, e.0);
      assert Get(x, e.0) == Some(e.1) <==> e in x;
      assert Get(y, e.0) == Some(e.1) <==> e in y;
    }
  }

  /** When every entry of `x` is an entry of `y`, a key that `x` finds looks up the same in `y`. */
  lemma EntriesDecideGet<V>(x: Dict<V>, y: Dict<V>, k: string)
    requires DistinctKeys(x) && DistinctKeys(y) && forall e :: e in x ==> e in y
    ensures Get(x, k).Some? ==> Get(y, k) == Get(x, k)
  {
    GetIsEntry(x, k);
    GetIsEntry(y, k);
    if Get(x, k).Some? {
      assert (k, Get(x, k).value) in x;
    }
  }

  /** With unique keys, `d[k]` is v exactly when (k, v) is an entry of `d`. */
  lemma {:induction false} GetIsEntry<V>(d: Dict<V>, k: string)
    requires DistinctKeys(d)
    ensures forall v :: Get(d, k) == Some(v) <==> (k, v) in d
  {
    if |d| > 0 {
      assert d == [d[0]] + d[1..];
      if d[0].0 == k {
        forall v ensures (k, v) !in d[1..] {
          forall j | 0 <= j < |d[1..]| ensures d[1..][j] != (k, v) {
            assert d[1..][j] == d[j + 1];
          }
        }
      } else {
        GetIsEntry(d[1..], k);
      }
    }
  }

  /** The test `flash_item == input_dict_last_key` is never true. */
  lemma EndOfDeckNeverDetected(item: Record, lastKey: string)
    ensures !PyEquals(PyDictValue(item), PyStr(lastKey))
  {
  }

  /** `n` placeholders, or none when `n` is not positive (`range(0, n)`). */
  function Placeholders(n: int): (s: seq<string>)
    ensures |s| == if n > 0 then n else 0
    ensures forall i :: 0 <= i < |s| ==> s[i] == PLACEHOLDER
  {
    if n <= 0 then [] else Placeholders(n - 1) + [PLACEHOLDER]
  }

  /** The padding as written: `cardsPerPage - len(buf) + 1` placeholders. */
  function PadAsWritten(buf: seq<string>, cardsPerPage: int): (padded: seq<string>)
    ensures |padded| >= |buf| && padded[..|buf|] == buf
    ensures forall i :: |buf| <= i < |padded| ==> padded[i] == PLACEHOLDER
    ensures |padded| == if cardsPerPage - |buf| + 1 > 0 then cardsPerPage + 1 else |buf|
  {
    buf + Placeholders(cardsPerPage - |buf| + 1)
  }

  /**
   * The padding overshoots by one: a buffer of at most cardsPerPage + 1
   * cells becomes cardsPerPage + 1 long, and no buffer ever becomes exactly
   * cardsPerPage long, so the emit test that follows cannot succeed.
   */
  lemma PaddingOverflowsPage(buf: seq<string>, cardsPerPage: int)
    ensures |buf| <= cardsPerPage + 1 ==> |PadAsWritten(buf, cardsPerPage)| == cardsPerPage + 1
    ensures |PadAsWritten(buf, cardsPerPage)| != cardsPerPage
    ensures PadAsWritten(buf, cardsPerPage)[..|buf|] == buf
  {
  }

  /** The padding loops of lines 203-207. */
  method PadBuffer(content: seq<string>, cardsPerPage: int) returns (padded: seq<string>)
    ensures padded == PadAsWritten(content, cardsPerPage)
  {
    var emptyCells := cardsPerPage - |content|;
    padded := content;
    var i := 0;
    while i < emptyCells + 1
      invariant 0 <= i <= if emptyCells + 1 > 0 then emptyCells + 1 else 0
      invariant padded == content + Placeholders(i)
    {
      padded := padded + [PLACEHOLDER];
      i := i + 1;
    }
    assert i == if emptyCells + 1 > 0 then emptyCells + 1 else 0;
  }

  /** The loop's state between two records. */
  datatype Pager = Pager(front: seq<string>, back: seq<string>, pages: seq<Page>, lastKeyReached: bool)

  /**
   * One pass of the loop body once the record's values are read (lines
   * 193-251): append, run the end-of-deck test, pad if the deck's end was
   * seen, and emit and reset when both buffers hold a full page.
   */
  method Feed(p: Pager, item: Record, lastKey: string, front: string, back: string, cardsPerPage: nat)
    returns (q: Pager)
    requires ValidPageSize(cardsPerPage) && |p.front| == |p.back|
    ensures |q.front| == |q.back|
    ensures q.lastKeyReached == p.lastKeyReached
    ensures !p.lastKeyReached && |p.front| + 1 == cardsPerPage ==>
      q == Pager([], [], p.pages + [FrontGrid(p.front + [front]), BackGrid(p.back + [back])], false)
    ensures !p.lastKeyReached && |p.front| + 1 != cardsPerPage ==>
      q == Pager(p.front + [front], p.back + [back], p.pages, false)
    ensures p.lastKeyReached ==>
      q == Pager(PadAsWritten(p.front + [front], cardsPerPage), PadAsWritten(p.back + [back], cardsPerPage), p.pages, true)
    ensures !p.lastKeyReached && |p.front| < cardsPerPage ==> |q.front| < cardsPerPage
  {
    var frontContent := p.front + [front];
    var backContent := p.back + [back];
    var lastKeyReached := p.lastKeyReached;
    if PyEquals(PyDictValue(item), PyStr(lastKey)) {
      lastKeyReached := true;
    }
    if lastKeyReached {
      frontContent := PadBuffer(frontContent, cardsPerPage);
      backContent := PadBuffer(backContent, cardsPerPage);
    }
    var pages := p.pages;
    if |frontContent| == cardsPerPage && |backContent| == cardsPerPage {
      var frontTable := BuildFrontTable(frontContent);
      var backTable := BuildBackTable(backContent);
      pages := pages + [frontTable, backTable];
      frontContent := [];
      backContent := [];
    }
    q := Pager(frontContent, backContent, pages, lastKeyReached);
  }

  // ---------------------------------------------------------------------
  // The whole of create_doc's content.
  // ---------------------------------------------------------------------

  /** Where `create_doc` raises IndexError. */
  datatype DocError =
    | NoRecords               // `list(input_dict.keys())[-1]` on an empty dict
    | TooFewValues(key: string)  // `flash_item_values[0]` or `[1]` of the record under key

  /** What the document holds: the card pages in order, then the summary rows. */
  datatype Document = Document(cardPages: seq<Page>, summary: seq<Row>)

  /** The summary loop of lines 272-285: one row (values[0], values[1]) per record. */
  method SummaryRows(input: Dict<Record>) returns (rows: seq<Row>)
    requires DistinctKeys(input) && AllHaveCards(input)
    ensures |rows| == |input|
    ensures forall i :: 0 <= i < |input| ==> rows[i] == (Values(input[i].1)[0], Values(input[i].1)[1])
  {
    rows := [];
    var rowCntr := 0;
    for k := 0 to |input|
      invariant rowCntr == |rows| == k
      invariant forall i :: 0 <= i < k ==> rows[i] == (Values(input[i].1)[0], Values(input[i].1)[1])
    {
      GetEntry(input, k);
      var singleItemDict := Get(input, input[k].0).value;
      var values := Values(singleItemDict);
      rows := rows + [(values[0], values[1])];
      rowCntr := rowCntr + 1;
    }
  }

  /** The first record, in the dict's order, whose values cannot supply a card. */
  ghost predicate FirstWithoutCard(input: Dict<Record>, i: int) {
    0 <= i < |input| && !HasCard(input[i].1) && forall j :: 0 <= j < i ==> HasCard(input[j].1)
  }

  /** `cards` are the cards of the first `item` records, each of which has one. */
  ghost predicate CardsSoFar(input: Dict<Record>, item: nat, cards: seq<Card>)
    requires item <= |input|
  {
    |cards| == item && forall j :: 0 <= j < item ==> HasCard(input[j].1) && cards[j] == CardOf(input[j].1)
  }

  lemma CardsSoFarExtend(input: Dict<Record>, item: nat, cards: seq<Card>)
    requires item < |input| && CardsSoFar(input, item, cards) && HasCard(input[item].1)
    ensures CardsSoFar(input, item + 1, cards + [CardOf(input[item].1)])
  {
  }

  lemma CardsSoFarAll(input: Dict<Record>, cards: seq<Card>)
    requires CardsSoFar(input, |input|, cards)
    ensures AllHaveCards(input) && cards == Deck(input)
  {
  }

  /**
   * The paging loop of lines 186-254, over the records in the dict's order,
   * with the last key read beforehand.  It fails on the first record with
   * fewer than two values; otherwise it emits the pages of the complete
   * batches of the deck.
   */
  method PagingLoop(input: Dict<Record>, lastKey: string, cardsPerPage: nat) returns (r: Result<seq<Page>, DocError>)
    requires ValidPageSize(cardsPerPage) && DistinctKeys(input)
    ensures AllHaveCards(input) ==> r == Ok(CardPages(Deck(input), cardsPerPage))
    ensures !AllHaveCards(input) ==> exists i :: FirstWithoutCard(input, i) && r == Err(TooFewValues(input[i].0))
  {
    var pager := Pager([], [], [], false);
    ghost var done: seq<Card> := [];
    ghost var open: seq<Card> := [];
    for item := 0 to |input|
      invariant CardsSoFar(input, item, done + open)
      invariant IsMultiple(|done|, cardsPerPage) && |open| < cardsPerPage
      invariant pager == Pager(Fronts(open), Backs(open), CardPages(done, cardsPerPage), false)
    {
      var key := input[item].0;
      GetEntry(input, item);
      var flashItem := Get(input, key).value;
      assert flashItem == input[item].1;
      var values := Values(flashItem);
      if |values| < 2 {
        assert FirstWithoutCard(input, item);
        return Err(TooFewValues(key));
      }
      ghost var card := (values[0], values[1]);
      pager := Feed(pager, flashItem, lastKey, values[0], values[1], cardsPerPage);
      ghost var seen := done + open + [card];
      CardsSoFarExtend(input, item, done + open);
      if |open| + 1 == cardsPerPage {
        CloseBatch(done, open, card, cardsPerPage);
        assert done + (open + [card]) == seen;
        done, open := seen, [];
      } else {
        FrontsBacksAppend(open, card);
        assert done + (open + [card]) == seen;
        open := open + [card];
      }
    }
    CardsSoFarAll(input, done + open);
    CardPagesIgnoreRest(done, open, cardsPerPage);
    return Ok(pager.pages);
  }

  /**
   * `create_doc` (lines 172-285): read the last key, run the paging loop,
   * then build the summary.  It fails on an empty dict and on the first
   * record with fewer than two values; otherwise the card pages are those
   * of the complete batches and the summary lists every card.
   */
  method CreateDoc(input: Dict<Record>, cardsPerPage: nat) returns (r: Result<Document, DocError>)
    requires ValidPageSize(cardsPerPage) && DistinctKeys(input)
    ensures |input| == 0 ==> r == Err(NoRecords)
    ensures |input| > 0 && AllHaveCards(input) ==>
      r == Ok(Document(CardPages(Deck(input), cardsPerPage), Deck(input)))
    ensures |input| > 0 && !AllHaveCards(input) ==>
      exists i :: FirstWithoutCard(input, i) && r == Err(TooFewValues(input[i].0))
  {
    if |input| == 0 {
      return Err(NoRecords);
    }
    var lastKey := Keys(input)[|input| - 1];
    var pages := PagingLoop(input, lastKey, cardsPerPage);
    if pages.Err? {
      return Err(pages.error);
    }
    var summary := SummaryRows(input);
    assert summary == Deck(input);
    return Ok(Document(pages.value, summary));
  }
}
