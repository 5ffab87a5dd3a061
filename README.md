# Flash card generator: paging model

`flash_card_generator.py` reads a spreadsheet of flash cards and writes a
Word document. Each card is one row of the sheet: its first cell goes on
the front of the card and its second cell on the back. The cards are laid
out on pages in a grid of two columns. After each front page comes a back
page whose rows are mirrored (left and right swapped), so that a duplex
print flipped on the short edge puts each back behind its own front. A
summary table at the end lists every card's front and back.

This project models three parts of that program:

- the record building of `process_excel_sheet` (module `Sheet`);
- the card-paging loop of `create_doc`, one loop pass at a time and as a
  whole (modules `Grid` and `Paging`);
- the summary projection that follows the loop (`Paging.SummaryRows`).

It models the code **as written**:

- **The end-of-deck test never fires.** It compares the record dict with
  the last key string, which Python never finds equal.
- **The last part-page is dropped.** Since the padding branch never runs,
  the last `n % cardsPerPage` records reach no card page. They are still
  listed in the summary.
- **An empty sheet raises.** An empty dict raises IndexError before
  anything is laid out.

The module `Intended` defines the pagination that the loop's own code aims
at, and proves what that version guarantees. The loop reads the last key
(line 183) and keeps a `last_key_reached` flag for the final record (lines
184, 196-197). On that record it counts the page's empty cells and fills
them with `"-"` (lines 199-207). The evident aim is to pad the last batch
to a full page and emit it.

Modules:

- `Results`: `Option` and `Result`.
- `PyDict`: a Python dict as an insertion-ordered list of key/value
  pairs.
  - Assigning to an existing key replaces its value in place.
  - Assigning to a new key appends the pair at the end.
- `Decimal`: the decimal rendering `'{}'.format(n)` of a natural number.
- `Sheet`: field names, the record of one data row, and the loop that
  stores the records under `row_1`, `row_2`, ...
- `Grid`: the front and back tables of one batch.
  - The front table's row i is `(front[2i], front[2i+1])`.
  - The back table's row i is `(back[2i+1], back[2i])`.
- `Paging`: the loop body (`Feed`), the padding loops (`PadBuffer`), the
  whole loop (`PagingLoop`), the summary (`SummaryRows`) and `CreateDoc`.
  - The lemmas about `CardPages` describe what the loop emits.
  - `CardPages` is a function: a front and a back grid for each complete
    batch of `cardsPerPage` cards.
- `Intended`: the corrected paginator `Paginate`, with its lemmas.

The page size `CARDS_PER_PAGE` (12 in the source) is the parameter
`cardsPerPage`. The model requires it to be positive and even.
`Paging.DefaultPageSizeValid` shows that 12 meets this. With an odd size,
the source's table loops would read one cell past the end of the buffer.

The corrected version departs from the code in three ways:

- **End of deck.** It recognises the last record by position and pads the
  last batch to exactly `cardsPerPage` cells before emitting it. The code
  never detects the end, so it drops every incomplete batch.
- **Empty input.** The code raises IndexError on an empty dict. For that
  case the corrected version emits one page pair of placeholders. This is
  a policy chosen for the model; the source suggests no behaviour for it.
- **Page size.** An odd page size is excluded by a precondition, since
  the source has a fixed constant of 12.

These are the corrected halves of the findings below.

## Model

| member | source | states |
|---|---|---|
| PyDict.Insert | flash_card_generator.py:163 | `d[k] = v` keeps the key order when `k` is present, and appends `(k, v)` at the end when it is new |
| PyDict.InsertLookup | flash_card_generator.py:162-163 | after `d[k] = v`, looking up `k` gives `v`, and every other key keeps its value |
| PyDict.FromPairs | flash_card_generator.py:162 | a dict comprehension yields unique keys, at most one entry per pair, and exactly the keys of the pairs |
| PyDict.FromPairsLookup | flash_card_generator.py:162 | in a dict comprehension the last pair given for a key wins: looking the key up finds that pair's value |
| PyDict.FromDistinctPairs | flash_card_generator.py:162 | a dict comprehension over pairs with distinct keys holds exactly those pairs, in that order |
| PyDict.GetEntry | flash_card_generator.py:188-189 | looking up the i-th key of the iteration order gives the i-th value |
| Decimal.NatToString | flash_card_generator.py:163 | `'{}'.format(n)` is a non-empty string of decimal digits, one digit long exactly when n < 10 |
| Decimal.NatToStringInjective | flash_card_generator.py:163 | different numbers format to different decimal strings |
| Sheet.RowKey | flash_card_generator.py:163 | `'row_{}'.format(idx)` is `row_` followed by decimal digits |
| Sheet.RowKeysDiffer | flash_card_generator.py:163 | `row_m` and `row_n` are different keys when m differs from n, so no record overwrites another |
| Sheet.FreshRowKey | flash_card_generator.py:161-163 | the key of the next data row is not yet in the dict of the previous rows |
| Sheet.UnnamedHeading | flash_card_generator.py:159 | one generated name per column, each starting with `Unnamed Property ` |
| Sheet.UnnamedHeadingDistinct | flash_card_generator.py:159 | the generated names `Unnamed Property i` are one per column and pairwise distinct |
| Sheet.BuildRecord | flash_card_generator.py:162 | the record of a row has at most one entry per cell, and its keys are exactly the field names of the row's columns |
| Sheet.BuildRecordInOrder | flash_card_generator.py:162 | with distinct field names, the record's keys are the first `len(row)` names and its values are the row's cells, in column order |
| Sheet.ProcessSheet | flash_card_generator.py:156-165 | the four facts about the record-building step listed below the table |
| Grid.FrontGrid | flash_card_generator.py:214-222 | a front table has one row per two cells |
| Grid.BackGrid | flash_card_generator.py:233-241 | a back table has one row per two cells |
| Grid.FrontGridAt | flash_card_generator.py:215-222 | row i of the front table is `(cells[2i], cells[2i+1])` |
| Grid.BackGridAt | flash_card_generator.py:234-241 | row i of the back table is `(cells[2i+1], cells[2i])` |
| Grid.BackMirrorsFront | flash_card_generator.py:219-220 | the back table is the front table of the same cells with every row swapped |
| Grid.CellsOfFrontGrid | flash_card_generator.py:215-222 | reading the front table row by row gives back the buffer, in order |
| Grid.CellsOfMirroredBack | flash_card_generator.py:234-241 | reading the back table row by row, each row swapped back, gives back the buffer, in order |
| Grid.BuildFrontTable | flash_card_generator.py:212-222 | the `front_row_item` loop with its row counter builds the front grid of the buffer |
| Grid.BuildBackTable | flash_card_generator.py:231-241 | the `back_row_item` loop with its row counter builds the mirrored back grid of the buffer |
| Paging.DefaultPageSizeValid | flash_card_generator.py:15 | the program's page size of 12 is positive and even |
| Paging.RecordCard | flash_card_generator.py:191-194 | a sheet row's record supplies a card exactly when the row has two cells or more; the card is the row's first two cells |
| Paging.CardPages | flash_card_generator.py:186-254 | what the loop emits comes in front/back pairs, and every page has `cardsPerPage / 2` rows |
| Paging.CardPageCount | flash_card_generator.py:186-210 | the loop emits `2 * (n div cardsPerPage)` pages: one front and one back per complete batch |
| Paging.DropBatches | flash_card_generator.py:210-251 | after the pages of the first k batches come exactly the pages of the rest of the deck |
| Paging.CardPageAt | flash_card_generator.py:210-241 | page 2k is the front grid and page 2k+1 the back grid of cards `k*cardsPerPage` up to `(k+1)*cardsPerPage` |
| Paging.CardPageRows | flash_card_generator.py:212-241 | each emitted page has `cardsPerPage / 2` rows; front row i of batch k holds the fronts of cards `k*cardsPerPage+2i` and `+2i+1`, and back row i holds their backs, swapped |
| Paging.CardPagesAppendBatch | flash_card_generator.py:210-251 | one more complete batch appends exactly its two pages to what was emitted before |
| Paging.CardPagesIgnoreRest | flash_card_generator.py:186-254 | cards after the last complete batch add no page |
| Paging.TrailingCardsDropped | flash_card_generator.py:196-210 | the pages of the deck are those of its first `(n div cardsPerPage) * cardsPerPage` cards |
| Paging.CloseBatch | flash_card_generator.py:210-251 | the card that fills the open batch emits that batch's front and back grids after the pages emitted before |
| Paging.CardPagesInDeckOrder | flash_card_generator.py:191-241 | the front pages, read page by page and row by row, give the fronts of the first `(n div cardsPerPage) * cardsPerPage` cards in deck order; the back pages, each row swapped back, give their backs |
| Paging.CardPagesMissTheRest | flash_card_generator.py:196-210 | exactly `n mod cardsPerPage` cards are on no card page |
| Paging.PyEquals | flash_card_generator.py:196 | Python's `==` on a record dict and a key string: every value equals itself, and a dict never equals a string |
| Paging.DictEqualsByLookup | flash_card_generator.py:196 | two dicts are `==` exactly when every key looks up the same value in both, whatever their entry order |
| Paging.EndOfDeckNeverDetected | flash_card_generator.py:189-197 | the end-of-deck test compares a dict with a string and is never true |
| Paging.Placeholders | flash_card_generator.py:203-207 | `range(0, n)` appends `n` placeholders when n is positive and none otherwise |
| Paging.PadAsWritten | flash_card_generator.py:199-207 | the padding as written keeps the buffer as a prefix, adds only placeholders, and gives `cardsPerPage + 1` cells whenever it adds any |
| Paging.PaddingOverflowsPage | flash_card_generator.py:200-210 | the branch would pad a buffer of at most `cardsPerPage + 1` cells to length `cardsPerPage + 1`, and never to length `cardsPerPage`, so the emit test after it fails |
| Paging.PadBuffer | flash_card_generator.py:199-207 | the padding loop appends `cardsPerPage - len + 1` placeholders (none when that is not positive) |
| Paging.Feed | flash_card_generator.py:193-251 | the four facts about one loop pass listed below the table; a buffer shorter than a page before the pass stays shorter than a page |
| Paging.SummaryRows | flash_card_generator.py:272-285 | one summary row `(values[0], values[1])` per record, in the dict's order |
| Paging.PagingLoop | flash_card_generator.py:186-254 | fails with the key of the first record that has fewer than two values; otherwise emits exactly `CardPages` of the deck, in record order |
| Paging.CreateDoc | flash_card_generator.py:172-285 | the three outcomes of `create_doc`, listed below the table |
| Intended.PadToPage | flash_card_generator.py:199-207 | the corrected padding fills a short buffer to exactly `cardsPerPage` cells: the buffer, then placeholders |
| Intended.Paginate | flash_card_generator.py:186-254 | the corrected paging emits at least one page pair, and pages only in front/back pairs |
| Intended.PaginatePageCount | flash_card_generator.py:196-210 | the corrected paging emits `2 * ceil(n / cardsPerPage)` pages, and two for an empty deck |
| Intended.PaginateFullPages | flash_card_generator.py:199-210 | with the corrected padding, every page, the last included, has `cardsPerPage / 2` rows |
| Intended.LastBatchInOrder | flash_card_generator.py:199-241 | a deck that fits on one page reads back as its cards followed by the padding |
| Intended.PaginateInDeckOrder | flash_card_generator.py:186-241 | the corrected pages read back as every front, then the padding; the back pages, each row swapped back, give every back, then the padding |
| Intended.AsWrittenIsPrefix | flash_card_generator.py:196-210 | the pages the code as written emits are the first pages of the corrected output |
| Intended.WholePagesAgree | flash_card_generator.py:196-210 | for a non-empty deck that fills its pages exactly, both versions emit the same pages |
| Intended.ThirteenCardsAsWritten | flash_card_generator.py:196-210 | thirteen cards at twelve per page: the code emits one page pair and leaves card 13 out; the corrected version emits two pairs |
| Intended.ThirteenCardsIntended | flash_card_generator.py:199-241 | thirteen cards, corrected: the second pair has six rows per page; card 13 is the front page's top-left cell and the back page's top-right cell, and every other cell of both pages is a placeholder |
| Intended.EmptyDeckBlankPages | flash_card_generator.py:183 | the corrected version lays out an empty deck as one front and one back page of placeholders only |

`Sheet.ProcessSheet` states four things:

- an empty sheet fails, with the `IndexError` of `pop(0)` or `[0]`;
- it succeeds exactly when no data row is longer than the field names,
  and a non-empty sheet can fail only on a row that is too long;
- on success, entry i is `row_<i+1>` mapped to data row i built as a
  record;
- otherwise the error names the first row that is too long.

`Paging.Feed` states four things about one loop pass:

- the card that completes a page emits the front grid and the mirrored
  back grid, and empties both buffers;
- any other card is appended to both buffers;
- once the end flag is set, both buffers are padded as written;
- the buffers keep equal length.

`Paging.CreateDoc` has three outcomes:

- an empty dict fails, with IndexError at `keys()[-1]`;
- a record with fewer than two values fails with its key;
- otherwise the document holds `CardPages` of the deck and a summary
  listing every card.

## Left out

- The table-styling helpers `set_repeat_table_header`, `shade_cells`,
  `set_column_width`, `set_row_height`, `add_centered_row`,
  `add_lefty_row` and `add_heading_row` (lines 37-138) are not modelled.
  They are calls into the python-docx library. A page row is modelled as
  the pair of cell texts it receives.
- Loading the workbook with openpyxl (lines 145-154) is not modelled.
  `Sheet.ProcessSheet` takes the sheet's rows as given strings. It does
  not model cell values that are numbers or None.
- Creating the document, page breaks, paragraphs, column widths and row
  heights in `Mm`/`Pt`, the summary heading and header row, and saving
  (lines 175, 212, 224-231, 243-248, 259-270, 286-294) are not modelled.
  They are rendering and file output. The model keeps only the order of
  pages and the summary rows.
- `main`, the path constants and the prints (lines 20-29, 297-312) are not
  modelled. They are file-system and console plumbing.
- Paging.SummaryRows: requires every record to have two values. In the
  source that loop is only reached after the paging loop has read
  `values[0]` and `values[1]` of every record.
- Paging.PagingLoop: takes the last key as a parameter, read beforehand
  by `CreateDoc` as at line 183. It requires distinct keys, which every
  Python dict has.
- Sheet.BuildRecordInOrder: is stated only for distinct field names. With
  repeated names, `PyDict.FromPairsLookup` still gives Python's rule that
  the later column's value wins. No lemma states the order of the keys in
  that case.
- The iterator and `next` of lines 177 and 188 are modelled as walking
  the dict's entries by position, which visits the keys in insertion
  order just as the iterator does.

## Findings

| source | as written | input that shows it | evidently intended | confidence | as-written member | corrected member |
|---|---|---|---|---|---|---|
| flash_card_generator.py:196 | `flash_item` is the record dict (line 189), so comparing it with the last key string is never true; the last incomplete batch is dropped from the card pages | 13 records at 12 per page: one page pair, card 13 on no card page | detect the last record and emit its padded batch | not executed | Intended.ThirteenCardsAsWritten | Intended.PaginateInDeckOrder |
| flash_card_generator.py:203-207 | `range(0, empty_cells + 1)` appends one placeholder too many, so the buffer becomes `CARDS_PER_PAGE + 1` long and the emit test at line 210 fails | a buffer of 1 card at 12 per page is padded to 13 cells | pad to exactly `CARDS_PER_PAGE` cells | not executed | Paging.PaddingOverflowsPage | Intended.PadToPage |
| flash_card_generator.py:183 | `list(input_dict.keys())[-1]` raises IndexError on an empty dict | a sheet with only a heading row | not to raise; the policy this model chooses is one page pair of placeholders | not executed | Paging.CreateDoc | Intended.EmptyDeckBlankPages |
