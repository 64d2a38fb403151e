# Verified models of the document readers, the answer generator and the event-stream clients

This project models, in Dafny, the algorithms of the repository whose correctness is not visible from
one function body, and proves what they are relied on for. Each module follows one component.

| files | component |
|---|---|
| `PdfGlyphs`, `PdfColumns`, `PdfLines`, `PdfLineMeaning`, `PdfWordSpaces`, `PdfPage`, `PdfText` | the PDF layout engine (`docreader/parser/pdf_parser.py`) |
| `PdfImages`, `PdfEmbedded`, `PdfFigures`, `PdfDocument`, `PdfRouting` | image selection and the page router (`docreader/parser/pdf_parser.py`) |
| `DocxAttributes`, `DocxMerge`, `DocxMergeInPlace`, `DocxTableOrder`, `DocxNestedTables`, `DocxFilledCount` | expansion of vertically merged DOCX table cells (`docreader/parser/docx_merge.py`) |
| `DocxPaging`, `DocxAssembly`, `DocxTexts` | paging and parallel merge of DOCX documents (`docreader/parser/docx_parser.py`) |
| `ParserLocks`, `ParserOutcomes` | the lock and semaphore protocol of all parsers (`docreader/parser/concurrency.py` and its users) |
| `AnswerGenerator`, `AnswerRuns` | the resumable dataset generator (`dataset/qa_dataset.py`) |
| `MarkdownNormalizer`, `MarkdownLines`, `MarkdownGroups`, `MarkdownFences`, `MhtmlImages` | Markdown clean-up and image naming of MHTML archives (`docreader/parser/mhtml_parser.py`) |
| `MarkdownTables`, `MarkdownRows` | repair of Markdown tables (`docreader/parser/markdown_parser.py`) |
| `SseReaders`, `SseStandard` | the three event-stream readers of the Go client (`client/agent.go`, `client/session.go`), and the standard they read by |
| `ExcelRows` | header labels and row chunks of spreadsheets (`docreader/parser/excel_parser.py`) |
| `Common` | modules `Options`, `Decimals`, `Strings`, `Seqs` and `StableSort` used by the others |

Loops of the source are methods with loops, each proved equal to a function; the theorems are about
those functions. Tables whose cells the source rewrites are objects (`DocxMergeInPlace`), the two saved
files are an object (`AnswerGenerator.Files`). Interleavings, crashes and completion orders are
quantified over: a theorem about runs holds for every interleaving, every crash point, every order.

## Main results

- **Columns.** The recursive search for the widest gutter conserves every glyph, orders its columns
  from left to right and never produces an empty side. It returns exactly the columns of one
  left-to-right sweep if and only if the gutters nest at most eleven deep (`SplitIsSweep`), and strictly
  fewer beyond that (`BeyondCapFewer`), gutters being gaps of at least 2.5 times the scale of the page and
  4 % of its width; so always for twelve columns or fewer, while thirteen columns with widening gutters are a
  counterexample.
- **Lines.** Every glyph lands in exactly one line, every line stays within half the median height of its
  first glyph, lines run downwards, and joining, sorting and merging lose no ink: the text of a page
  carries exactly the ink of the columns that are kept (`PageTextCarriesKeptInk`). A word space is put
  exactly between glyphs that lie further apart than the typical width allows and are no white space, and no
  text of a line has two spaces in a row when glyphs are single characters (`PdfWordSpaces`).
- **Documents from PDFs.** Page by page and in page order the document shows the rendering of a scanned page,
  or the text of the page and then its figures from top to bottom, and nothing else; every image is in the
  map with its own data.
- **Merged cells.** A cell stands in the columns that its row's offset and the spans in front of it say. The
  row-by-row state machine equals the definition "follow the leftmost active column upwards to the cell that
  started the merge"; on nested tables the reversed document order equals
  a bottom-up recursion, whatever is done to a single table; a second pass changes nothing, the code
  reports "no change" exactly then, and its count is the number of continuation cells with a master.
- **Locks.** For any number of requests and every interleaving: one pdfium holder, exact semaphore
  accounts, no self-deadlock on any fallback path, no wait for the render semaphore, no raising release,
  no deadlock, and at most sixteen steps per request. In every run a finished request has tried exactly the
  ways it had to, and has succeeded exactly when the last of them did (`ParserOutcomes.Outcome`).
- **Resumable generation.** Over every sequence of runs and crashes and for every list of queries, each
  saved pair points at an answer the model gave for its query, saved answers never change, and a finished
  run has settled every query. No query occurs twice in the files, for distinct query ids and only then. A run that
  finds no saved pairs starts anew: it leaves pair m pointing at answer m + 1 (`AnswerRuns.OrphansGo`).
- **DOCX paging.** The pages tile the document; the merged text is the same for every completion order,
  although lines without content may be filed under a wrong page, and is spelt out page by page
  (`DocxTexts.TextMeaning`).
- **Markdown.** Normalisation is idempotent, equals a layout of the input's groups of lines, which are its
  maximal stretches of lines that are not blank or are fenced, and never turns code into text or text
  into code; fences close exactly where section 4.5 of the CommonMark spec closes them. Table repair
  is idempotent exactly for a class of blocks that is spelt out, and loses no content row.
- **Event streams.** All three readers equal a block-by-block definition. The agent client and the knowledge
  question read the same data if and only if trimming changes none (`AgentReadsAsQaIff`); `ContinueStream`
  delivers block by block if and only if no block becomes a message only together with lines of earlier blocks
  (`ContinueIsBlockwiseIff`).
- **Names.** Image names never collide, the counters add up to the image map, every link is a key, those
  put into the text included; header labels are distinct exactly when no label is another one followed by
  `_k` in a given range.

## Where the code and its documentation differ

The models follow the code in each case.

- `docreader/parser/pdf_parser.py:1196-1215` calls `max_images` a hard cap on the images kept. The test
  follows the insertion, so a cap of zero or less still keeps one image (`PdfImages.OneIsKept`). The cap
  holds for every document if and only if it is at least one (`PdfImages.HardCapIff`), and for a given one
  if and only if it is at least one, or is zero and nothing is eligible (`PdfImages.CapHoldsIff`).
- `docreader/parser/markdown_parser.py:96-104` promises to drop bogus prefix rows: empty rows, and a
  delimiter row behind them. A block that starts with a delimiter row and an empty row keeps the empty row
  as its header, and a second pass removes both (`MarkdownTables.DelimiterEmptyData`). An empty header is
  left if and only if, after the empty rows in front, a delimiter row is followed by an empty row
  (`MarkdownTables.EmptyHeadIff`).
- Section 9.2.6 of the WHATWG HTML standard lets a space follow the colon of a field and joins several
  `data` lines. The readers keep only the last `data` line (`SseStandard.TwoDataLines`). The knowledge
  question reads the data of a block as the standard does if and only if it has none, or a single data
  line whose value is not empty and does not start with a space (`SseStandard.QaDataAsStandardIff`); for the agent
  client that value may start with one space but must otherwise need no trimming
  (`SseStandard.AgentDataAsStandardIff`). `ContinueStream` compares the untrimmed text of the last
  `event:` line of a block, so it misses messages, for example `event: message`
  (`SseStandard.SpacedNameIsMissed`, `SseReaders.OtherSpellingDeliversNothing`). By its own lines a block
  is a message to the standard and none to the reader if and only if the text of its last `event:` line is
  missing, empty, one space, or `message` behind one space, or is any other than `message` and a bare
  `event` line comes after it (`SseStandard.EventAsStandardIff`).
- `client/session.go:397-430` clears data and event name only after a delivery, so parts of different
  blocks can make one message (`SseReaders.StaleDataIsDelivered`); the exact condition is
  `SseReaders.ContinueIsBlockwiseIff`.
- Section 4.5 of the CommonMark spec forbids backticks in the info string of a backtick fence;
  `docreader/parser/mhtml_parser.py:293-303` accepts them (`MarkdownFences.BacktickInInfo`). On a line, code
  and spec agree if and only if it is no fence to the code, its mark is a tilde, or no backtick follows the
  run (`MarkdownFences.AgreesWithStandardIff`).

## Model

| member | source | states |
|---|---|---|
| `PdfColumns.SweepMeaning` | docreader/parser/pdf_parser.py:717-733 | the sweep returns a cut iff some gap reaches the minimum, and the cut lies in the first of the widest gaps |
| `PdfColumns.FindSplitSweep` | docreader/parser/pdf_parser.py:717-733 | the loop over sorted intervals computes that cut |
| `PdfColumns.FindSplitMeaning` | docreader/parser/pdf_parser.py:717-733 | the cut is the exact middle of the first of the widest gaps between the glyphs up to it and those behind it |
| `PdfColumns.AtGutter` | docreader/parser/pdf_parser.py:736-750 | where a gutter exists both sides are non-empty, lie a full gap apart, and their sweeps are together the sweep of the whole |
| `PdfColumns.ColumnsConserveGlyphs` | docreader/parser/pdf_parser.py:736-750 | the columns hold every glyph exactly once, for every page and threshold |
| `PdfColumns.SplitIsSweep` | docreader/parser/pdf_parser.py:736-750 | with the larger of 2.5 times the scale and 4 % of the page width as least gap, the recursion returns the columns of one left-to-right sweep iff the widest-first splits nest at most 11 levels deep |
| `PdfColumns.BeyondCapFewer` | docreader/parser/pdf_parser.py:736-750 | for that least gap: beyond eleven levels the recursion returns strictly fewer columns than the sweep |
| `PdfColumns.CapDecides` | docreader/parser/pdf_parser.py:736-750 | for any split, count of levels and sweep that fit together, the recursion equals the sweep within the depth cap and has fewer parts beyond it |
| `PdfColumns.TwelveColumns` | docreader/parser/pdf_parser.py:736-750 | for that least gap: on a page of at most twelve columns the cap never matters |
| `PdfColumns.ThirteenColumnsFail` | docreader/parser/pdf_parser.py:736-750 | a page of thirteen columns, for any thresholds, on which the recursion stops short |
| `PdfColumns.ColumnsLeftToRight` | docreader/parser/pdf_parser.py:736-750 | every column ends that least gap before each later one begins |
| `PdfLines.GroupGlyphs` | docreader/parser/pdf_parser.py:856-877 | the grouping loop computes the lines of a column |
| `PdfLines.LinesPartitionColumn` | docreader/parser/pdf_parser.py:856-877 | lines hold each glyph once, lie within half the median height of their first glyph, and run downwards |
| `PdfLineMeaning.LinesMeaning` | docreader/parser/pdf_parser.py:856-877 | lines run down the page; the glyphs of a line are within half a typical height below its first glyph, and each line starts more than that below the one before; typical is the median of the positive heights, 1 if there are none |
| `PdfLineMeaning.TextsMeaning` | docreader/parser/pdf_parser.py:879-887 | the texts of a column are those of its lines, glyphs ascending in x, without the empty ones |
| `PdfLines.JoinLineGlyphs` | docreader/parser/pdf_parser.py:831-853 | the joining loop computes the text of a line |
| `PdfLines.JoinKeepsInk` | docreader/parser/pdf_parser.py:831-853 | joining adds and drops white space only: all other characters stay, in order |
| `PdfWordSpaces.JoinMeaning` | docreader/parser/pdf_parser.py:831-853 | a glyph brings a space with it iff neither it nor its neighbour is white space and the gap between them exceeds the median width times the ratio; it is left out iff it is white space behind a space |
| `PdfWordSpaces.NoDoubleSpace` | docreader/parser/pdf_parser.py:831-853 | the text of a line never has two spaces in a row, when glyphs are single characters |
| `PdfLines.ColumnTextConservesInk` | docreader/parser/pdf_parser.py:856-887 | the texts of a column's lines carry exactly the characters of its glyphs that are not white space |
| `PdfLines.MergeOrphanLines` | docreader/parser/pdf_parser.py:803-828 | the loop that attaches punctuation-only lines |
| `PdfLines.MergeKeepsInk` | docreader/parser/pdf_parser.py:803-828 | attaching punctuation lines changes no character that is not white space, nor their order |
| `PdfLineMeaning.MergeMeaning` | docreader/parser/pdf_parser.py:803-828 | each merged line is the first line, or one that is no punctuation line, with the punctuation lines directly behind it; those have one to four characters, all marks or white space |
| `PdfLineMeaning.AttachMeaning` | docreader/parser/pdf_parser.py:819-826 | a punctuation line is attached without its white space, or behind a space when the text before it is empty or ends in a space or hyphen |
| `PdfLines.ReadingColumnsKeep` | docreader/parser/pdf_parser.py:791-800 | the filter keeps exactly the columns that are no artifacts, each as often and in the order as before, and when all are artifacts a single widest one |
| `PdfPage.PageTextCarriesKeptInk` | docreader/parser/pdf_parser.py:927-934 | columns, filter, lines and punctuation lines together: the page text, before heading marks, carries exactly the ink of the kept columns |
| `PdfPage.PageTextCarriesAllInk` | docreader/parser/pdf_parser.py:927-934 | without artifact columns the page text carries the ink of every glyph of the page |
| `PdfText.StripChartTextDebris` | docreader/parser/pdf_parser.py:287-306 | the loop removes exactly the lines inside a stretch of debris and blank lines that starts at a debris line and is at least three long |
| `PdfText.DebrisMeaning` | docreader/parser/pdf_parser.py:287-306 | what stays are the lines that lie in no stretch of three or more lines that begins with debris and has only debris and blank lines, in order |
| `PdfText.DebrisIdempotent` | docreader/parser/pdf_parser.py:287-306 | stripping debris twice is the same as once, for any line tests |
| `PdfText.StripLinesAboveCaptions` | docreader/parser/pdf_parser.py:326-337 | popping labels removes exactly the lines from which only interior lines lead down to a caption |
| `PdfText.LabelsMeaning` | docreader/parser/pdf_parser.py:326-337 | what stays are the lines from which no caption is reached through interior lines alone, in order |
| `PdfText.LabelsGo` | docreader/parser/pdf_parser.py:326-337 | afterwards no interior line stands directly above a caption |
| `PdfText.LabelsIdempotent` | docreader/parser/pdf_parser.py:326-337 | removing labels twice is the same as once |
| `PdfImages.NamesDiffer` | docreader/parser/pdf_parser.py:634-635 | names of rendered pages, embedded figures and vector clips never coincide, whatever the document is called |
| `PdfImages.SelectEmbeddedImages` | docreader/parser/pdf_parser.py:1196-1237 | the loop keeps the eligible candidates in order, up to a cap of at least one |
| `PdfImages.EligibleMeaning` | docreader/parser/pdf_parser.py:1216-1233 | eligible are exactly the large, non-repeating first occurrences per page, each once, in order |
| `PdfImages.SelectedMeaning` | docreader/parser/pdf_parser.py:1196-1237 | kept are, in order, large first occurrences on fewer pages than the threshold, the larger of 2 and the rounded share of the text pages; as many as the cap, but one under any cap, and those left out come later |
| `PdfImages.CapHoldsIff` | docreader/parser/pdf_parser.py:1235-1236 | the number kept is within the cap iff the cap is at least one, or zero with nothing eligible |
| `PdfImages.HardCapIff` | docreader/parser/pdf_parser.py:1235-1236 | the setting is a cap for every document iff it is at least one |
| `PdfImages.OneIsKept` | docreader/parser/pdf_parser.py:1235-1236 | a single large candidate is kept under any cap |
| `PdfEmbedded.NumberEmbedded` | docreader/parser/pdf_parser.py:1290-1319 | kept figures are numbered per page from 1 in order of discovery and listed in the given order |
| `PdfEmbedded.TopDownDescends` | docreader/parser/pdf_parser.py:1317-1319 | in the order of the source the figures of a page descend from top to bottom, and are those numbered for it |
| `PdfRouting.RouteLocked` | docreader/parser/pdf_parser.py:1491-1622 | the three passes: the document shows all pages in order and nothing else, each by its rendering or by its text and then its figures; the map holds every image of every page with its own data; each counter is the number of its images or pages; every link written is a key |
| `PdfDocument.AssembledShowsPages` | docreader/parser/pdf_parser.py:1586-1604 | the document is one stretch of blocks per page, in page order: one link for a scanned page, else the page text unless it is empty, then one link per figure in order |
| `PdfDocument.TextsMeaning` | docreader/parser/pdf_parser.py:1545-1561 | the text of a page is made of the lines of all pages, text pages with their clips put in |
| `PdfDocument.FiguresMeaning` | docreader/parser/pdf_parser.py:1290-1319 | the figures of a page are the kept image objects of that page, each once, numbered from 1 in order of discovery and then arranged |
| `PdfDocument.KeptMeaning` | docreader/parser/pdf_parser.py:1240-1290 | kept image objects are selected among those of all text pages, with the number of text pages as base of the share, and none when figures are not wanted |
| `PdfDocument.ImagesMeaning` | docreader/parser/pdf_parser.py:1531-1584 | the map holds the rendering of each scanned page, the clips of each other page, and its figures, each under its name with its own data |
| `PdfDocument.ImagesAddUp` | docreader/parser/pdf_parser.py:1550-1584 | no image overwrites another: one entry per image, each with its own data, under any naming that tells images apart |
| `PdfDocument.LinksAreImages` | docreader/parser/pdf_parser.py:1586-1604 | every link of the assembled document names an image of the map |
| `PdfDocument.ClipsAreImages` | docreader/parser/pdf_parser.py:1531-1543 | every clip offered to the text of its page names its own image of the map |
| `PdfFigures.InjectFigures` | docreader/parser/pdf_parser.py:559-577 | the loop puts clips in order in front of captions that have no image above; a caption without a clip has an image above it or comes after all clips, and no other line changes |
| `PdfFigures.ClipInFront` | docreader/parser/pdf_parser.py:559-577 | a clip becomes an image line named after its file, an empty line, and the caption |
| `DocxAttributes.BadAttributesIgnored` | docreader/parser/docx_merge.py:153-178 | a span or an offset that is not a number, or negative, counts as if it were missing |
| `DocxAttributes.RowColumns` | docreader/parser/docx_merge.py:153-170 | cell c of any row stands exactly in the columns from the offset plus the spans of the cells before it up to its own span; a missing or refused span counts 1, a missing or refused offset 0 |
| `DocxAttributes.CellMeaning` | docreader/parser/docx_merge.py:116-177 | a vertical merge restarts iff its marker says restart, continues iff it has any other value or none, and there is none without a marker |
| `DocxAttributes.PlainColumns` | docreader/parser/docx_merge.py:153-170 | without such attributes the cells of a row stand in the columns 0, 1, 2, and so on |
| `DocxAttributes.ZeroSpan` | docreader/parser/docx_merge.py:173-178 | a span of zero is not refused: the cell occupies no column, and as a continuation it is never filled |
| `DocxMerge.OneCellPerColumn` | docreader/parser/docx_merge.py:103-110 | a grid column is occupied by at most one cell of a row |
| `DocxMerge.RowMeaning` | docreader/parser/docx_merge.py:103-148 | the loop over one row: every child's result and every column's next template, stated without the loop |
| `DocxMerge.ActiveMeaning` | docreader/parser/docx_merge.py:99-148 | after any number of rows a column is active with the content of its master cell, or not at all |
| `DocxMerge.WayToMaster` | docreader/parser/docx_merge.py:111-146 | the master of a cell starts a merge and is reached through continuation cells only, each in the row next above the last one and sharing a column with it |
| `DocxMerge.FirstMasterIsLeftmost` | docreader/parser/docx_merge.py:126-133 | of several active columns under a continuation the leftmost decides |
| `DocxMerge.FillFollowsMasters` | docreader/parser/docx_merge.py:98-150 | every continuation cell holds its master's content, all other content and the shape of the table are unchanged |
| `DocxMergeInPlace.FillCell` | docreader/parser/docx_merge.py:107-146 | rewriting one cell object in place does to it what the specification of a step says |
| `DocxMergeInPlace.FillRow` | docreader/parser/docx_merge.py:103-148 | a row of cell objects is rewritten as specified, templates and flags included |
| `DocxMergeInPlace.FillTable` | docreader/parser/docx_merge.py:98-150 | the in-place algorithm on cell objects turns the table into the specified one and reports its change |
| `DocxNestedTables.FillLeavesNoRestart` | docreader/parser/docx_merge.py:116-144 | after one pass no cell starts a merge any more |
| `DocxNestedTables.FillIdempotent` | docreader/parser/docx_merge.py:98-150 | a second pass over a table changes nothing and reports no change |
| `DocxNestedTables.TableChanged` | docreader/parser/docx_merge.py:98-150 | a pass reports a change exactly when the table differs afterwards |
| `DocxTableOrder.TablesKeepPlaceIn` | docreader/parser/docx_merge.py:85-91 | filling a table leaves every table up to it in document order in its place in the tree |
| `DocxTableOrder.DownwardIsBottomUpIn` | docreader/parser/docx_merge.py:85-91 | processing tables in reversed document order is the same as expanding them from the inside out, for any expansion of a single table |
| `DocxTableOrder.FillsAgreeIn` | docreader/parser/docx_merge.py:84-91 | both orders count the same number of filled cells |
| `DocxNestedTables.BottomUpIdempotent` | docreader/parser/docx_merge.py:78-95 | expanding all nested tables twice is the same as once |
| `DocxNestedTables.FillPart` | docreader/parser/docx_merge.py:78-95 | a part is rewritten to its bottom-up expansion with the number of cells filled in it, and left alone exactly when no merge is left in it |
| `DocxFilledCount.FilledMeansRefilled` | docreader/parser/docx_merge.py:124-144 | the count for a table is the number of its continuation cells that have a master |
| `ParserLocks.RunInv` | docreader/parser/concurrency.py:12-39 | the protocol invariant holds in every state of every interleaving |
| `ParserLocks.Safety` | docreader/parser/pdf_parser.py:1483-1489 | at most one request uses pdfium, every semaphore's value plus holders is its first registrant's limit, nobody waits for a lock of its own |
| `ParserOutcomes.SemaphoresByName` | docreader/parser/pdf_parser.py:1565-1575 | in every state each of the three semaphores counts exactly the requests that went through it, up to the limit its first user asked for under that name; rendering counts with routing |
| `ParserLocks.FirstRegistrantDecides` | docreader/parser/concurrency.py:12-18 | later requests never change the limit of a registered semaphore |
| `ParserLocks.RenderSlotIsFree` | docreader/parser/pdf_parser.py:1565-1575 | the render semaphore is full whenever it is asked for, so asking never waits |
| `ParserLocks.ReleaseNeverRaises` | docreader/parser/concurrency.py:35-39 | a bounded semaphore is never released beyond its bound |
| `ParserLocks.Progress` | docreader/parser/concurrency.py:21-39 | while a request is unfinished some request can take a step |
| `ParserLocks.RunIsShort` | docreader/parser/pdf_parser.py:1450-1489 | a run takes at most sixteen steps per request, fallbacks included |
| `ParserLocks.StuckMeansDone` | docreader/parser/concurrency.py:21-39 | where no step is possible all requests are finished and every lock and slot is given back |
| `ParserOutcomes.Outcome` | docreader/parser/pdf_parser.py:1450-1481 | over every run: a page-by-page PDF is rendered as a whole iff the text pass failed, and fails iff both did; an OpenDataLoader PDF is rendered iff too little text came out; the others have one way, and each request succeeds iff the last way it tried did |
| `AnswerGenerator.StepInv` | dataset/qa_dataset.py:233-282 | each step, a crash included, keeps files and memory consistent |
| `AnswerGenerator.FilesStayLinked` | dataset/qa_dataset.py:237-282 | over all runs and crashes, for every list of queries: answer ids are 1 to n, and each pair points at an existing answer that the model gave for its query |
| `AnswerGenerator.FilesStayConsistent` | dataset/qa_dataset.py:237-282 | with distinct ids, or when nothing is asked, each query moreover occurs once |
| `AnswerGenerator.SavedAnswersStay` | dataset/qa_dataset.py:250-269 | for every list of queries: a pair once saved keeps its query and its answer text in every later state |
| `AnswerGenerator.FinishedRunSettles` | dataset/qa_dataset.py:254-282 | for every list of queries and every max_retries: after a completed run a query is answered or has failed as often as it is tried, max_retries + 1 times or never |
| `AnswerRuns.FinishedRun` | dataset/qa_dataset.py:237-282 | a completed run has added pairs and answers in step to what it started from, which is nothing when a file is missing or without columns, and has saved them all, or has found nothing to ask and left the files as they were |
| `AnswerRuns.OrphansGo` | dataset/qa_dataset.py:237-248 | a run launched without saved pairs, with something to ask, leaves as many answers as pairs, pair m pointing at answer m + 1: answers of an interrupted run are gone |
| `AnswerRuns.StopAnywhere` | dataset/qa_dataset.py:237-269 | a run can be stopped in any state with the files left as they are, and the next launch starts from them alone |
| `AnswerGenerator.ConsistentIffDistinct` | dataset/qa_dataset.py:254-282 | no history repeats a query in the files iff the query ids are distinct or nothing is asked |
| `AnswerGenerator.SaveBoth` | dataset/qa_dataset.py:267-269 | the two saves are two steps of the machine, answers first |
| `AnswerGenerator.GenerateAnswers` | dataset/qa_dataset.py:219-282 | the program with its loops and saves is a run of the machine, and ends in a completed or an interrupted state |
| `DocxPaging.IdentifyMapping` | docreader/parser/docx_parser.py:344-476 | every paragraph up to the page limit is listed on its page, in order, and no page is empty unless nothing is mapped |
| `DocxPaging.OnPageMeans` | docreader/parser/docx_parser.py:373-447 | a page lists exactly the mapped paragraphs with as many page breaks, or stretches of 25, in front of them |
| `DocxPaging.PageNumbers` | docreader/parser/docx_parser.py:373-447 | beyond 1000 paragraphs a page has 25 of them, otherwise the page of a paragraph is the number of breaks above it |
| `DocxPaging.MappedIff` | docreader/parser/docx_parser.py:378-435 | a paragraph is mapped iff its page is within the limit, or is page 0 of a document that is cut at breaks |
| `DocxPaging.MapTilesDocument` | docreader/parser/docx_parser.py:344-476 | the pages in order hold the paragraphs 0 to m - 1 without gap or repeat |
| `DocxPaging.MapComplete` | docreader/parser/docx_parser.py:378-435 | m is the whole document iff its last paragraph lies on a page within the limit |
| `DocxPaging.ApplyPageLimit` | docreader/parser/docx_parser.py:585-632 | the pages of the window, in order |
| `DocxPaging.ProcessedStretch` | docreader/parser/docx_parser.py:585-632 | the pages of any window hold one contiguous stretch of the document |
| `DocxPaging.ProcessedPrefix` | docreader/parser/docx_parser.py:502-512 | what the parser processes is a prefix of the document |
| `DocxAssembly.CollectResults` | docreader/parser/docx_parser.py:803-850 | results are collected in completion order, workers that raised left out |
| `DocxAssembly.UploadImages` | docreader/parser/docx_parser.py:891-936 | the link map holds exactly the existing local images whose upload returned a URL |
| `DocxAssembly.ProcessResults` | docreader/parser/docx_parser.py:862-979 | rebuilt lines, carried page numbers included, sorted by page |
| `DocxAssembly.StalePageHappens` | docreader/parser/docx_parser.py:944-968 | a line without content can be filed under another page |
| `DocxAssembly.OrderDoesNotShow` | docreader/parser/docx_parser.py:803-979 | for every completion order the text is that of the pages in ascending order |
| `DocxTexts.TextMeaning` | docreader/parser/docx_parser.py:862-979 | that text is the non-empty page texts between empty lines; with images anywhere a page text is made of its pieces, an image being a link iff its file exists, was listed and has a URL, else it is what the worker returned |
| `DocxAssembly.ParseIntoText` | docreader/parser/docx_parser.py:150-190 | the whole merge returns the page texts in page order |
| `MarkdownNormalizer.NormalizeMarkdown` | docreader/parser/mhtml_parser.py:251-290 | the loop computes the specified normal form |
| `MarkdownNormalizer.Idempotent` | docreader/parser/mhtml_parser.py:251-290 | normalising twice is the same as once |
| `MarkdownNormalizer.NormalizedIsLayout` | docreader/parser/mhtml_parser.py:251-290 | the result is the groups of kept lines in order, fenced lines verbatim and others trimmed, one empty line between groups |
| `MarkdownGroups.GroupsAreStretches` | docreader/parser/mhtml_parser.py:259-288 | the groups are the maximal stretches of lines that are no blank lines outside fences, in order |
| `MarkdownGroups.GroupsKeepLines` | docreader/parser/mhtml_parser.py:259-288 | one after the other the groups hold exactly those lines, each once, in order |
| `MarkdownNormalizer.LosesLinesIff` | docreader/parser/mhtml_parser.py:251-290 | final lines are lost iff a fence is open at the end and the last line of the text is empty |
| `MarkdownNormalizer.MarksStay` | docreader/parser/mhtml_parser.py:259-288 | read again, every line is fenced or plain as before, in the same groups |
| `MarkdownNormalizer.NormalizedSingleGaps` | docreader/parser/mhtml_parser.py:259-290 | outside fences no two blank lines follow each other and none begins or ends the text |
| `MarkdownNormalizer.TrimSettles` | docreader/parser/mhtml_parser.py:283-303 | trimming is idempotent, leaves text, and neither opens nor hides a fence |
| `MarkdownLines.TrimMeaning` | docreader/parser/mhtml_parser.py:283-288 | trailing spaces and tabs go, except that two spaces stay when the last two are spaces |
| `MarkdownLines.LinesReadBack` | docreader/parser/mhtml_parser.py:251-259 | any lines are read back from a text in which any mixture of the three line ends stands between them |
| `MarkdownFences.FenceAsStandardIff` | docreader/parser/mhtml_parser.py:293-303 | a line taken for an opening fence is one by the spec iff its mark is a tilde or no backtick follows the run |
| `MarkdownFences.AgreesWithStandardIff` | docreader/parser/mhtml_parser.py:293-303 | code and spec see the same fence in a line, or none, iff the code sees none or the condition above holds |
| `MarkdownFences.BacktickInInfo` | docreader/parser/mhtml_parser.py:293-303 | a concrete line that opens a fence for the code and none by the spec |
| `MarkdownFences.ClosesAsStandard` | docreader/parser/mhtml_parser.py:305-313 | a line closes a fence iff it does so by the spec: up to three spaces, at least as many marks, then spaces and tabs only |
| `MarkdownFences.OpenFenceStep` | docreader/parser/mhtml_parser.py:259-277 | a fence stays open up to the first line that closes it by the spec; outside fences every fence of the spec opens |
| `MarkdownTables.SplitPrinted` | docreader/parser/markdown_parser.py:63-95 | splitting a printed row returns its cells, for any trimmed cells without a pipe |
| `MarkdownRows.CellsMeaning` | docreader/parser/markdown_parser.py:63-74 | the cells of any row are its parts between the pipes, trimmed, where what follows the last pipe counts unless it is blank |
| `MarkdownRows.SeparatorCellIff` | docreader/parser/markdown_parser.py:29-29 | a delimiter cell is three dashes or more, with or without one colon on either side |
| `MarkdownRows.TableRowIff` | docreader/parser/markdown_parser.py:76-79 | a table row is a line whose first character that is not white space is a pipe, with another pipe later |
| `MarkdownTables.SeparatorFits` | docreader/parser/markdown_parser.py:91-95 | the inserted delimiter row parses as one, has the header's number of cells, and is its own delimiter row |
| `MarkdownRows.SeparatorSpelled` | docreader/parser/markdown_parser.py:91-95 | the inserted row is a pipe and one ` --- ` with its pipe per cell of the header |
| `MarkdownTables.NormalizeTableBlock` | docreader/parser/markdown_parser.py:96-108 | the popping loop computes the repaired block |
| `MarkdownTables.HeadDelimiterRows` | docreader/parser/markdown_parser.py:96-108 | the repaired block is the first remaining row, a delimiter row, and the rest in order |
| `MarkdownTables.DocumentIdempotentIff` | docreader/parser/markdown_parser.py:110-126 | repairing the lines of a document twice is the same as once iff all its blocks are stable |
| `MarkdownTables.BlockIdempotentIff` | docreader/parser/markdown_parser.py:96-108 | repairing a block twice is the same as once iff it is stable: its first remaining row is ordinary, or a left-over delimiter in one exact shape |
| `MarkdownTables.EmptyHeadIff` | docreader/parser/markdown_parser.py:96-108 | the repair leaves an empty first row iff, behind the empty rows in front, a delimiter row is followed by an empty row |
| `MarkdownTables.DelimiterEmptyData` | docreader/parser/markdown_parser.py:96-108 | a concrete block that the second repair changes |
| `MarkdownTables.NormalizeSpuriousTablePrefixes` | docreader/parser/markdown_parser.py:110-126 | the index loop repairs every maximal run of table rows and nothing else |
| `MarkdownTables.DocumentKeepsContent` | docreader/parser/markdown_parser.py:110-126 | lines outside tables and rows with content survive, in order |
| `MarkdownTables.RepairIdempotentIff` | docreader/parser/markdown_parser.py:110-126 | repairing a text twice is the same as once iff all its blocks are stable |
| `SseReaders.ProcessAgentStream` | client/agent.go:114-167 | the agent reader delivers the trimmed data of every complete block, block by block |
| `SseReaders.KnowledgeQaStream` | client/session.go:298-358 | the same for a knowledge question, without trimming |
| `SseReaders.ContinueStream` | client/session.go:386-434 | the reader that keeps data and event name until they are delivered |
| `SseReaders.DeliverIsPrefix` | client/agent.go:127-151 | events are delivered in order up to and including the first refused or terminal one |
| `SseReaders.AgentReadsAsQaIff` | client/agent.go:114-167 | the agent client and the knowledge question read the same data from a stream iff trimming changes the data of no complete block |
| `SseReaders.BlankDataDiffers` | client/agent.go:114-167 | on data that is a single space they differ: one event against none |
| `SseReaders.AgentAgreesWithQa` | client/agent.go:114-167 | they deliver the same events when the data of each block decodes alike with and without trimming |
| `SseReaders.ContinueIsBlockwiseIff` | client/session.go:393-430 | exactly the blocks that are messages by their own lines are delivered iff no other block becomes one together with lines left over from earlier blocks |
| `SseReaders.ContinueIsBlockwise` | client/session.go:393-430 | in particular so on blocks with both lines or neither |
| `SseReaders.StaleDataIsDelivered` | client/session.go:397-430 | a stream on which data of one block is delivered under the event of the next |
| `SseReaders.OtherSpellingDeliversNothing` | client/session.go:397-424 | without a line `event:message` nothing is delivered |
| `SseReaders.ReadersOnWrittenStream` | client/session.go:298-434 | on any written frames the readers deliver the encoded data in order, the third that of messages, and discard a cut-off frame; the agent client does if trimming does not matter to the decoding |
| `SseStandard.QaDataAsStandardIff` | client/session.go:298-358 | the data of a block is read as the standard says iff the block has none, or one data line whose value is not empty and does not start with a space |
| `SseStandard.AgentDataAsStandardIff` | client/agent.go:114-167 | the same for the agent client: iff none, or one data line whose value, one leading space apart, is not empty and needs no trimming |
| `SseStandard.TwoDataLines` | client/session.go:298-358 | of two data lines the standard joins both and the readers keep the second |
| `SseStandard.EventAsStandardIff` | client/session.go:397-424 | no block is taken for a message that is none; one is missed iff the text of its last `event:` line is missing, empty, one space or `message` behind one space, or is any other than `message` and a bare `event` line comes after it |
| `SseStandard.SpacedNameIsMissed` | client/session.go:397-424 | a block with `event: message` and data: a message to the standard, none to the reader |
| `MhtmlImages.FindFree` | docreader/parser/mhtml_parser.py:177-184 | the search for a free name ends at the smallest free number |
| `MhtmlImages.ImagePathForPart` | docreader/parser/mhtml_parser.py:161-184 | a named part gets its own name or the first free one, never a used one |
| `MhtmlImages.PathMeaning` | docreader/parser/mhtml_parser.py:161-184 | a part called stem and extension, its own or that of its type, is stored under that name, or when it is in use under the first free one of stem_2, stem_3 and so on |
| `MhtmlImages.CollectImages` | docreader/parser/mhtml_parser.py:50-75 | all image parts are stored, each path chosen with the earlier ones in use |
| `MhtmlImages.DistinctIffFresh` | docreader/parser/mhtml_parser.py:161-184 | no image overwrites another iff every generated identifier is unused at its time |
| `MhtmlImages.OneImagePerPart` | docreader/parser/mhtml_parser.py:70-75 | the image map has one entry per image part iff every generated identifier is unused at its time |
| `MhtmlImages.ApartKeepsAll` | docreader/parser/mhtml_parser.py:161-184 | seen from the parts alone: all images are kept if no generated identifier is a name that an earlier part can get |
| `MhtmlImages.StoredData` | docreader/parser/mhtml_parser.py:70-74 | an image keeps the data of its part unless a later part has the same path |
| `MhtmlImages.AliasesLead` | docreader/parser/mhtml_parser.py:127-146 | every reference of a part leads to an existing image, that of the last part using it |
| `ExcelRows.StableHeaderLabels` | docreader/parser/excel_parser.py:157-173 | the loop gives each cell its base label, numbered from the second occurrence on |
| `ExcelRows.LabelMeaning` | docreader/parser/excel_parser.py:157-173 | a cell is named by its value, or by its column when it has none; behind m cells of that name `_` and m + 1 are added |
| `ExcelRows.ColumnLetterMeaning` | docreader/parser/excel_parser.py:164-169 | column letters are A to Z and read as a number with 26 digits give the column back |
| `ExcelRows.DistinctIff` | docreader/parser/excel_parser.py:157-173 | labels are distinct iff no base label is another one followed by `_k` with k between 2 and its number of occurrences |
| `ExcelRows.ClashHappens` | docreader/parser/excel_parser.py:157-173 | A, A, A_2 yields A_2 twice |
| `ExcelRows.ParseSheets` | docreader/parser/excel_parser.py:94-134 | one chunk per row with content; chunks are numbered from 0, lie end to end, and are slices of the text |

## Left out

- Foreign code (pdfium, PIL, lxml, openpyxl, pandas, MarkItDown, OpenDataLoader, BeautifulSoup, the OpenAI client, JSON decoding): its results are inputs.
- Coordinates and thresholds are `real` numbers; the rounding of floats is not modelled.
- The tests for debris, captions, interior lines, artifact columns and white space are parameters of the theorems; the regular expressions behind them are not modelled.
- Text-quality heuristics, garbled-text detection, heading markup and figure bounding boxes: tuned thresholds without a specification of their own.
- The document of `PdfRouting.RouteLocked` is a sequence of texts and links; joining them into one string, and the entry that says whether any page was scanned, are left out.
- `_strip_repeating_lines` and the choice between plain and layout text: the lines of a page and what becomes of them after the clips are put in are parameters of `PdfRouting.RouteLocked`, so a link that is removed later as a repeated line is not excluded.
- DocxMergeInPlace.FillTable: one table of cell objects; nested tables are expanded on values (`DocxNestedTables`), so update in place across nesting levels is not captured.
- The ZIP rewriting around a DOCX part, and XML syntax errors: parts are trees.
- DocxAssembly.ParseIntoText: uploads are a function of the local path, and the lines of the page workers carry no URL yet, as the workers never set one; the fallback parser for an empty text is not modelled.
- ParserLocks.Safety: exceptions are modelled at stretches of parsing code and not inside lock operations; thread termination is not modelled.
- AnswerGenerator.FilesStayConsistent: a save is one atomic step; reading a half-written file is not modelled.
- Scanning of lines from a network stream, with its 4 MiB cap: the readers get the scanned lines and whether reading failed at the end.
- MhtmlImages.CollectImages: parts with an empty payload are not listed, and file names and references arrive decoded.
- ExcelRows.ParseSheets: the label and text of a cell are inputs; which cells count as missing or as pictures is decided outside.
- `format_table`, `_convert_table_to_html`, `_open_excel_file`, `xlsx_merge.py`, `chain_parser.py`, `pptx_media.py`, and the rest of the client, the server, the command line and the user interfaces: easier relatives or plumbing.
