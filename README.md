# Katas and generators, modelled in Dafny

This project models two JavaScript files of a course repository.

`task/11-katas-2-tasks.js` holds four katas:

- **Rectangle decomposition** (`getFigureRectangles` with its inner `processing`, `rec` and `getFigure`). An ASCII figure of `+`, `-`, `|` and spaces is split into rows. Every cell that can be a top-left corner is tried. Four directed walks (right, down, left, up) must come back to that corner. Each closed rectangle is yielded as a fresh drawing.
- **Bank account OCR** (`parseBankAccount`). Three lines drawn with pipes and underscores are read block by block, three columns to a digit. The digit string is turned into a number.
- **Word wrap** (`wrapText`). Words are packed greedily into lines of at most `columns` characters.
- **Poker hand ranking** (`getPokerHandRank`, its helper `getRand` and the `PokerRank` constants). The distinct ranks, their counts and the distinct suits are tallied. The ranks are sorted, with the ace high or low. The hand rank is the first of nine tests that holds.

`task/07-yield-tasks.js` holds five generators:

- the "99 Bottles of Beer" song (`get99BottlesOfBeer`);
- the Fibonacci numbers (`getFibonacciSequence`);
- depth-first and breadth-first tree traversals (`depthTraversalTree`, `breadthTraversalTree`);
- the merge of two sorted sources (`mergeSortedSequences`).

## How the model is built

Every loop of the source becomes a Dafny `method` with a `while` loop. Each method is proved equal to a specification function of its inputs, and the properties are then proved about that function as lemmas.

A generator becomes a method that returns the sequence of everything it yields. A source of the merge is the finite sequence of its items; the end of the sequence plays the part of `next().value === undefined`.

JavaScript's `undefined` results are modelled explicitly:

- Reading a cell outside the figure gives `None` (`Rectangles.At`).
- Indexing a missing line of a bank-account scan throws a `TypeError` in the source. `BankAccount.Parse` returns `None` for it.

The source's doc comment (task/11-katas-2-tasks.js:233) says a figure is made of `-`, `+`, `|` and spaces. The walks themselves do the following:

- The four walks of `processing` pass over any character other than a space or a stopping `+`, including a `|` inside a top edge. Characters are counted one per Unicode character, which matches the source's UTF-16 indexing only for characters below U+10000 (see "## Left out"). So a rectangle's edges need not consist of `-` and `|` only. `Rectangles.TracedRectangleShape` states what the code does guarantee: four `+` corners and no space on the boundary.
- `rec` returns only `width` and `height`, so a rectangle is rendered from its size alone (`Rectangles.GetFigure`).

Modules, one per file:

| module | file |
|---|---|
| `Wrappers` | `wrappers.dfy` |
| `Text` (split, join, repeat, decimal strings) | `text.dfy` |
| `Rectangles` | `rectangles.dfy` |
| `BankAccount` | `bank_account.dfy` |
| `WordWrap` | `word_wrap.dfy` |
| `Poker` | `poker.dfy` |
| `Bottles` | `bottles.dfy` |
| `Fibonacci` | `fibonacci.dfy` |
| `TreeTraversal` | `tree_traversal.dfy` |
| `MergeSorted` | `merge_sorted.dfy` |

## Model

| member | source | states |
|---|---|---|
| Text.Split | task/11-katas-2-tasks.js:37 | `String.prototype.split` on one character: at least one piece, and no piece holds the separator |
| Text.JoinSplit | task/11-katas-2-tasks.js:92 | joining the pieces of a split with the separator gives the string back |
| Text.SplitJoin | task/11-katas-2-tasks.js:92 | splitting a join of separator-free pieces gives the pieces back |
| Text.SplitLine | task/11-katas-2-tasks.js:262 | a separator-free line followed by the separator splits off as its own first piece |
| Text.Repeat | task/11-katas-2-tasks.js:309-311 | `String.prototype.repeat`: `n` copies, of total length `n` times the length |
| Text.RepeatAt | task/11-katas-2-tasks.js:309-311 | character `j` of copy `q` of a repetition is character `j` of the repeated string |
| Text.NatToString | task/07-yield-tasks.js:38-39 | the `${n}` rendering is a non-empty digit string with no leading zero |
| Text.DecimalValueOfNatToString | task/07-yield-tasks.js:38-39 | reading the rendering of `n` as a number gives `n` back |
| Text.LeadingZeroIgnored | task/11-katas-2-tasks.js:64 | `Number(...)` of a digit string ignores a leading zero |
| Text.DecimalFromSnoc | task/11-katas-2-tasks.js:64 | one more digit at the end multiplies the value by ten and adds the digit |
| Rectangles.At | task/11-katas-2-tasks.js:268 | a cell read is `Some` exactly inside the grid, and then it is the character there; outside, `undefined` |
| Rectangles.VerticalFrom | task/11-katas-2-tasks.js:266-271 | the vertical walk ends on a row inside the figure, on the side of its start that the step points to |
| Rectangles.HorizontalFrom | task/11-katas-2-tasks.js:272-277 | the horizontal walk ends on a column inside its row, on the side its step points to |
| Rectangles.Walk | task/11-katas-2-tasks.js:264-279 | a successful walk ends strictly past its start cell, inside the figure, in the walking direction |
| Rectangles.Processing | task/11-katas-2-tasks.js:264-279 | the loop of `processing`, early returns included, computes the walk |
| Rectangles.VerticalFromFound | task/11-katas-2-tasks.js:267-271 | a vertical walk ends at row `k` iff row `k` holds a stopping `+` and every row before it lets the walk pass |
| Rectangles.HorizontalFromFound | task/11-katas-2-tasks.js:273-277 | a horizontal walk ends at column `k` iff that column holds a stopping `+` and every column before it lets the walk pass |
| Rectangles.VerticalGapFails | task/11-katas-2-tasks.js:270-271 | a space met before any stopping `+` makes a vertical walk fail |
| Rectangles.HorizontalGapFails | task/11-katas-2-tasks.js:276-277 | a space met before any stopping `+` makes a horizontal walk fail |
| Rectangles.WalkGapFails | task/11-katas-2-tasks.js:264-279 | in every direction, a space before any stopping `+` makes the walk fail without raising |
| Rectangles.Trace | task/11-katas-2-tasks.js:281-306 | a traced rectangle is at least 2 wide and 2 high |
| Rectangles.Rec | task/11-katas-2-tasks.js:281-306 | the four chained walks of `rec`, with their early failures, compute the trace |
| Rectangles.TopEdge | task/11-katas-2-tasks.js:287-288 | the first walk reaches column `right` iff the next row exists and the top edge stops exactly there |
| Rectangles.RightEdge | task/11-katas-2-tasks.js:289-290 | the second walk reaches row `bottom` iff the right edge stops exactly there |
| Rectangles.BottomEdge | task/11-katas-2-tasks.js:294-295 | the third walk reaches column `left` iff the row above exists and the bottom edge stops exactly there |
| Rectangles.LeftEdge | task/11-katas-2-tasks.js:296-297 | the fourth walk reaches row `top` iff the left edge stops exactly there |
| Rectangles.TraceIff | task/11-katas-2-tasks.js:281-306 | the trace from a corner is a `width` by `height` rectangle iff the four edges of that size close on the corner |
| Rectangles.TracedRectangleShape | task/11-katas-2-tasks.js:299-303 | a traced rectangle has a `+` at each of its four corners and no space anywhere on its boundary |
| Rectangles.GetFigure | task/11-katas-2-tasks.js:308-313 | the rendering is `height * (width + 1)` characters long; what each character is, `Rectangles.GetFigureAt` states |
| Rectangles.GetFigureAt | task/11-katas-2-tasks.js:308-313 | every character of the rendering: `+` and `-` on the first and last line; `\|` and spaces between; '\n' at each line end |
| Rectangles.Border | task/11-katas-2-tasks.js:309 | the border line is `width` characters plus '\n' |
| Rectangles.Interior | task/11-katas-2-tasks.js:311 | an interior line is `width` characters plus '\n' |
| Rectangles.LineAt | task/11-katas-2-tasks.js:309 | the border line is `+`, `width - 2` dashes, `+`, '\n' |
| Rectangles.MiddleAt | task/11-katas-2-tasks.js:311 | an interior line is `\|`, `width - 2` spaces, `\|`, '\n' |
| Rectangles.GetFigureRectangles | task/11-katas-2-tasks.js:261-326 | the nested row and column scan yields exactly the rectangles of the figure, in scan order |
| Rectangles.ScanCellStep | task/11-katas-2-tasks.js:316-325 | one cell of the scan adds what that cell yields and keeps the scan's accounting |
| Rectangles.ScanRowStep | task/11-katas-2-tasks.js:315-316 | the end of a row of the scan moves on to the next row |
| Rectangles.FromOriginMembers | task/11-katas-2-tasks.js:317-324 | a cell yields a drawing iff it is a candidate corner and a boundary of that drawing's size closes on it |
| Rectangles.ScanRowMembers | task/11-katas-2-tasks.js:316-324 | a row's scan from column `j` yields exactly the drawings of the cells from `j` on |
| Rectangles.ScanRowsMembers | task/11-katas-2-tasks.js:315-324 | the scan from row `i` yields exactly the drawings of the cells of rows `i` on |
| Rectangles.YieldsInside | task/11-katas-2-tasks.js:318 | only cells inside the figure yield |
| Rectangles.RectanglesMembers | task/11-katas-2-tasks.js:315-325 | the figure yields a drawing iff some corner candidate has a closing boundary of that size |
| Rectangles.NoPlusNoRectangles | task/11-katas-2-tasks.js:317-321 | a figure without `+` yields nothing |
| Rectangles.ScanRowNone | task/11-katas-2-tasks.js:316-321 | a row with no candidate corner from column `j` on yields nothing |
| Rectangles.ScanRowsNone | task/11-katas-2-tasks.js:315-321 | rows with no candidate corner yield nothing |
| Rectangles.LinesEndInNewline | task/11-katas-2-tasks.js:309-311 | border and interior lines are `width` newline-free characters followed by '\n' |
| Rectangles.MiddleRows | task/11-katas-2-tasks.js:311 | `n` interior rows, each the interior line without its '\n' |
| Rectangles.SplitMiddle | task/11-katas-2-tasks.js:262 | `n` interior lines split into `n` interior rows |
| Rectangles.RenderedSplit | task/11-katas-2-tasks.js:262 | splitting a rendering gives the top border, the interior rows, the bottom border and an empty last piece |
| Rectangles.RenderedRows | task/11-katas-2-tasks.js:308-313 | the rows of a rendering draw exactly a `width` by `height` rectangle |
| Rectangles.DrawnClosed | task/11-katas-2-tasks.js:315-325 | in a drawn rectangle the top-left cell is a candidate corner and its boundary closes |
| Rectangles.DrawnScan | task/11-katas-2-tasks.js:315-325 | scanning a drawn rectangle yields its rendering once and nothing else |
| Rectangles.RenderRoundTrip | task/11-katas-2-tasks.js:308-326 | decomposing a rendered rectangle yields exactly that rendering |
| Rectangles.DrawingRows | task/11-katas-2-tasks.js:262 | a figure written as rows each ending in '\n' splits into those rows and an empty last piece |
| Rectangles.ScanRowSkip | task/11-katas-2-tasks.js:316-321 | cells that are not candidate corners add nothing to a row's scan |
| Rectangles.TwoTilesExample | task/11-katas-2-tasks.js:247-250 | the two tiles of the first documented figure, drawn alone, decompose into the 8 by 4 tile and then the 7 by 4 tile |
| Rectangles.FrameOnTilesExample | task/11-katas-2-tasks.js:243-250 | the first documented figure decomposes into the 14 by 5 frame, the 8 by 4 tile and the 7 by 4 tile, in scan order |
| Rectangles.BoxOnBaseExample | task/11-katas-2-tasks.js:254-259 | the second documented figure decomposes into the 7 by 3 box and then the 15 by 4 base |
| BankAccount.Is | task/11-katas-2-tasks.js:41 | `floors[r][c] === ch`: it throws iff line `r` is missing, and it is true iff the cell exists and holds `ch` |
| BankAccount.AndThen | task/11-katas-2-tasks.js:41 | `a && b`: true iff both tests are true; it throws iff `a` throws, or `a` is true and `b` throws |
| BankAccount.Choose | task/11-katas-2-tasks.js:41-61 | an `if`/`else if` step: a true test picks its digit, a false one the rest of the chain, a throwing one throws |
| BankAccount.Glyph | task/11-katas-2-tasks.js:41-61 | the chain of tests gives a digit character when it does not throw |
| BankAccount.GlyphDefined | task/11-katas-2-tasks.js:41-61 | with three lines present the chain never throws |
| BankAccount.GlyphThrows | task/11-katas-2-tasks.js:41-43 | with one or two lines the chain throws |
| BankAccount.DigitsFrom | task/11-katas-2-tasks.js:40-62 | the scan gives a digit string when it does not throw |
| BankAccount.DigitsFromShape | task/11-katas-2-tasks.js:40-62 | one digit per started block of three columns; it throws iff a block is left and a line is missing |
| BankAccount.ParseThrowsIff | task/11-katas-2-tasks.js:36-43 | `parseBankAccount` throws iff the first line is non-empty and there are fewer than three lines |
| BankAccount.ParseBankAccount | task/11-katas-2-tasks.js:36-65 | the stepped loop with `resultString +=` and `Number(...)` computes the parse |
| BankAccount.GlyphReads | task/11-katas-2-tasks.js:41-61 | each of the ten glyphs drawn in a block reads as the digit it draws |
| BankAccount.DrawFloors | task/11-katas-2-tasks.js:37 | a three-line drawing ending in '\n' splits into its three lines and an empty piece |
| BankAccount.DigitsFromDrawing | task/11-katas-2-tasks.js:40-62 | scanning the lines of a drawing of digits reads those digits back, one per block |
| BankAccount.DrawingBlock | task/11-katas-2-tasks.js:40-41 | block `k` of a drawing is the glyph of digit `k` |
| BankAccount.ParseDrawing | task/11-katas-2-tasks.js:36-65 | parsing the drawing of any digits gives the number they spell, leading zeros dropped |
| BankAccount.DigitStringValue | task/11-katas-2-tasks.js:64 | the value of a digit string is the number its digits spell |
| BankAccount.Example123456789 | task/11-katas-2-tasks.js:23-25 | the drawing of 1 to 9 parses as 123456789 |
| BankAccount.Example23056789 | task/11-katas-2-tasks.js:27-29 | the drawing of 0, 2, 3, 0, 5, 6, 7, 8, 9 parses as 23056789, the leading zero dropped |
| BankAccount.Example823856989 | task/11-katas-2-tasks.js:31-33 | the drawing of 8, 2, 3, 8, 5, 6, 9, 8, 9 parses as 823856989 |
| WordWrap.Units | task/11-katas-2-tasks.js:97 | a character takes one UTF-16 code unit, or two outside the Basic Multilingual Plane |
| WordWrap.Length | task/11-katas-2-tasks.js:97 | `.length` counts code units, never fewer than the characters |
| WordWrap.LengthAppend | task/11-katas-2-tasks.js:98 | the length of `line + ' ' + word` is the sum of the pieces' lengths |
| WordWrap.LengthOfPlain | task/11-katas-2-tasks.js:97 | `.length` equals the number of characters iff every character is in the Basic Multilingual Plane |
| WordWrap.Take | task/11-katas-2-tasks.js:97-99 | the inner loop takes at most the words that are left, testing lengths in code units |
| WordWrap.Lines | task/11-katas-2-tasks.js:98-100 | each yielded line is its group of words joined by single spaces |
| WordWrap.Wrap | task/11-katas-2-tasks.js:91-102 | the two loops with `shift()` compute the wrapped lines |
| WordWrap.LineGrows | task/11-katas-2-tasks.js:98 | `line += ' ' + word` extends the joined line by one word |
| WordWrap.LineDone | task/11-katas-2-tasks.js:95-100 | yielding a finished line keeps the outer loop's accounting |
| WordWrap.TakeFits | task/11-katas-2-tasks.js:97 | a line that took more words fits in `columns`, and the next word would not have fitted |
| WordWrap.GroupsStart | task/11-katas-2-tasks.js:96 | every line starts with the next word, which is always taken |
| WordWrap.GroupsFlatten | task/11-katas-2-tasks.js:95-101 | the lines' words, in order, are exactly the words of the text: none lost, none split |
| WordWrap.GroupsFit | task/11-katas-2-tasks.js:97 | every line has a word, and a line of more than one word fits in `columns` |
| WordWrap.GroupsGreedy | task/11-katas-2-tasks.js:97 | the first word of each later line would not have fitted on the line before |
| WordWrap.LinesJoin | task/11-katas-2-tasks.js:98 | joining the lines with spaces is joining all their words with spaces |
| WordWrap.WrapRestoresText | task/11-katas-2-tasks.js:91-102 | joining the yielded lines with single spaces gives the text back |
| WordWrap.WrapFits | task/11-katas-2-tasks.js:97 | each line fits in `columns` or is one word |
| WordWrap.GroupWord | task/11-katas-2-tasks.js:92 | a one-word line holds no space |
| WordWrap.WrapGreedy | task/11-katas-2-tasks.js:97 | the first word of every later line would have made the line before too long |
| WordWrap.TakeRun | task/11-katas-2-tasks.js:97-99 | a line that fits whole, followed by a word that would not fit, is taken exactly |
| WordWrap.TakeLine | task/11-katas-2-tasks.js:96-99 | a line that fits or is one word, followed by a word that would not fit, is taken exactly |
| WordWrap.GreedyIsGroups | task/11-katas-2-tasks.js:95-101 | the converse of GroupsFit and GroupsGreedy: any lines that each fit (or are one word) and are each as full as the greedy rule allows are exactly the lines yielded |
| WordWrap.JoinLength | task/11-katas-2-tasks.js:98 | the length of plain words joined by spaces is their characters plus the spaces |
| WordWrap.PlainGreedyIsGroups | task/11-katas-2-tasks.js:95-101 | GreedyIsGroups for plain words, with lengths counted in characters |
| WordWrap.AstralExample | task/11-katas-2-tasks.js:97 | `"ab 😀"` at 4 columns yields `"ab"` and then `"😀"`, because the emoji is two code units long |
| WordWrap.Wrap26Example | task/11-katas-2-tasks.js:77-80 | the documented text's words at 26 columns give the four documented lines |
| WordWrap.Wrap12Example | task/11-katas-2-tasks.js:82-89 | the documented text's words at 12 columns give the eight documented lines |
| Poker.IndexOf | task/11-katas-2-tasks.js:149 | `indexOf`: the first position of the item, or -1 iff it is absent |
| Poker.LastIndexOf | task/11-katas-2-tasks.js:198 | `lastIndexOf`: the last position of the item, or -1 iff it is absent |
| Poker.KeyIsIndexOf | task/11-katas-2-tasks.js:139 | the rank table agrees with `RANKS.indexOf` and `RANKS.lastIndexOf` for every character |
| Poker.KeyIn | task/11-katas-2-tasks.js:139 | any string spelling the rank order has those first and last positions |
| Poker.AddCard | task/11-katas-2-tasks.js:149-162 | one pass of the tally loop keeps one count per distinct rank |
| Poker.TallyOf | task/11-katas-2-tasks.js:147-163 | the tally of a hand has one count per distinct rank |
| Poker.TallyCounts | task/11-katas-2-tasks.js:147-163 | the ranks and suits are distinct; each count is how often its rank occurs; exactly the hand's ranks and suits are listed |
| Poker.TallyValues | task/11-katas-2-tasks.js:149-157 | each count is how often its rank occurs in the hand |
| Poker.TallyRanks | task/11-katas-2-tasks.js:149-153 | a rank is listed iff some card has it |
| Poker.TallySuits | task/11-katas-2-tasks.js:159-162 | the suits are distinct, and a suit is listed iff some card has it |
| Poker.OccurrencesIff | task/11-katas-2-tasks.js:149-157 | a rank occurs a positive number of times iff some card has it |
| Poker.TallyAllNew | task/11-katas-2-tasks.js:149-153 | there are no more distinct ranks than cards, and when there are as many, every count is 1 |
| Poker.SortByRank | task/11-katas-2-tasks.js:164 | the sort keeps the number of ranks |
| Poker.Insert | task/11-katas-2-tasks.js:164 | one insertion step adds one rank |
| Poker.InsertPermutes | task/11-katas-2-tasks.js:164 | an insertion step keeps the ranks and adds the new one |
| Poker.InsertKeepsSorted | task/11-katas-2-tasks.js:164 | an insertion step keeps the ranks sorted by `RANKS.indexOf` |
| Poker.SortByRankSorts | task/11-katas-2-tasks.js:164 | the sort is a permutation of the ranks, ordered by `RANKS.indexOf` |
| Poker.AceHighMoves | task/11-katas-2-tasks.js:165-169 | a leading ace not followed by a 2 moves to the end, the other ranks keeping their order; otherwise nothing moves; the ranks stay the same |
| Poker.GetRand | task/11-katas-2-tasks.js:137-169 | the tally loop, the sort and the ace move compute the hand's statistics |
| Poker.StatsSorted | task/11-katas-2-tasks.js:164-169 | the sorted ranks are exactly the distinct ranks |
| Poker.CountOf | task/11-katas-2-tasks.js:171-182 | the number of ranks counted `cnt` times is positive iff some count equals `cnt` |
| Poker.GetCount | task/11-katas-2-tasks.js:171-182 | the counting loop of `getCount` computes that number |
| Poker.CountDetects | task/11-katas-2-tasks.js:171-182 | `getCount(n)` is non-zero iff some rank of the hand occurs exactly `n` times |
| Poker.FlushIff | task/11-katas-2-tasks.js:184-187 | `isFlush()` holds iff the hand has cards and all of them share one suit |
| Poker.SuitsAgree | task/11-katas-2-tasks.js:184-187 | a single tallied suit means every card has that suit |
| Poker.OneSuit | task/11-katas-2-tasks.js:159-162 | a hand of one suit tallies that suit alone |
| Poker.CheckStraight | task/11-katas-2-tasks.js:189-205 | the loop of `isStraight`, early returns included, decides whether the first five sorted ranks follow on |
| Poker.StraightRanks | task/11-katas-2-tasks.js:210-219 | a five-card straight has no pair or more, so it ranks as a straight flush when it is a flush and as a straight otherwise |
| Poker.HandRank | task/11-katas-2-tasks.js:124-134 | the rank is one of the nine `PokerRank` values, 0 to 8; it is a straight flush iff the hand passes both `isFlush` and `isStraight`; a flush only when it is not a straight, and a straight only when it is not a flush |
| Poker.Classify | task/11-katas-2-tasks.js:210-227 | the first of the nine tests that holds gives the rank; straight flush iff flush and straight; flush and straight each exclude the other |
| Poker.GetPokerHandRank | task/11-katas-2-tasks.js:208-227 | building the statistics and running the tests in the source's order computes the hand's rank |
| Poker.StraightIff | task/11-katas-2-tasks.js:189-205 | for five cards of real ranks, `isStraight` holds iff the ranks fill five consecutive positions of `RANKS`, the ace at position 0 or 13 |
| Poker.StraightHands | task/11-katas-2-tasks.js:208-219 | five cards of real ranks rank as a straight flush iff they share one suit and make a run, and as a straight iff they make a run in more than one suit |
| Poker.StraightFlushExample | task/11-katas-2-tasks.js:112 | the documented hand `4♥ 5♥ 6♥ 7♥ 8♥` ranks as a straight flush |
| Poker.AceLowStraightFlushExample | task/11-katas-2-tasks.js:113 | the documented hand `A♠ 4♠ 3♠ 5♠ 2♠` ranks as a straight flush, the ace low |
| Poker.FourOfKindExample | task/11-katas-2-tasks.js:114 | the documented hand `4♣ 4♦ 4♥ 4♠ 10♥` ranks as four of a kind |
| Poker.FullHouseExample | task/11-katas-2-tasks.js:115 | the documented hand `4♣ 4♦ 5♦ 5♠ 5♥` ranks as a full house |
| Poker.FlushExample | task/11-katas-2-tasks.js:116 | the documented hand `4♣ 5♣ 6♣ 7♣ Q♣` ranks as a flush |
| Poker.StraightExample | task/11-katas-2-tasks.js:117 | the documented hand `2♠ 3♥ 4♥ 5♥ 6♥` ranks as a straight |
| Poker.AceLowStraightExample | task/11-katas-2-tasks.js:118 | the documented hand `2♥ 4♦ 5♥ A♦ 3♠` ranks as a straight, the ace low |
| Poker.ThreeOfKindExample | task/11-katas-2-tasks.js:119 | the documented hand `2♥ 2♠ 2♦ 7♥ A♥` ranks as three of a kind |
| Poker.TwoPairsExample | task/11-katas-2-tasks.js:120 | the documented hand `2♥ 4♦ 4♥ A♦ A♠` ranks as two pairs |
| Poker.OnePairExample | task/11-katas-2-tasks.js:121 | the documented hand `3♥ 4♥ 10♥ 3♦ A♠` ranks as one pair, the ace moved high |
| Poker.HighCardExample | task/11-katas-2-tasks.js:122 | the documented hand `A♥ K♥ Q♥ 2♦ 3♠` ranks as a high card, the ace staying low because a 2 follows it |
| Bottles.Verses | task/07-yield-tasks.js:37-41 | the loop yields two lines for each count from `n` down to 3 |
| Bottles.Song | task/07-yield-tasks.js:34-51 | the song has exactly 200 lines |
| Bottles.Get99BottlesOfBeer | task/07-yield-tasks.js:34-51 | the counting-down loop and then the six fixed lines yield the song |
| Bottles.VersesAt | task/07-yield-tasks.js:37-41 | the pair for `m` bottles sits at positions `2 (n - m)` and `2 (n - m) + 1` |
| Bottles.SongVerses | task/07-yield-tasks.js:38-39 | each count from 99 down to 3 gives its templated pair, in descending order |
| Bottles.SongEnding | task/07-yield-tasks.js:43-50 | the last six lines are the fixed singular and "no more" lines |
| Bottles.SongFirstAndLast | task/07-yield-tasks.js:38-50 | the first line is the template of line 38 with "99" filled in; the last is going to the store |
| Bottles.SongCountsDown | task/07-yield-tasks.js:38-40 | each "take one down" line leaves the count that the next line starts with |
| Fibonacci.GetFibonacciSequence | task/07-yield-tasks.js:62-76 | the first `n` items start 0, 1, each later item is the sum of the two before it, and item `k` is the `k`-th Fibonacci number |
| Fibonacci.FibRecurrent | task/07-yield-tasks.js:70-75 | a sequence follows the recurrence from 0, 1 iff it is the Fibonacci numbers |
| Fibonacci.RecurrentIsFib | task/07-yield-tasks.js:70-75 | item `k` of a recurrent sequence is the `k`-th Fibonacci number |
| Fibonacci.FibGrows | task/07-yield-tasks.js:71 | from the second item on the yielded numbers never decrease |
| Fibonacci.Opening | task/07-yield-tasks.js:55 | the sequence opens 0, 1, 1, 2, 3, 5, 8, 13, 21, 34, 55, 89, 144, 233 |
| TreeTraversal.DepthTraversalTree | task/07-yield-tasks.js:108-117 | the pop-and-push-reversed-children stack loop yields the preorder of the tree |
| TreeTraversal.PopStep | task/07-yield-tasks.js:111-115 | one pop and push keeps what the stack still has to yield |
| TreeTraversal.PreorderSize | task/07-yield-tasks.js:108-117 | the preorder has one entry per node |
| TreeTraversal.PreorderForestAppend | task/07-yield-tasks.js:114 | the preorder of two lists of trees is the preorder of the first followed by that of the second |
| TreeTraversal.ReverseReverse | task/07-yield-tasks.js:114 | reversing twice is the identity |
| TreeTraversal.MirrorForest | task/07-yield-tasks.js:114 | mirroring keeps the number of trees in a list |
| TreeTraversal.MirrorMirror | task/07-yield-tasks.js:114 | reversing every children array twice gives the tree back |
| TreeTraversal.MirrorForestReverse | task/07-yield-tasks.js:114 | mirroring commutes with reversing a list of trees |
| TreeTraversal.MirrorSize | task/07-yield-tasks.js:114 | the mutated tree has the same number of nodes |
| TreeTraversal.BreadthTraversalTree | task/07-yield-tasks.js:141-151 | the cursor loop over the growing array yields the tree level by level |
| TreeTraversal.CursorStep | task/07-yield-tasks.js:143-149 | appending a node's children and moving the cursor keeps what is left to yield |
| TreeTraversal.QueueSplit | task/07-yield-tasks.js:143-149 | the queue yields the nodes ahead, then the queue of the nodes behind them and their children |
| TreeTraversal.QueueIsLevels | task/07-yield-tasks.js:143-149 | the queue order is the level order |
| TreeTraversal.LevelsPermutesPreorder | task/07-yield-tasks.js:141-151 | level order and preorder hold the same nodes |
| TreeTraversal.SameNodes | task/07-yield-tasks.js:128-151 | the breadth-first traversal yields every node exactly once: the same nodes as the preorder, one per node |
| TreeTraversal.DepthExample | task/07-yield-tasks.js:89-105 | on the documented tree the depth-first traversal yields nodes 1 to 8 in order |
| TreeTraversal.BreadthExample | task/07-yield-tasks.js:130-139 | on the documented tree the breadth-first traversal yields nodes 1 to 8 in order |
| MergeSorted.MergeSortedSequences | task/07-yield-tasks.js:167-188 | the two-cursor loop and its three cases yield the merge |
| MergeSorted.MergeFromIsMerge | task/07-yield-tasks.js:171-187 | the merge seen from the cursors is the merge of the remaining items |
| MergeSorted.MergeInterleaves | task/07-yield-tasks.js:171-187 | the merge takes every item of both sources once, each source's items in their own order |
| MergeSorted.InterleavesUnion | task/07-yield-tasks.js:171-187 | an interleaving holds exactly the items of both sources |
| MergeSorted.MergeUnion | task/07-yield-tasks.js:171-187 | the merge is the multiset union of the sources |
| MergeSorted.MergeSortedness | task/07-yield-tasks.js:155-156 | the merge of sorted sources is sorted |
| MergeSorted.SortedUnique | task/07-yield-tasks.js:155-156 | two sorted sequences with the same items are equal |
| MergeSorted.MergeIsSortedUnion | task/07-yield-tasks.js:155-156 | for sorted sources a sequence is the merge iff it is sorted and holds exactly their items |
| MergeSorted.TieTakesSecond | task/07-yield-tasks.js:173-178 | on a tie the second source's item is yielded first |
| MergeSorted.Examples | task/07-yield-tasks.js:163-165 | the documented merges, on finite prefixes of the sources |

## Left out

- Generators are modelled as the finite sequence of what they yield. Laziness, and the interleaving of a consumer's work with the generator's, are not modelled.
- `getFibonacciSequence` never ends; `Fibonacci.GetFibonacciSequence` yields its first `n` items.
- Fibonacci.GetFibonacciSequence: numbers are unbounded naturals. JavaScript's doubles lose precision above 2^53, and that is not modelled.
- The merge's sources are finite sequences. An item that is `null` or `undefined` in the middle of a source ends it in the source; in the model a source ends only at its end.
- A merge source that never ends is represented only by a finite prefix (`MergeSorted.Examples`).
- MergeSorted.MergeSortedSequences: the items are real numbers. JavaScript's `NaN`, the infinities and items of other types, for which `<` does not order the items, are not modelled.
- BankAccount.Is: `floors[r][c]` is read as the c-th Unicode character, not the c-th UTF-16 code unit, as the next line explains.
- BankAccount.ParseBankAccount: the lines are indexed by Unicode character, where `floors[r][i]` and `floors[0].length` count UTF-16 code units. The model agrees with the source only when every character of the scan is below U+10000; a character above U+FFFF is one position in the model and two in the source.
- BankAccount.ParseBankAccount: `Number(...)` is an unbounded natural, so precision loss on very long digit strings is not modelled. The empty digit string gives 0, as `Number('')` does.
- TreeTraversal.DepthTraversalTree: the method returns only the yielded nodes. `children.reverse()` reverses each visited node's children array in place; that mutation is stated on values as `TreeTraversal.Mirror`, the tree the traversal leaves behind, and is not tied to the method. Node identity and aliasing between the yielded nodes and the mutated tree are not modelled.
- A leaf, which has no `children` property in the source, is a node with an empty children sequence. Both traversals handle the two cases alike.
- Poker: a card is any non-empty string; it reads as the source reads it when its characters are below U+10000 (see the Poker.GetPokerHandRank line). The empty string, whose `slice(-1)` is `''`, is not a card here.
- Poker: the suits matter only as the last character of a card; the model treats a suit as one `char`.
- Poker.GetRand: `v[0]` and `v.slice(-1)` are each read as one Unicode character, not one UTF-16 code unit, as the Poker.GetPokerHandRank line explains.
- Poker.GetPokerHandRank: a card's rank `v[0]` and suit `v.slice(-1)` are read as Unicode characters, where the source reads UTF-16 code units. The two agree only when every character of the hand is below U+10000. Cards that start with characters above U+FFFF sharing a high surrogate are one rank in the source and two in the model.
- Poker.GetRand: in the source `ranks.sorted` and `ranks.values` are the same array, sorted and spliced in place. The model keeps the tallied ranks and the sorted ranks as two values; only the sorted ones are read afterwards.
- Poker.SortByRank: `Array.prototype.sort` is modelled as a stable insertion sort by `RANKS.indexOf`. The tallied ranks are distinct, and distinct ranks of `RANKS` have distinct positions, so every sort with that comparator gives the same order on a hand of real ranks. Characters outside `RANKS` all sit at position -1, and their relative order is the stable one.
- WordWrap.WrapText: the two documented examples (task/11-katas-2-tasks.js:77-89) are stated on the fourteen words that `split(' ')` gives for the documented text (`WordWrap.DocumentedWords`), not on the text itself.
- WordWrap.WrapText: lengths are counted in UTF-16 code units, as JavaScript's `length` counts them (`WordWrap.Length`). A Dafny string holds Unicode scalar values, so a text holding a lone surrogate cannot be represented and is not modelled.
- Rectangles.FrameOnTilesExample, Rectangles.BoxOnBaseExample: the documented figures are written as their rows, each followed by '\n' (`Rectangles.Drawing`), as the source writes them, rather than as one string literal.
- Bottles.SongFirstAndLast: the first line is stated as the concatenation of the template's pieces with "99" in place of the count, not as one string literal.
- Rectangles.Processing: `processing` is given only the unit steps `rec` calls it with, one of `dr` and `dc` being +1 or -1 and the other 0.
- Rectangles.At: `figure[r][c]` is read as the c-th Unicode character, not the c-th UTF-16 code unit, as the next line explains.
- Rectangles.GetFigureRectangles: the figure's rows are indexed by Unicode character, where `figure[r][c]` reads UTF-16 code units. The model agrees with the source only when every character of the figure is below U+10000; a character above U+FFFF is one column in the model and two in the source.
- Non-string figures and inputs of other types are not modelled.
- Other katas of the repository and its browser page are not part of this model.
