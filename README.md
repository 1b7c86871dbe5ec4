# tts-cards deck expansion and sheet layout, in Dafny

This project models the computational core of `index.js`, the command-line
tool that turns a deck of card definitions into tabletop and print HTML
sheets. It covers five parts.

- **Card expansion** (module `Cards`): the `reduce` over the deck's card
  definitions. Each definition gets the type-flag map `is` with only its own
  type set true. Its description is run through the template substitution
  when a variables context is given and the description is non-empty. It is
  then pushed `count || 1` times onto the output list.
- **Page geometry** (module `Layout`): `rows = Math.ceil(cards / columns) + 1`,
  `pageHeight = rows * card_height`, `pageWidth = columns * card_width`. The
  extra row is a fixed constant of the code, whose own comment at
  index.js:119 gives no reason for it ("An extra row is needed for some
  reason").
- **Auxiliary sequences** (module `Sequences`): the page-ender indices, the 60
  point tokens and the index chains `loop1` .. `loop40`. Each is built by
  counted loops and proved equal to a closed form.
- **Deck identity** (module `Deck`): the deck name is `deck.split('.')[0]`,
  and the deck tags itself with its own name.
- **Render scope** (module `RenderScope`): `go` builds one scope, renders it
  with `print` false, sets `print` to true and renders it again.

Cards are immutable values (`Cards.Card`). The source mutates each definition
object in place and pushes that same object `count` times; in the model the
copies are equal values. The template substitution and the page template are
function-valued parameters (`subst`, `render`), because the templating
library is not part of this model. The keywords `is` and `print` are reserved
in Dafny, so the fields are called `typeFlags` and `printSheet`.

Some behaviour of the code is easy to misread; the model follows the code:

- A negative `count` is truthy, so `count || 1` keeps it, and the loop
  `for (i = 1; i <= count; i++)` pushes no copy. The model gives such a
  definition zero copies.
- `columns <= 0` is never checked by the code. `Layout.Rows` and
  `RenderScope.Go` therefore take `columns > 0` as a precondition; there is
  no error path.
- A description with a placeholder missing from the variables is not an error
  in the code. What the substitution returns is left to `subst`.
- The code mutates `scope.print` in place between the two renders. The model
  renders `scope` and then `scope.(printSheet := true)`.

## Model

| member | source | states |
|---|---|---|
| `Cards.CountBound` | index.js:97 | the loop bound (count, or 1 when absent): a present non-zero count is kept, an absent or zero count becomes 1, and the result is never 0 |
| `Cards.Copies` | index.js:97-111 | the number of pushes is 1 for an absent or zero count, the count when it is positive, and 0 for a negative count (exactly when the bound is negative) |
| `Cards.Normalize` | index.js:99-107 | the type-flag map has the card's type as its only key, mapped to true; the description is substituted exactly when variables are present and the description is truthy, and is otherwise unchanged; type, count and other fields pass through |
| `Cards.Replicate` | index.js:109-111 | n copies of one card: length n and every element equal to the card |
| `Cards.ExpandDeck` | index.js:96-113 | the reducer's nested loops produce exactly the left-to-right expansion `Expanded`, whose length is the sum of the copy counts |
| `Cards.ExpandedLength` | index.js:96-113 | the expanded list's length is the sum over definitions of their copy counts |
| `Cards.OffsetBounds` | index.js:109-113 | definition k's copies end where definition k+1's begin, and no block runs past the end of the list |
| `Cards.ExpandedAt` | index.js:96-113 | the copies of definition k are contiguous, at offsets Offset(k) .. Offset(k)+Copies(k)-1, in input order, and each is definition k normalised |
| `Cards.ExpandedOrigin` | index.js:96-113 | every position of the expanded list lies in the block of some definition k and holds definition k normalised |
| `Cards.TypeFlagsExact` | index.js:99-100 | every expanded card's type-flag map is exactly `{type: true}` |
| `Cards.ReplicasShareDescription` | index.js:102-111 | all copies of one definition are equal and carry the substituted description when variables are present and the description is truthy, the original one otherwise |
| `Cards.ExampleDeck` | index.js:96-113 | a "unit" card with count 2 and a "spell" card with count 1 under variables {name: "Rex"} expand to 3 cards with descriptions "Hello Rex", "Hello Rex", "Static" and type flags unit, unit, spell |
| `Layout.Ceil` | index.js:119 | Math.ceil: the least integer not below its argument |
| `Layout.Rows` | index.js:119 | rows is at least 1; rows - 1 rows of `columns` cards hold all n cards, and rows - 2 rows do not |
| `Layout.CeilOfQuotient` | index.js:119 | with r = Math.ceil(n / columns) on reals, r rows of `columns` cards hold n cards and r - 1 rows do not |
| `Layout.RowsUnique` | index.js:119 | those two inequalities determine the row count |
| `Layout.RowsIsCeilingPlusOne` | index.js:119 | rows equals the integer ceiling (n + columns - 1) / columns plus 1 |
| `Layout.EmptyDeckOneRow` | index.js:119 | an empty deck has one row |
| `Layout.RowsStep` | index.js:119 | adding `columns` cards adds exactly one row |
| `Layout.RowsMonotone` | index.js:119 | more cards never give fewer rows |
| `Layout.ExactFillHasExtraRow` | index.js:119 | m full rows' worth of cards still give m + 1 rows |
| `Layout.PageGeometry` | index.js:118-128 | the geometry's rows satisfy the ceiling inequalities, pageWidth is columns times the card width and pageHeight is rows times the card height |
| `Layout.DefaultExample` | index.js:118-124 | 3 cards, 10 columns, 2.5 by 3.5 cards: 2 rows, width 25, height 7 |
| `Layout.RowsExamples` | index.js:119 | 10 cards in 10 columns give 2 rows, 11 cards give 3 |
| `Sequences.PageEndersSpec` | index.js:134-141 | the page enders have 33 elements |
| `Sequences.PageEnderAtTriple` | index.js:136-139 | position 3m + t of the page enders is 9(m+1) - t: each triple descends from a multiple of 9 |
| `Sequences.PageEnders` | index.js:134-141 | the loop over i = 7 .. 100 appending (i, i-1, i-2) for each multiple of 9 builds exactly the closed form |
| `Sequences.PageEnderAtRange` | index.js:134-141 | every page ender lies in [7, 99] and is congruent to 0, 8 or 7 modulo 9 |
| `Sequences.PageEnderWitness` | index.js:134-141 | every value in [7, 99] congruent to 0, 8 or 7 modulo 9 is at some position of the page enders |
| `Sequences.PageEndersMembership` | index.js:134-141 | a value is a page ender if and only if it is in [7, 99] and congruent to 0, 8 or 7 modulo 9 |
| `Sequences.PageEndersShape` | index.js:134-141 | the page enders start 9, 8, 7, end 99, 98, 97, and each element is 9 below the one three places later |
| `Sequences.AppendRepeat` | index.js:144-154 | pushing one more v onto a run of n v's gives a run of n + 1 |
| `Sequences.RepeatMultiset` | index.js:144-154 | a run of n v's is, as a multiset, v with multiplicity n |
| `Sequences.PointTokens` | index.js:143-154 | the three loops build thirty 1s, then ten 3s, then twenty 5s |
| `Sequences.PointTokensLayout` | index.js:143-154 | the point tokens have length 60: 1 at positions 0-29, 3 at 30-39, 5 at 40-59 |
| `Sequences.PointTokensDenominations` | index.js:143-154 | as a multiset, the point tokens are thirty 1s, ten 3s and twenty 5s and nothing else |
| `Sequences.IotaStep` | index.js:162 | each chain is the previous chain with its own index appended |
| `Sequences.LoopChains` | index.js:159-163 | the chains are defined exactly for k = 1 .. 40, and chain k is [1, 2, .., k] |
| `Sequences.LoopChainExamples` | index.js:159-163 | loop5 is [1, 2, 3, 4, 5]; loop40 has length 40 and ends in 40 |
| `Deck.Split` | index.js:157 | split on one character yields at least one piece, and no piece contains the separator |
| `Deck.JoinSplit` | index.js:157 | joining the pieces of a split with the separator gives back the original string |
| `Deck.SplitHead` | index.js:157 | the first piece is a prefix of the string, followed by the separator when it is shorter than the string |
| `Deck.DeckName` | index.js:157 | the deck name has no '.', is a prefix of the deck string, is followed by '.' when shorter, and is the whole string when it has no '.' |
| `Deck.DeckIdentity` | index.js:157-158 | the deck's self-tag map has the deck name as its only key, mapped to true |
| `Deck.DeckNameAtFirstDot` | index.js:157 | when the first '.' is at position i, the deck name is the first i characters |
| `Deck.DeckNameExample` | index.js:157 | "monsters.js" is named "monsters" |
| `Deck.DeckNameFirstDotExample` | index.js:157 | only the first '.' counts: "core.v2.js" is named "core" |
| `RenderScope.Go` | index.js:117-172 | the scope holds the cards, the geometry, the deck identity, the config, the css and the three fixed sequences; the tabletop output renders it with print false and the print output renders the same scope with only print set to true |
| `RenderScope.Run` | index.js:94-172 | the scope's cards are the expansion of the deck, their number is the sum of the copy counts, and the rows are computed from that number |
| `RenderScope.ScopeDetermined` | index.js:117-172 | the scope is determined by the inputs, so two builds from the same inputs give the same scope and, through the same template, the same outputs |

## Left out

- Argument parsing, config-file merging, the `CONFIG` environment variable and `die` (index.js:10-89): command-line plumbing and process exit. `RenderScope.Settings` stands for the parsed arguments.
- `require(deckPath)`, reading the template and the css file, and writing the HTML files (index.js:87, 94, 166, 174-181): file I/O. The deck arrives as a parameter, and so does the stylesheet's text.
- Handlebars compilation and rendering (index.js:104-105, 120, 170-172): a foreign library. It is the parameters `subst` and `render`, about which nothing is assumed beyond their being total functions.
- Template failures: Handlebars throws on a malformed description or page template (an unclosed block, a missing helper) at index.js:104-105, 120 and 170, nothing catches it, and the run ends before any file is written. The model treats substitution and rendering as total, so it has no such failure path.
- A definition without a `type`: the source then sets `is["undefined"] = true` (index.js:100). In the model `Card.cardType` is a required string, so a missing type is not modelled.
- Spawning `prince` and `magick`, piping their output, and the one-second delay (index.js:185-214): subprocesses and timing.
- Console logging and colouring: side effects only.
- In-place mutation and aliasing of card objects: the source pushes the same object several times and rewrites its `is` and `description`. The model uses values, so a definition that appears twice in the deck array is not substituted twice as it would be in the source.
- Floating-point behaviour of `card_width`, `card_height` and the division in `Math.ceil`: modelled with Dafny `real`. `columns` is an integer; a fractional or string-valued column count or card count from the command line is not modelled.
- A `count` that is not an integer (a fraction, a string) is not modelled; `count` is an optional integer.
- The property names `'loop' + i`: the chains are keyed by the integer i.
