# Sorcery tabletop client: verified model of the game core

This project models the parts of a Sorcery: Contested Realm tabletop client
that hold real behaviour, and proves what they promise:

- **The realm grid** (`Board.py`): a fixed 5 x 4 matrix of locations, numbered 1..20 row by
  row. On top of it sits a derived matrix of intersections. An inner intersection touches a
  2 x 2 block. An edge intersection touches its south and east neighbours, where they exist,
  and then its own cell. The grid also has bounds-checked lookups and three spatial queries:
  - projectile rays in four directions;
  - orthogonal adjacency;
  - the 8-neighbourhood.

  Coordinate geometry lives in module `Grid`. The board object with its locations and
  intersections lives in module `Boards`.
- **A player's deck** (`Deck.py`, module `Decks`):
  - the constructor sorts cards into atlas, spellbook and library;
  - drawing takes the top (last) library card one pass at a time;
  - the other operations are mulligan, search, return-to-deck and shuffle.

  Shuffling is any reordering. The central property is that drawing, mulligan and shuffle
  never create or lose a card across library and hand; return-to-deck is the one operation
  that adds a card: it adds the returned card to the library and reshuffles it.
- **Card metadata comparison** (`Card.py`, module `Cards`). Text values are stripped, carriage
  returns are dropped and line feeds become spaces before dictionaries are compared. A card
  records the sets whose metadata differs from its canonical ("guardian") metadata, and
  reports whether it has a single version and a one-line summary.
- **Loader helpers** (`Util_Loader.py`, module `Loader`):
  - deck-id extraction from a Curiosa URL;
  - the order-preserving join of a Curiosa deck list to the card catalogue, by first match
    on folded names.
- **The deck URL catalogue** (`Curiosa_Decks.py`, module `CuriosaDecks`). The catalogue is six
  constant tables. The queries flatten and concatenate them, look up one avatar's decks, and
  list the avatar names sorted without repeats.
- **The rules engine's storyline** (`Rules_Engine.py`, module `RulesEngines`): triggered events
  are appended at the tail.
- **The debug message buffer** (`Util_Debug.py`, module `Debug`). It keeps at most ten
  messages, drops the oldest on overflow, and expires messages after two seconds.

Helper modules: `Wrappers` holds `Option`. `Seqs` holds order-preserving filtering, the model
of a Python list comprehension with an `if`, together with its lemmas, and the `Min` both the deck and the debug buffer use.

Where the code and its own comments disagree, the model follows the code:
- The docstring of `get_avatar_decks` gives `'avatar'` as an example name, but no table has
  that key, so the model returns an empty list for it.
- `Deck` reads `card.card_type`, which `Card` never defines. The deck therefore works on its
  own `DeckCard` record, which has an abstract card type.

## Model

Some specification functions carry no contract of their own. The lemmas about them state
their meaning and have rows below:
- `Decks.DrawOne` and `Decks.Drawn`: `DrawOneMoves`, `DrawnClosedForm`, `DrawnConserves`.
- `Grid.Ray` and `Grid.ProjectileLine`: `RayAt`, `RayLength`, `ProjectileLineShape`.
- `Grid.AdjacentCells` and `Grid.NearbyCells`: `AdjacentCellsSpec`, `NearbyCellsSpec`.
- `Cards.DictsEqual`: `DictsEqualTextIff`, `DictsEqualAgreement`.
- `Cards.Show`: `ShowIntRoundTrip`.
- `Loader.Split`: `SplitJoinsBack`, `SplitPiecesHaveNoSlash`.
- `CuriosaDecks.Flattened`: `FlattenedWithoutMaps`, `LookupWithinFlattened`.
- `CuriosaDecks.AvatarDecks`: `AvatarDecksEmptyIff`, `AvatarDecksWithinTables`.
- `Debug.StillShown`: `Unexpired`.

| member | source | states |
|---|---|---|
| Grid.IndexIsBijective | Board.py:37-47 | the number given to an in-bounds cell is in 1..20, and two cells share a number only if they are the same cell |
| Grid.IntersectionCells | Board.py:57-69 | every cell an intersection touches is on the board |
| Grid.IntersectionCellsSpec | Board.py:57-69 | an intersection touches one to four cells, always including its base cell, each at most one step south and east of it. An inner one lists exactly self, east, south, south-east. The bottom-right one lists only its base cell. On an edge the base cell comes last |
| Grid.IntersectionSize | Board.py:57-69 | the inner 2 x 2 order. On the bottom row: east, then base. In the last column: south, then base. In the corner: the base cell alone |
| Grid.SteppedFormula | Board.py:94-99 | k steps in a direction land at origin + k times the direction's offset, at Manhattan distance k |
| Grid.RayAt | Board.py:94-99 | entry m of a ray is its start moved m steps in the ray's direction |
| Grid.RayOnBoard | Board.py:95 | every cell of a ray is on the board |
| Grid.RayLength | Board.py:95-99 | a ray runs to the edge: its length is the number of steps from its start to the edge, plus one |
| Grid.ProjectileLineAt | Board.py:94-99 | entry m of a projectile line is the origin moved m + 1 steps |
| Grid.ProjectileLineOnBoard | Board.py:94-99 | every cell of a projectile line is on the board |
| Grid.ProjectileLineLength | Board.py:92-100 | from an in-bounds origin the lines are row, ROWS-1-row, col and COLS-1-col long (up, down, left, right) |
| Grid.ProjectileLineCell | Board.py:94-99 | entry m is origin + (m+1) times the offset, at distance m + 1 |
| Grid.ProjectileLineShape | Board.py:92-100 | for every entry: the offset formula, on the board, the distance. The origin never appears. The length is as above |
| Grid.ProjectileLines | Board.py:87-102 | four lines, every cell on the board |
| Grid.ProjectileLinesDirections | Board.py:89-100 | line k walks direction k of up, down, left, right, with the offsets (-1,0), (1,0), (0,-1), (0,1) |
| Grid.Neighbours | Board.py:109-113 | a neighbour query keeps at most one cell per offset. A cell is kept exactly when it is on the board and its offset from the origin is listed |
| Grid.NeighboursInOrder | Board.py:106-130 | the neighbour queries are the shifted cells, in offset order, filtered to the board |
| Grid.OrthogonalOffsets | Board.py:106 | the four listed offsets are exactly the offsets of Manhattan length 1 |
| Grid.SurroundingOffsets | Board.py:119-123 | the eight listed offsets are exactly the non-zero offsets with each coordinate within 1 |
| Grid.AdjacentCellsSpec | Board.py:104-115 | at most four cells. A cell is adjacent exactly when it is on the board and one orthogonal step away |
| Grid.AdjacentSymmetric | Board.py:104-115 | for two cells on the board, b is adjacent to a exactly when a is adjacent to b |
| Grid.NearbyCellsSpec | Board.py:117-132 | at most eight cells. A cell is nearby exactly when it is on the board, is not the origin, and is within one step in each coordinate |
| Grid.AdjacentAreNearby | Board.py:104-132 | every adjacent cell is nearby |
| Grid.AdjacentCellsAll | Board.py:104-115 | every listed adjacent cell is on the board and one orthogonal step away; at most four |
| Grid.NearbyCellsAll | Board.py:117-132 | every listed nearby cell is on the board, not the origin, and within one step; at most eight |
| Boards.Location.constructor | Board.py:16-23 | a new location has no site, empty spell lists, is dry land, has body index -1 and index -1 |
| Boards.Intersection.constructor | Board.py:26-29 | a new intersection has no spells and borders the given locations |
| Boards.NewIntersection | Board.py:55-71 | the new intersection borders exactly the locations at the cells the edge rule lists, in that order |
| Boards.NewIntersectionRow | Board.py:53-72 | row i gets four intersections, each bordering the cells of its position |
| Boards.NewLocationRow | Board.py:41-47 | four fresh blank locations, numbered on from the running counter, which advances by four |
| Boards.Board.constructor | Board.py:37-48 | the board is 5 x 4 and every location is fresh and blank. The location at (i, j) carries number i*4 + j + 1. Every intersection borders exactly its cells' locations |
| Boards.Board.CreateIntersections | Board.py:50-73 | five rows, each row's intersections bordering the locations of their cells |
| Boards.Board.GetLocation | Board.py:75-79 | returns a location exactly when (row, col) is on the board, and then it is the board's location carrying that cell's number |
| Boards.Board.GetIntersection | Board.py:81-85 | returns an intersection exactly when (row, col) is on the board, and then it borders that cell's locations |
| Boards.Board.Place | Board.py:96-97 | each result pairs its cell with the location stored there |
| Boards.Board.GetProjectileLocations | Board.py:87-102 | four lines. Line k is the projectile line in direction k, each cell with its location |
| Boards.Board.GetAdjacentLocations | Board.py:104-115 | they are the board locations at exactly the in-bounds orthogonal neighbours, in up/down/left/right order: at most four, each one orthogonal step from (row, col) |
| Boards.Board.GetNearbyLocations | Board.py:117-132 | they are the board locations at exactly the in-bounds cells around (row, col), in reading order: at most eight, none of them (row, col), each within one step of it |
| Boards.DistinctLocations | Board.py:37-47 | distinct cells of a constructed board hold distinct locations |
| Decks.TakeTopStep | Deck.py:26-28 | taking the top card and then k - 1 more is taking the top k |
| Decks.DrawnClosedForm | Deck.py:25-28 | drawing n leaves the bottom of the library and appends the top k = min(n, size) cards to the hand, top card first |
| Decks.DrawnConserves | Deck.py:25-28 | library and hand together keep their multiset, and the hand grows by exactly the number of cards drawn |
| Decks.DrawOneMoves | Deck.py:27-28 | one pass moves the top (last) library card, if any, to the end of the hand and otherwise changes nothing; no card is created or lost |
| Decks.ReversedAt | Deck.py:26-28 | the cards drawn reach the hand in reverse library order: position k of the reversal is position size - 1 - k of the original |
| Decks.DrawnFromEmpty | Deck.py:27-28 | drawing from an empty library changes nothing |
| Decks.DrawnAll | Deck.py:25-28 | drawing at least the library's size empties it into the hand, in reverse order |
| Decks.SpellIsNonSite | Deck.py:19-22 | no spell type is "Site" |
| Decks.SpellbookWithinLibrary | Deck.py:19-22 | every spellbook card is also in the library, as often |
| Decks.AtlasAndLibraryPartition | Deck.py:18-22 | atlas and library between them hold every card exactly once |
| Decks.Shuffled | Deck.py:23 | the result is a permutation of the input |
| Decks.Deck.constructor | Deck.py:17-23 | the atlas holds the sites and the spellbook the Magic/Aura/Artifact cards, both in input order. The library is a permutation of the non-sites. Hand and cemetery are empty |
| Decks.Deck.Draw | Deck.py:25-28 | n defaults to one; library and hand end as n passes of the draw loop leave the old zones, and the other zones are unchanged |
| Decks.Deck.Mulligan | Deck.py:30-35 | the hand ends with min(7, old library + old hand) cards. Library and hand keep their multiset. Atlas, spellbook and cemetery are unchanged |
| Decks.Deck.Search | Deck.py:37-39 | exactly the library cards satisfying the condition, in library order, each as often as in the library |
| Decks.Deck.ReturnToDeck | Deck.py:41-43 | the library's multiset gains exactly one copy of the card; the other zones are unchanged |
| Decks.Deck.Shuffle | Deck.py:45-46 | the library's multiset is unchanged, and so is every other zone |
| Cards.StripLeft | Card.py:74 | drops exactly the leading whitespace |
| Cards.StripRight | Card.py:74 | drops exactly the trailing whitespace |
| Cards.Strip | Card.py:74 | the result neither starts nor ends with whitespace |
| Cards.StripIsSlice | Card.py:74 | the stripped text is the slice of the text that starts after its leading whitespace |
| Cards.StripRemovesOnlySpace | Card.py:74 | everything stripping removes, before and after that slice, is whitespace |
| Cards.RemoveChar | Card.py:74 | the character is gone. Text without it is unchanged, and ends that are not it stay in place |
| Cards.RemoveCharIsFilter | Card.py:74 | the result is the text with every occurrence of the character dropped and the rest kept in order |
| Cards.ReplaceChar | Card.py:74 | same length; each occurrence is replaced and every other character is kept |
| Cards.UnbreakRemovesBreaks | Card.py:74 | after dropping carriage returns and turning line feeds into spaces, no line break is left |
| Cards.UnbreakKeepsEnds | Card.py:74 | that step keeps non-whitespace ends non-whitespace |
| Cards.NormalizeText | Card.py:74 | a normalised text has no line break and no surrounding whitespace |
| Cards.NormalizeTextIdempotent | Card.py:74 | normalising twice is normalising once |
| Cards.NormalizeTextFixedPoint | Card.py:74 | text with no line breaks and no surrounding whitespace normalises to itself, so normalising loses no content |
| Cards.NormalizeValue | Card.py:74-75 | a text value stays text and loses its line breaks; any other value is unchanged |
| Cards.NormalizeValueIdempotent | Card.py:74-75 | normalising a value twice is normalising it once |
| Cards.NormalizeDict | Card.py:70-77 | a missing or empty dictionary becomes {}. Otherwise the keys are the same, non-text values are unchanged, and each text value is replaced by its normalised text |
| Cards.DictsEqualIsEquivalence | Card.py:67-78 | the comparison is reflexive, symmetric and transitive, and None equals {} |
| Cards.DictsEqualNormalized | Card.py:67-78 | a dictionary compares equal to its own normalised form |
| Cards.DictsEqualIgnoresLineBreaks | Card.py:67-78 | text values with the same normal form compare equal |
| Cards.DictsEqualTextIff | Card.py:67-78 | one-key dictionaries holding texts compare equal exactly when the texts have the same normal form |
| Cards.DictsEqualKeepsContent | Card.py:67-78 | two different texts already in normal form make the dictionaries compare unequal |
| Cards.DictsEqualAgreement | Card.py:67-78 | dictionaries that compare equal are both empty or both not; when not, they have the same keys, agree on which values are text, and hold the same non-text values |
| Cards.DifferingSetNamesSpec | Card.py:58-65 | a set's name is recorded exactly when that set's metadata differs |
| Cards.DifferingSetNamesInOrder | Card.py:58-65 | the recorded names are the names of the differing sets, in set order |
| Cards.NoDifferencesIff | Card.py:58-65 | nothing is recorded exactly when every set agrees |
| Cards.CheckMetadataDifferences | Card.py:58-65 | the loop yields the differing set names, in set order |
| Cards.Join | Card.py:84 | no parts join to "", one part joins to itself, and the result starts with the first part |
| Cards.JoinSnoc | Card.py:84 | joining one more part appends the separator and that part, so every part appears in order between separators |
| Cards.NatToStringDenotes | Card.py:85 | the decimal form of a natural number is a non-empty digit string that denotes it |
| Cards.ShowIntRoundTrip | Card.py:85 | an integer printed into the summary reads back as the same integer |
| Cards.Card.constructor | Card.py:19-56 | name, elements, subtypes, image URL and the guardian fields are copied. Every runtime flag is off, movement is "adjacent", range is 1, and there are no artifacts. The set differences are recorded |
| Cards.Card.HasSingleVersion | Card.py:80-81 | holds exactly when every set's metadata equals the guardian's |
| Cards.Card.Summary | Card.py:83-85 | "name [type] - " followed by "Single", or by "Variants in: " and the differing names joined with ", " |
| Loader.RStripSlashes | Util_Loader.py:44 | a prefix without a trailing '/'. Only slashes were removed |
| Loader.AfterLastSlash | Util_Loader.py:44 | a suffix with no '/', preceded by a '/' unless it is the whole text |
| Loader.AfterLastSlashIsLastPiece | Util_Loader.py:44 | the text after the last '/' is the last piece of the split on '/' |
| Loader.SplitJoinsBack | Util_Loader.py:44 | the pieces of the split on '/' join back with '/' to the original text |
| Loader.SplitPiecesHaveNoSlash | Util_Loader.py:44 | no piece of the split on '/' holds a '/' |
| Loader.ExtractDeckId | Util_Loader.py:42-45 | the id never contains '/'. Text without '/' is returned unchanged. Otherwise the id is the text after the last '/' of the slash-trimmed URL |
| Loader.ExtractDeckIdIsLastSegment | Util_Loader.py:44 | for a URL, the id is the last piece of the trimmed URL split on '/' |
| Loader.ExtractDeckIdIdempotent | Util_Loader.py:42-45 | extracting from an id gives the id |
| Loader.FirstMatch | Util_Loader.py:77-78 | the first catalogue position whose folded name equals the key, or none when no name does |
| Loader.Entry | Util_Loader.py:77-85 | a line yields an entry exactly when it has a match. The name, quantity and image URL are copied from the line, and the details are the first match |
| Loader.MatchAll | Util_Loader.py:74-88 | never more entries than deck-list lines |
| Loader.MatchCuriosaToSorcery | Util_Loader.py:74-88 | the loop computes the join |
| Loader.MatchAllAppend | Util_Loader.py:76-87 | joining a list in two parts is joining each part |
| Loader.MatchAllKeepsMatchedInOrder | Util_Loader.py:74-88 | the join is aligned with the matched lines, in deck-list order, each yielding its own entry |
| Loader.MatchAllMembership | Util_Loader.py:74-88 | every matched line's entry is in the result, and every entry comes from a matched line |
| CuriosaDecks.Values | Curiosa_Decks.py:70-75 | a table's values in insertion order |
| CuriosaDecks.Lookup | Curiosa_Decks.py:147-148 | a value exactly when the key is present, and it is the value stored with that key |
| CuriosaDecks.FirstLookupWins | Curiosa_Decks.py:147-148 | adding an entry changes no existing lookup, and adds the new key |
| CuriosaDecks.LookupDistinct | Curiosa_Decks.py:10-67 | in a table without repeated keys every entry is what its key looks up, as in a Python dictionary |
| CuriosaDecks.TablesHaveDistinctKeys | Curiosa_Decks.py:10-67 | none of the six constant tables repeats a key |
| CuriosaDecks.Spread | Curiosa_Decks.py:81-84 | a map contributes its keys one by one; any other value contributes itself, whole |
| CuriosaDecks.FlattenedWithoutMaps | Curiosa_Decks.py:78-115 | a table without map values flattens to its values, one element per entry |
| CuriosaDecks.LookupWithinFlattened | Curiosa_Decks.py:144-178 | what a key's value spreads to is part of the flattened table |
| CuriosaDecks.Flatten | Curiosa_Decks.py:78-85 | the flattening loop computes the flattened table |
| CuriosaDecks.AllPreconAlpha | Curiosa_Decks.py:70-71 | the four alpha precon values, in table order |
| CuriosaDecks.AllPreconBeta | Curiosa_Decks.py:74-75 | the four beta precon values, in table order |
| CuriosaDecks.AllSingleElement | Curiosa_Decks.py:78-85 | the nine single-element values, in order |
| CuriosaDecks.AllDoubleElement | Curiosa_Decks.py:88-95 | the ten double-element values, in order |
| CuriosaDecks.AllTripleElement | Curiosa_Decks.py:98-105 | the four triple-element values, in order |
| CuriosaDecks.AllQuadrupleElement | Curiosa_Decks.py:108-115 | the two quadruple-element values, in order |
| CuriosaDecks.AllDecks | Curiosa_Decks.py:118-127 | 33 entries: alpha, beta, single, double, triple, quadruple, in that order |
| CuriosaDecks.Contribution | Curiosa_Decks.py:147-152 | nothing for an absent name, else the name's value spread out |
| CuriosaDecks.AddFrom | Curiosa_Decks.py:147-152 | the list is extended by exactly that contribution |
| CuriosaDecks.GetAvatarDecks | Curiosa_Decks.py:130-178 | the contributions of the single, double, triple and quadruple tables, in that order |
| CuriosaDecks.ContributionEmptyIff | Curiosa_Decks.py:147-152 | a table without maps contributes nothing exactly when the name is absent |
| CuriosaDecks.ElementTablesHaveNoMaps | Curiosa_Decks.py:25-67 | no element table holds a map value |
| CuriosaDecks.AvatarDecksEmptyIff | Curiosa_Decks.py:144-178 | an avatar's list is empty exactly when no element table has it as a key |
| CuriosaDecks.AvatarDecksWithinTables | Curiosa_Decks.py:144-178 | every deck of an avatar is among some element table's flattened entries |
| CuriosaDecks.LessIrreflexive | Curiosa_Decks.py:197 | string order: no string precedes itself |
| CuriosaDecks.LessTransitive | Curiosa_Decks.py:197 | string order is transitive |
| CuriosaDecks.LessTotal | Curiosa_Decks.py:197 | of two different strings, one precedes the other |
| CuriosaDecks.Insert | Curiosa_Decks.py:192-197 | inserting into a strictly sorted list keeps it strictly sorted, adding exactly the new name |
| CuriosaDecks.SortedDistinct | Curiosa_Decks.py:192-197 | strictly sorted, with exactly the input's strings |
| CuriosaDecks.StrictlySortedDistinct | Curiosa_Decks.py:197 | a strictly sorted list has no repeats |
| CuriosaDecks.Keys | Curiosa_Decks.py:193-196 | exactly the table's keys |
| CuriosaDecks.AvailableAvatars | Curiosa_Decks.py:181-197 | strictly sorted, no repeats, exactly the keys of the four element tables; precon keys are not consulted |
| CuriosaDecks.AvailableIffHasDecks | Curiosa_Decks.py:144-197 | a name is offered exactly when it has decks |
| RulesEngines.RulesEngine.constructor | Rules_Engine.py:13-15 | no abilities and an empty storyline |
| RulesEngines.RulesEngine.InsertTriggeredEvent | Rules_Engine.py:25-26 | the event is appended at the tail. Earlier events stay in place, and a repeated event is stored twice. The ability table is unchanged |
| Debug.Added | Util_Debug.py:21-29 | the new message is last. The buffer holds min(old + 1, 10) messages, the most recent ones |
| Debug.AddedDropsOnlyOldest | Util_Debug.py:27-29 | below the cap nothing is dropped; at the cap exactly the oldest message is dropped |
| Debug.Unexpired | Util_Debug.py:44-46 | keeps exactly the messages younger than two seconds, in order |
| Debug.UnexpiredLater | Util_Debug.py:44-46 | expiring at an earlier time and then at a later one is expiring at the later one |
| Debug.UnexpiredIdempotent | Util_Debug.py:44-46 | expiring twice at the same time is expiring once |
| Debug.DebugDisplay.constructor | Util_Debug.py:12-14 | starts with no messages |
| Debug.DebugDisplay.AddMessage | Util_Debug.py:21-29 | the buffer becomes the old one with the message added, and stays within ten |
| Debug.DebugDisplay.ClearMessages | Util_Debug.py:31-33 | no messages remain |
| Debug.DebugDisplay.Update | Util_Debug.py:35-46 | the buffer becomes the unexpired part of the old buffer |

## Left out

- Every `GUI_*` file, `Main.py` and `GUI_Manager.py`: pygame rendering, event handling and animation.
- `Util_Effects.py` and `Util_Effect_Factory.py`: floating-point animation and print-only stubs.
- `Game_Manager.py`, `Player.py` and `Util_Config.py`: print-only phases, a constructor-only record and constants.
- The HTTP and file loaders of `Util_Loader.py` (`get_curiosa_deck`, `fetch_all_cards_metadata`, `get_deck_json_from_curiosa`, `load_board`, `load_decks`): network and disk I/O.
- Loader.MatchCuriosaToSorcery: the message printed for an unmatched card is not modelled. The stripping and lower-casing of names is a caller-supplied `fold` function, because Unicode case mapping is not modelled. A catalogue record is never treated as falsy.
- The rules engine's `parse_keywords`, `resolve_ability`, `enforce_timing`, `move` and `fight` have empty bodies. Abilities and events are type parameters.
- `Util_Debug.py`'s `draw` and its FPS sampling: rendering and a pygame clock. Message times are a `now` argument supplied by the caller, not the wall clock.
- Python's random number generator: every shuffle is some permutation, chosen nondeterministically.
- Cards.Show: list and dictionary values print as placeholders rather than Python's `repr`. A card type is normally a string, and strings print exactly.
- Cards.DictsEqual: values are compared as the catalogue's JSON values. Python's `1 == True` and `1 == 1.0` are not modelled, and floating-point values are not modelled at all.
- Decks.DeckCard: a card's type is an abstract field, because the deck reads an attribute that the card class never sets.
- Grid.AdjacentSymmetric: both cells must be on the board, because an off-board origin can list on-board neighbours.
- Boards.Board.GetProjectileLocations: the Python tuples `(row, col, location)` are `Placed` records. The direction list is a `Direction` datatype, whose offsets are the source's `(-1, 0), (1, 0), (0, -1), (0, 1)`.
- Boards.Board.constructor: it does not promise that the intersections start with no spells. Each intersection's constructor does.
- Boards.Location: the source annotates the spell lists as optional cards, but they are lists, and are modelled as sequences of cards.
- CuriosaDecks.DeckEntry: no constant table holds a dictionary value, so the flatteners' dictionary branch is modelled on a `UrlMap` case that the tables never use. A set literal in a table is kept whole, as the code appends it.
- Cards.Card.constructor: the catalogue record has mandatory `guardian` and `sets` fields and every set has a name, so the exceptions the source raises for a missing or null `guardian` or `sets`, or a set without `"name"` (Card.py:23-24, 56, 61-64), are not modelled. The record's own name is mandatory too: a record without `"name"`, which Card.py:20 reads as None and the summary would show as "None", is not modelled.
- Loader.MatchCuriosaToSorcery: a deck-list record always has a name, a quantity and an image source, so the `KeyError` the source raises for a record missing one of them (Util_Loader.py:77-84) is not modelled.
- Debug.DebugDisplay.Update: message times are exact real numbers, so floating-point rounding of wall-clock timestamps at the two-second boundary (Util_Debug.py:25, 46) is not modelled.
