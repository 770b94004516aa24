# EcoWorld in Dafny

A verified model of the rules at the core of EcoWorld. EcoWorld is a Django web application in which
students earn coins for sustainable actions and spend them on cards for a virtual garden. It also
has a leaderboard, guides with quizzes, a forum feed and a small snake game.

The model covers these parts:

- **The coin wallet.** A profile holds a coin balance, card quantities and an earned-coins ledger. A
  pre-save hook appends every rise of the balance to the ledger (`Wallet`).
- **The views that move coins or cards.** These are buying and opening packs, the store, completing
  a challenge, the water-fountain scan, glass disposal and the guide reward (`Shop`, `Drinks`,
  `Disposal`, `Guides`).
- **The leaderboard.** Users other than "admin" are ranked by their ledger totals (`Leaderboard`,
  over a stable sort in `Sorting`).
- **The garden grid.** Cards are placed on and removed from squares, and the available cards are
  computed (`Garden`).
- **Account set-up and the profile page** (`Accounts`).
- **Catalogue seeding** (`Seeding`).
- **Challenges and daily objectives.** Objectives reset on a schedule and challenges are drawn
  (`Challenges`).
- **The forum.** This is the feed filter and the post and interaction tables (`Feed`, `Posts`).
- **The client-side state machines.** These are the quiz page, the guide paragraph reader, the snake
  game and the challenge page's cookie parsing and progress text (`Quiz`, `Paragraphs`, `Snake`,
  `ChallengePage`).

How the model is built:

- Database tables a view changes in place are fields of classes. Each such class has a `View()`
  snapshot, so a contract can say what changes and that nothing else does.
- Queries and comprehensions are functions.
- Loops in the source are `while` or `for` loops, with invariants tying them to those functions.
- Server settings (`GARDEN_SIZE`, `DRINKING_COOLDOWN`, `VALUE_OF_DRINK`, the reset intervals,
  `NUM_CHALLENGES`, the reward per bottle) are parameters. So are the clock and the outcome of
  every random choice.

Where the code and its documentation or tests disagree, the model follows the code:

- `completeChallenge` has no guard against a repeat, so a second completion pays again.
- `addCard` never lowers the stored quantity. The decrement at Garden/views.py:98 is made on an
  object that is not saved.
- `pack_opening_page` credits a card without charging.
- `store` saves the debit before it looks up the drawn card's ownership row. With no such row, the
  coins are gone and the request fails.
- `profile` with no posted bio saves `None` into a non-null column. The model returns an error and
  changes nothing.
- `registerScore_view` saves the result and the reward and then divides by `quiz_max_marks`. A guide
  without questions therefore answers with a server error after the saves.
- The snake grows by two segments when it eats. `moveSnake` keeps the tail, and then
  `handleTrashCollection` pushes a copy of the last segment.
- A column one past the edge of the garden addresses the first square of the next row. Row and column
  are never bounds-checked.

## Model

| member | source | states |
|---|---|---|
| Wallet.CoinAddition | Accounts/signals.py:50-60 | a save adds at most one ledger row. It adds one exactly when the profile already exists and the balance rose. The row is positive and equals the rise |
| Wallet.Account.constructor | Accounts/signals.py:38-43 | a new user's profile copies the user's first and last name and has the field defaults. The first save has no primary key, so the ledger starts empty |
| Wallet.Account.SaveProfile | Accounts/signals.py:56-60 | `profile.save()` stores the new balance and appends exactly the hook's ledger rows. Every ledger entry stays positive, and the ledger total stays at or above the balance |
| Wallet.Account.SaveUser | Accounts/signals.py:44-48 | `user.save()` copies the user's names onto the profile and then saves the profile with the cached balance |
| Wallet.SavedKeepsLedgerSound | Accounts/signals.py:58-60 | a save preserves the ledger invariant (every entry positive, total at or above the balance) |
| Wallet.SavedRecords | Accounts/signals.py:56-60 | saving a raised balance records exactly the raise. Saving a lowered or equal balance records nothing |
| Wallet.LedgerRecordsIncreases | Accounts/signals.py:56-76 | after any series of saves, the ledger total has grown by the sum of the rises only. Decreases never offset earlier rises |
| Wallet.AddThenSpendScenario | leaderboards/tests.py:23-39 | +100 then back to 0 leaves a ledger total of 100 and a balance of 0 |
| Accounts.PfpUrl | Accounts/views.py:124 | the URL is empty iff the picture is empty. Otherwise it is "/media/pfps/" followed by the picture |
| Accounts.GetUserInfo | Accounts/views.py:122-127 | the `user_info` answer carries the username, the balance and the picture URL, which is empty exactly when there is no picture |
| Accounts.ProfilePost | Accounts/views.py:83-95 | a POST overwrites the bio. It changes the picture only when a non-empty one is posted, and changes nothing else (no ledger row). A missing bio fails with nothing changed |
| Accounts.CreateOwns | Accounts/utils.py:35-39 | one ownership row per catalogue card, at quantity 0. Every other field and row is unchanged |
| Accounts.InitialInventory | Accounts/utils.py:37-39 | a new user's inventory has exactly the catalogue cards as keys, each at 0 |
| Accounts.Signup | Accounts/views.py:50-61 | a valid form creates the profile, an empty garden of the configured size and the zero-quantity inventory. An invalid form creates nothing |
| Accounts.ProfileAvailable | Accounts/views.py:102-103 | the profile page lists exactly the inventory cards that no square shows, whatever their quantity |
| Garden.SquareIndexInGrid | Garden/views.py:60 | for 1 ≤ row, col ≤ size, `(row-1)*size+(col-1)` is a square of the grid, and row and col are recovered from it |
| Garden.SquareIndexOnto | Garden/views.py:94 | every square id below size² is addressed by exactly one in-grid (row, col) |
| Garden.ColumnOverflowWraps | Garden/views.py:94 | column size+1 of row 1 addresses the same square as column 1 of row 2 |
| Garden.Reshape | Garden/views.py:35 | the row-major grid has `size` rows of `size` squares |
| Garden.CellIsAddressedSquare | Garden/views.py:33-35 | grid cell (row-1, col-1) is the square a request for (row, col) addresses |
| Garden.FlattenReshape | Garden/views.py:35 | reading the grid row by row gives back the squares in the order the query returned them |
| Garden.PlacedNotAvailable | Garden/views.py:73 | a card just placed is not available. No card becomes available except the one it replaced |
| Garden.RemovedAvailableAgain | Garden/views.py:73 | clearing the only square that shows a held card makes it available again |
| Garden.QuantityFilterNarrows | Garden/views.py:73 | the quantity > 0 condition of `getAvailableCards` only narrows the unfiltered list of `show_garden` (line 39), exactly by the cards held at quantity 0 |
| Garden.GardenGrid.constructor | Accounts/utils.py:27-31 | `createGarden` gives a garden of the configured size with size² squares, all empty |
| Garden.GardenGrid.RemoveCard | Garden/views.py:55-65 | a POST empties exactly the addressed square. Every request reports success. An unaddressable square is a server error with nothing changed |
| Garden.GardenGrid.AddCard | Garden/views.py:87-101 | a POST puts the card on the addressed square whatever it held, and changes nothing else. An unknown card, square or ownership row is a server error with nothing changed |
| Garden.GardenGrid.Available | Garden/views.py:66-76 | a card is listed iff the user holds at least one and no square of the garden shows it |
| Garden.GardenGrid.Grid | Garden/views.py:33-35 | `show_garden` gives `size` rows of `size` squares, which read row by row give every square of the garden in id order |
| Leaderboard.CoinMapMembers | leaderboards/views.py:69-73 | `coin_map` holds exactly one item per non-admin user, scored by that user's ledger total. Its names are unique when usernames are |
| Leaderboard.RankingCorrect | leaderboards/views.py:75-76 | the ranking is by non-increasing score. It is a permutation of `coin_map`, holds exactly the non-admin users once each, and keeps users with equal scores in their listed order |
| Leaderboard.Lookup | leaderboards/views.py:92 | `coin_map[name]` is absent iff no item has the name, and otherwise is the score of an item with that name |
| Leaderboard.CurrentUserInRanking | leaderboards/views.py:90-93 | a non-admin requester is in the ranking, and `coin_map` gives them their ledger total |
| Leaderboard.RankedNamesUnique | leaderboards/views.py:79-85 | no username appears twice in `rankedUsers` |
| Leaderboard.RankedHasUser | leaderboards/views.py:79-89 | every non-admin user has an entry in `rankedUsers` |
| Leaderboard.GetRankedUsers | leaderboards/views.py:65-96 | the response is the ranking with picture URLs. The requester's rank is 1 + their only index in it, and their score is their ledger total. An "admin" requester is excluded by the precondition |
| Leaderboard.SumEarned | leaderboards/views.py:69-73 | the first loop builds exactly `coin_map` |
| Leaderboard.PresentAll | leaderboards/views.py:79-85 | the second loop gives one entry per sorted item, in order |
| Leaderboard.FindRank | leaderboards/views.py:86-89 | the third loop stops at the first entry with the requester's name and reports its 1-based position |
| Leaderboard.RankOf | leaderboards/views.py:86-89 | with unique names, the rank found is the requester's only position |
| Leaderboard.ScoreOf | leaderboards/views.py:92 | the reported score is the requester's ledger total |
| Leaderboard.Tooltip | leaderboards/views.py:118-121 | the tooltip grid has `size` rows of `size` squares, which read row by row give back the first size² squares in order |
| Sorting.SortDescCorrect | leaderboards/views.py:76 | `sorted(..., reverse=True)` by key gives non-increasing keys and a permutation of the input, and keeps elements with equal keys in input order |
| Sorting.TopOfSorted | EcoWorld/utils.py:32 | the first n of the sort come from the input in key order, and none ranks below an element left out |
| Seeding.Find | EcoWorld/utils.py:124-125 | the lookup by title finds a row with that title and none earlier, or reports that no row has it |
| Seeding.FindUnique | EcoWorld/utils.py:124-125 | while titles are unique, as seeding keeps them, the row found is the only row with that title, which is the one `get_or_create` returns |
| Seeding.UpsertFacts | EcoWorld/utils.py:123-131 | one `get_or_create` / `update_or_create` adds the title and no other and keeps titles unique. It appends when the title is new, leaves the rows alone when not replacing, and otherwise overwrites only the row with that title |
| Seeding.UpsertAllCovers | EcoWorld/utils.py:123-131 | seeding keeps titles unique, and afterwards a title has a row iff it had one or was seeded |
| Seeding.GetOrCreateKeepsRows | EcoWorld/utils.py:123-131 | `get_or_create` seeding never changes or removes an existing row |
| Seeding.GetOrCreatePresent | EcoWorld/utils.py:123-131 | seeding titles that all have rows changes nothing |
| Seeding.GetOrCreateIdempotent | EcoWorld/utils.py:93-131 | running `createItemsInDb`'s seeding twice is the same as running it once |
| Seeding.UpsertKeepsRow | EcoWorld/utils.py:170-177 | `update_or_create` for one title leaves the row of any other title as it was |
| Seeding.UpdateOrCreateSets | EcoWorld/utils.py:170-177 | after `update_or_create` seeding with distinct titles, each seeded title's row is exactly the seeded row |
| Seeding.UpdateOrCreateStable | EcoWorld/utils.py:170-177 | overwriting rows that already hold the seeded values changes nothing |
| Seeding.UpdateOrCreateIdempotent | EcoWorld/utils.py:133-177 | running `createPacksInDb`'s seeding twice is the same as running it once |
| Seeding.Catalog.CreateItems | EcoWorld/utils.py:93-131 | seeds the five rarities and the seventeen cards by title and leaves the packs alone |
| Seeding.Catalog.SeedRarities | EcoWorld/utils.py:94-98 | the rarity rows after the five `get_or_create` calls |
| Seeding.Catalog.SeedCards | EcoWorld/utils.py:123-131 | the loop over the card data is one `get_or_create` per entry, in order |
| Seeding.Catalog.CreatePacks | EcoWorld/utils.py:133-177 | `update_or_create` of the three packs by title, storing cost and image only |
| Seeding.Catalog.SeedPacks | EcoWorld/utils.py:170-177 | the loop over the pack data is one `update_or_create` per entry, in order |
| Seeding.SeededPackCosts | EcoWorld/utils.py:134-177 | afterwards the Basic, Rare and Icon packs cost 20, 45 and 100 with their images, whatever was stored before |
| Challenges.EarliestCorrect | EcoWorld/utils.py:26-32 | `order_by("created_on")[:2]` gives min(2, count) of the user's challenges, earliest first. None is created later than a challenge it leaves out |
| Challenges.UsersChallenges | EcoWorld/utils.py:13-34 | the same two rows, each marked completed iff it was submitted today |
| Challenges.Annotate | EcoWorld/utils.py:26-31 | the `is_completed` annotation is true iff `submitted_on` is set and falls on today |
| Challenges.ChallengeBoard.DailyObjectives | EcoWorld/utils.py:39-60 | when a reset is due, the user's objectives are replaced by the three fresh ones. Otherwise nothing changes. The user's objectives are returned |
| Challenges.FreshNotDue | EcoWorld/utils.py:44-58 | objectives just reset are not due again at the same instant |
| Challenges.ResetScopedToUser | EcoWorld/utils.py:50-58 | after a reset, the user has exactly the objectives (10, 5, 1) and no other user's objectives change |
| Challenges.ChallengeBoard.CreateChallenges | EcoWorld/utils.py:63-90 | `createChallenges` drops the user's expired challenges and keeps every other row in order. It draws only if the user then has none, and then adds min(num, catalogue size) distinct fresh rows |
| Challenges.ChallengeBoard.Draw | EcoWorld/utils.py:80-88 | the drawing loop appends min(num, catalogue size) unsubmitted rows for the user, stamped now, from the catalogue, with no challenge twice |
| Challenges.DrawStep | EcoWorld/utils.py:83-85 | choosing from the pool and removing the choice keeps the pool duplicate-free and disjoint from what was drawn |
| Challenges.ChallengeBoard.Create | EcoWorld/utils.py:86-88 | a created row is appended under the next primary key |
| Challenges.FindById | EcoWorld/views.py:172 | `get(id=...)` finds a row with that key, or none exists |
| Challenges.MarkSubmitted | EcoWorld/views.py:174-178 | only the row with the key changes, and only its `submitted_on` (set to today) |
| Challenges.MarkSubmittedKeepsKeys | EcoWorld/views.py:172-178 | stamping a submission keeps primary keys unique |
| Challenges.FindAfterMark | EcoWorld/views.py:172-178 | after stamping, the lookup finds the same row, now submitted today |
| Challenges.SubmittedShowsCompleted | EcoWorld/utils.py:27-31 | once submitted today, the challenge page shows the row as completed whenever it shows it |
| Challenges.ChallengeBoard.Submit | EcoWorld/views.py:174-178 | the row's submission stamp is saved and nothing else changes |
| Shop.Debit | EcoWorld/views.py:123-127 | a cost is refused iff it exceeds the balance, so cost == balance is accepted. Paying lowers the balance by the cost, keeps a non-negative balance non-negative, and adds no ledger row |
| Shop.Credit | EcoWorld/views.py:146-148 | the drawn card's quantity grows by one, from 0 when it had no row. No other card changes |
| Shop.BuyPack | EcoWorld/views.py:111-134 | 405 for a non-POST, and an invalid pack or insufficient coins leave everything unchanged. Otherwise only the cost is debited and the inventory is untouched |
| Shop.Store | EcoWorld/views.py:47-107 | GET shows the page. Any method other than GET or POST gets the plain "Invalid request" answer, unchanged. An unknown pack is a server error, unchanged, and a cost above the balance is refused unchanged. Otherwise it debits, saves, then adds one to the drawn card's existing row. With no row it fails after the debit |
| Shop.Checkout | EcoWorld/views.py:56-63 | the POST branch once the pack is known: refuse, or debit then credit, or debit then fail |
| Shop.PackOpening | EcoWorld/views.py:137-151 | an unknown pack fails unchanged. Otherwise the drawn card gains one unit (its row created at 0 first) and the balance is untouched |
| Shop.CompleteChallenge | EcoWorld/views.py:164-180 | a POST for an existing row adds its worth through `user.save()` and stamps it submitted today. An unknown row or a non-POST changes nothing |
| Shop.Complete | EcoWorld/views.py:172-179 | the POST branch: lookup, payment of the worth, then the submission stamp |
| Shop.PayAndStamp | EcoWorld/views.py:173-178 | the balance grows by the worth through `user.save()` and the row is stamped |
| Shop.CompleteTwice | EcoWorld/views.py:172-178 | completing the same challenge twice pays its worth twice: no repeat guard |
| Drinks.ScanCode | qrCodes/views.py:21-34 | within the cooldown of the latest drink, redirect with nothing changed. Otherwise an unknown fountain fails unchanged, and a known one records the drink and adds the value of a drink |
| Drinks.Record | qrCodes/views.py:30-32 | one drink event is recorded and the balance is saved with the value added |
| Drinks.CooldownBoundary | qrCodes/views.py:24-27 | a first scan, or one at least a full cooldown after the latest drink, is rewarded. One within the cooldown is not |
| Drinks.RewardedScanStartsCooldown | qrCodes/views.py:24-32 | after a rewarded scan, no scan is rewarded until the cooldown has passed. A positive reward adds exactly one ledger row |
| Drinks.AnyRecentDrinkBlocks | qrCodes/views.py:24 | the latest drink is the one with the greatest time, so any drink within the cooldown blocks |
| Disposal.SubmitDisposal | glassDisposal/views.py:8-27 | a valid POST records an entry awarding bottles × reward, adds that award to the balance and redirects with the same award. Anything else changes nothing |
| Disposal.AwardBounds | glassDisposal/views.py:15-20 | an accepted submission (at least one bottle) earns at least the per-bottle reward. Each further bottle adds exactly the reward, and a positive award is one ledger row |
| Guides.NewPair | guides/models.py:8-13 | a new guide has `quiz_max_marks` -1 and `reward` 50 unless given |
| Guides.Get | guides/views.py:85-100 | `request.POST[key]` is missing iff no field with that key has a value |
| Guides.GetList | guides/views.py:87-102 | `getlist` returns the values of a field with that key, or nothing |
| Guides.Before | guides/views.py:81 | `split('_')[1]` of a `question_` key is the text up to the next underscore |
| Guides.BuildQuestion | guides/views.py:81-108 | a question has four answers valued A to D. Answer k is correct iff "k" is among `correct_answers_<id>`. A missing answer text fails the request |
| Guides.AnswerTexts | guides/views.py:85-100 | the four answer texts are the `answer1_<id>` .. `answer4_<id>` fields |
| Guides.QuestionsFailFast | guides/views.py:78-108 | once an answer lookup fails, no later field rescues the request |
| Guides.QuestionsShape | guides/views.py:76-108 | one question per `question_` key, each with answers valued A, B, C, D in order |
| Guides.AddGuide | guides/views.py:70-123 | a valid form saves a guide whose max marks are the number of `question_` keys, with the assembled questions. An invalid form shows the form again, and a missing answer fails |
| Guides.QuizResult.constructor | guides/models.py:18-25 | a new result row has every score 0 and is not completed |
| Guides.QuizResult.Save | guides/models.py:27-31 | `save` completes a row whose score equals max marks, never un-completes it, and leaves the scores as given |
| Guides.RegisterScore | guides/views.py:266-290 | `registerScore_view` makes or reuses the row, records the previous best, the score and the new best, and saves it. It pays the reward iff the previous best was below max marks and the score is full. An unknown guide is a 404 with nothing changed |
| Guides.RegisteredKeepsBest | guides/views.py:277-280 | the best never decreases, is at least the new score, and is one of the two. The previous best is the old best, and a completed row stays completed |
| Guides.BestIsLargestScore | guides/views.py:277-280 | after any run of registrations, the best is the largest of the starting best and all scores |
| Guides.NoPaymentAfterFullMarks | guides/views.py:282-285 | once the best reaches max marks, no registration pays |
| Guides.RewardPaidAtMostOnce | guides/views.py:282-285 | whatever scores are submitted, the reward is paid at most once per user and guide |
| Guides.FirstFullScorePays | guides/views.py:272-285 | a first full score on a new row pays, completes the row and records full marks as the best. A repeat does not pay |
| Quiz.Score | guides/static/guides/js/quiz.js:183-189 | the score lies between 0 and the number of questions |
| Quiz.EarnsIffExact | guides/static/guides/js/quiz.js:184-186 | a question earns a point iff its selection is exactly its set of correct values |
| Quiz.NoSelectionScoresZero | guides/static/guides/js/quiz.js:174-189 | with nothing selected the score is 0 |
| Quiz.Toggled | guides/static/guides/js/quiz.js:211-221 | a click flips the membership of that answer in that question's set and changes nothing else |
| Quiz.ToggleTwice | guides/static/guides/js/quiz.js:211-221 | two clicks on the same answer restore the selection |
| Quiz.QuizPage.constructor | guides/static/guides/js/quiz.js:140-142 | the page opens on the first question with nothing selected and the buttons set for it |
| Quiz.QuizPage.ShowQuestion | guides/static/guides/js/quiz.js:115-128 | Back is hidden iff on the first question. Submit is shown and Next hidden iff on the last |
| Quiz.QuizPage.Next | guides/static/guides/js/quiz.js:145-156 | Next moves forward only below the last question, so the position stays on a question |
| Quiz.QuizPage.Back | guides/static/guides/js/quiz.js:159-170 | Back moves back only above the first question, so the position stays on a question |
| Quiz.QuizPage.Toggle | guides/static/guides/js/quiz.js:206-223 | an answer click updates the selection as `Toggled` and leaves the position alone |
| Quiz.QuizPage.Submit | guides/static/guides/js/quiz.js:173-191 | the submit loop computes `Score` |
| Paragraphs.NextIndex | static/guides/js/content.js:14-25 | on a valid index, next is (index + 1) mod count |
| Paragraphs.PrevIndex | static/guides/js/content.js:27-38 | on a valid index, prev is (index - 1 + count) mod count |
| Paragraphs.NextPrevInverse | static/guides/js/content.js:14-38 | prev undoes next and next undoes prev |
| Paragraphs.NextTimesWraps | static/guides/js/content.js:14-25 | k ≤ count presses of next move k places, wrapping once past the end |
| Paragraphs.FullCycle | static/guides/js/content.js:14-25 | count presses of next return to the starting paragraph |
| Paragraphs.Reader.constructor | static/guides/js/content.js:7 | the reader starts on paragraph 0 |
| Paragraphs.Reader.NextParagraph | static/guides/js/content.js:14-25 | the index becomes `NextIndex` and stays in range |
| Paragraphs.Reader.PrevParagraph | static/guides/js/content.js:27-38 | the index becomes `PrevIndex` and stays in range |
| Snake.StepStaysOnGrid | SustainabilityGame/static/SustainabilityGame/js/game.js:275-286 | a step from a board cell lands on another board cell or outside the board |
| Snake.OppositeUndoes | SustainabilityGame/static/SustainabilityGame/js/game.js:96-99 | a step and the opposite step cancel, and no direction is its own opposite |
| Snake.PointsPositive | SustainabilityGame/static/SustainabilityGame/js/game.js:10-15 | every trash type scores 5, 10, 15 or 20 |
| Snake.GameState.constructor | SustainabilityGame/static/SustainabilityGame/js/game.js:257-273 | a new state is the reset state |
| Snake.GameState.Reset | SustainabilityGame/static/SustainabilityGame/js/game.js:261-273 | the snake is (125,250), (100,250), (75,250) heading right. Counters are 0, the game is stopped, and new trash is on a board cell |
| Snake.GameState.PlaceNewTrash | SustainabilityGame/static/SustainabilityGame/js/game.js:297-302 | trash lands on a cell at multiples of 25 inside 600×400, and nothing else changes |
| Snake.GameState.GetNextPosition | SustainabilityGame/static/SustainabilityGame/js/game.js:275-286 | commits the pending direction, never the reverse of the last one, and returns the head moved one cell |
| Snake.GameState.MoveSnake | SustainabilityGame/static/SustainabilityGame/js/game.js:288-294 | the new head goes in front. The tail is dropped unless the head lands on the trash |
| Snake.GameState.UpdateScore | SustainabilityGame/static/SustainabilityGame/js/game.js:308-311 | the score grows by the trash's points and one more trash is counted |
| Snake.Game.Turn | SustainabilityGame/static/SustainabilityGame/js/game.js:96-99 | a turn is taken unless it reverses the committed direction |
| Snake.Game.HandleInput | SustainabilityGame/static/SustainabilityGame/js/game.js:95-108 | an arrow sets the pending direction to its own direction unless that reverses the committed one, in which case nothing changes. Space toggles running and other keys do nothing. The snake, committed direction, score, count and trash are never touched |
| Snake.Game.HandleSwipe | SustainabilityGame/static/SustainabilityGame/js/game.js:82-93 | a moving swipe acts as the arrow for its longer axis (vertical on a tie): it sets that direction unless it reverses the committed one. A swipe that does not move changes nothing, and only the pending direction can change |
| Snake.Game.Start | SustainabilityGame/static/SustainabilityGame/js/game.js:110-116 | a running game is left entirely unchanged. Otherwise it gets the start snake, both directions right, score and count 0, new trash on the given cell, and is set running |
| Snake.Game.TogglePause | SustainabilityGame/static/SustainabilityGame/js/game.js:172-174 | running flips and nothing else changes |
| Snake.Game.HandleTrashCollection | SustainabilityGame/static/SustainabilityGame/js/game.js:153-159 | scores the collected trash's points and counts it, repeats the last segment and places the new trash on the given cell. Direction, pending direction and running are unchanged |
| Snake.Game.Update | SustainabilityGame/static/SustainabilityGame/js/game.js:130-146 | the pending direction is committed and kept. A step out of the board or into the snake (tail included) stops the game with snake, score, count and trash unchanged. Otherwise the new head goes in front and the tail is dropped. On trash the tail is kept and the last segment is repeated, so the snake grows by two, the points are scored and the new trash is placed |
| Feed.FilterType | forum/views.py:13 | the filter defaults to 'my' |
| Feed.Involving | forum/views.py:29-31 | the `Friends` query holds exactly the rows with the requester in either column |
| Feed.FriendIds | forum/views.py:41-46 | the loop collects the other member of each of those rows |
| Feed.FriendIdsCharacterised | forum/views.py:41-46 | v is a friend iff a row (me, v) or (v, me) exists |
| Feed.FriendsSymmetric | forum/views.py:41-46 | u counts v as a friend iff v counts u as one |
| Feed.CompletedChallenges | forum/views.py:49-52 | exactly the audience's challenges with `submitted_on` set are listed |
| Feed.CompletedObjectives | forum/views.py:54-57 | exactly the audience's completed objectives are listed |
| Feed.GetChallengeInfo | forum/views.py:11-97 | the view answers `Info`, the filter-by-filter description the lemmas below characterise |
| Feed.OnlyCompletedShown | forum/views.py:17-67 | whatever the filter, only submitted challenges and completed objectives appear |
| Feed.DefaultShowsMine | forum/views.py:13-25 | with no filter or 'my', exactly the requester's completed items appear and `has_no_friends` is false |
| Feed.NoFriendsFlag | forum/views.py:27-39 | `has_no_friends` is true iff the filter is 'friends' and no row involves the requester. Both lists are then empty |
| Feed.FriendsFilterShows | forum/views.py:41-52 | under 'friends', a completed challenge is listed iff its owner shares a row with the requester |
| Feed.UniversityShowsAll | forum/views.py:59-71 | any other filter lists every user's completed items, with `has_no_friends` false |
| Posts.FromOngoingChallenge | forum/models.py:82-88 | a 'challenge' post with the user, challenge and submission, no card, and university visibility |
| Posts.FromCard | forum/models.py:105-110 | a 'card' post with the card and no challenge |
| Posts.FromGuide | forum/models.py:129-136 | a 'guide' post with title, description and score, and neither challenge nor card |
| Posts.ConstructorsDistinct | forum/models.py:69-137 | the three constructors never build the same post |
| Posts.FindInteraction | forum/models.py:160-166 | the lookup of a (user, post) pair finds a row with that pair, or none exists |
| Posts.Forum.Save | forum/models.py:88 | a constructed post is stored under the next id, and all posts stay constructor-shaped |
| Posts.Forum.Interact | forum/models.py:166 | a like or dislike is stored iff the post exists and the user has none on it. Pairs stay unique |
| Posts.InteractTwice | forum/models.py:166 | a second interaction by the same user on the same post is always refused |
| ChallengePage.Split | EcoWorld/static/EcoWorld/js/challenges.js:96 | `split` gives at least one piece, and two when the separator occurs |
| ChallengePage.SplitPieces | EcoWorld/static/EcoWorld/js/challenges.js:138 | no piece contains the separator, and a string without it is one piece |
| ChallengePage.JoinSplit | EcoWorld/static/EcoWorld/js/challenges.js:138 | joining the pieces with the separator gives back the string |
| ChallengePage.SplitJoin | EcoWorld/static/EcoWorld/js/challenges.js:138 | splitting a join of separator-free pieces gives back the pieces |
| ChallengePage.TrimStartShape | EcoWorld/static/EcoWorld/js/challenges.js:140 | trimming the start removes only whitespace, and all of it |
| ChallengePage.TrimEndShape | EcoWorld/static/EcoWorld/js/challenges.js:140 | trimming the end removes only whitespace, and all of it |
| ChallengePage.TrimPadded | EcoWorld/static/EcoWorld/js/challenges.js:140 | padding a segment with whitespace does not change its trim |
| ChallengePage.FirstTokenNone | EcoWorld/static/EcoWorld/js/challenges.js:139-147 | no token is found iff no trimmed segment starts with "csrftoken=" |
| ChallengePage.FirstTokenAt | EcoWorld/static/EcoWorld/js/challenges.js:139-144 | the first carrying segment gives the token: the text after the prefix |
| ChallengePage.GetCsrfToken | EcoWorld/static/EcoWorld/js/challenges.js:135-148 | the loop with its `break` returns `CsrfToken` of the cookie |
| ChallengePage.EmptyCookieHasNoToken | EcoWorld/static/EcoWorld/js/challenges.js:136-137 | an empty cookie has no token |
| ChallengePage.FirstTokenSkips | EcoWorld/static/EcoWorld/js/challenges.js:139-144 | segments that do not carry the token are skipped |
| ChallengePage.TokenRoundTrip | EcoWorld/static/EcoWorld/js/challenges.js:135-148 | a cookie made of non-carrying segments, then "csrftoken=v" padded with spaces, then anything, yields v |
| ChallengePage.Decimal | EcoWorld/static/EcoWorld/js/challenges.js:98 | a number's text is non-empty and contains no '/' |
| ChallengePage.RewriteKeepsTotal | EcoWorld/static/EcoWorld/js/challenges.js:95-98 | the rewritten text splits into the new progress and the old total |
| ChallengePage.RewriteTwice | EcoWorld/static/EcoWorld/js/challenges.js:95-98 | rewriting twice is rewriting once with the later progress |
| ChallengePage.OnIncrement | EcoWorld/static/EcoWorld/js/challenges.js:92-119 | on success, a span containing '/' is rewritten, and the prompt appears iff progress equals goal. Otherwise nothing changes and nothing is prompted |

## Left out

- The weighted draw of `openPack` is not defined among the modelled files. The drawn card is a
  parameter, and `store` and `pack_opening_page` are proved for every possible card.
- Card merging is left out. Its views are not part of this model.
- Random choices are left out: the challenge draw (`random.choice`), trash placement and the quiz
  shuffle. The challenge draw is an arbitrary choice from the pool (`:|`). Trash placement takes the
  chosen column, row and type as parameters. The shuffle is not modelled.
- Floating point is left out: `calculate_coins`, the client coin estimate, the progress bars, the
  admin dislike ratio, and the percentage passed to the guide post.
- Guides.RegisterScore: the guide post created after the saves, and the percentage it divides out,
  are not modelled. Only the server error of a zero `quiz_max_marks` is kept. `Posts.FromGuide`
  models the constructor that post creation calls.
- DOM, canvas, timers and network are left out: rendering, the animation loop, `fetch`, the alert
  and prompt texts, the page reload timer, and the falling-leaves and map scripts. `OnIncrement`
  takes the fetched `success`, `progress` and `goal` as parameters.
- Responses are modelled only as which outcome occurred. JSON serialisation, templates and the
  formatted fields of the feed are not modelled.
- Times are integers on one clock. Dates are day numbers. Time zones and the conversion of
  `submitted_on` to a date are not modelled.
- `created_at` and the default orderings of `Post` and `PostInteraction` are not modelled. Posts
  are kept in creation order.
- Concurrency and transactions are left out. Each request is one sequential step.
- Django plumbing is left out: URL routing, authentication decorators, admin, form classes (a valid
  glass-disposal form is a boolean plus `bottle_count >= 1`), and `delete_account`.
- Garden.Reshape, Garden.FlattenReshape, Garden.GardenGrid.Grid and Leaderboard.Tooltip: the views
  index `gardensquare_set.all()` by position, and `gardenSquare` declares no ordering. The model
  assumes the database returns the squares in `squareID` order, which nothing in the source
  guarantees. In another order the grid shows the same squares in other cells.
- Seeding.Find: card, rarity and pack titles are not unique in the schema. With two rows of one
  title, `get_or_create` and `update_or_create` raise `MultipleObjectsReturned`. The model returns
  the first such row, and the `Catalog` methods require unique titles. Seeding itself keeps titles
  unique (`Seeding.UpsertAllCovers`), so duplicates can only come from writes this model leaves out.
  The duplicate-title error is not modelled.
- Accounts.CreateOwns: `createOwnsDb` would add a second ownership row for a card that already has
  one. The inventory is a map, so it holds one quantity per card and that duplicate is not
  represented.
- ChallengePage.IsSpace: JavaScript's `trim` removes every Unicode space separator and line
  terminator. The model knows tab, line feed, vertical tab, form feed, carriage return, space,
  no-break space and the byte-order mark, and not the other Unicode space separators.
- Test-only behaviour with no matching code is not modelled: the garden occupancy rejection and the
  quantity restore on removal, the 100 m distance check, and the cooldown template.
- Schema-only files are used only for datatypes and field defaults.
