# Delicious Bingo in Dafny

This project models the core of Delicious Bingo, a restaurant-bingo web app. A user picks a
bingo template, a 5x5 grid of restaurants. Each restaurant reviewed on the user's board
activates its cell. Five rows, five columns and two diagonals are the winning lines. A board
is complete once its reviews finish at least the target number of lines.

The model covers the following parts of the system:

- **The line engine, in both copies.** The board page's version (`bingoUtils.js`) reports
  which winning lines are complete and which cells to highlight. The server's version
  (`services.py`) counts the complete lines and decides whether a board is complete.
- **The board serializer.** It turns template items and reviews into sorted cells, the
  completed-line count and the progress figures. It also refuses a review for a restaurant
  the template does not hold.
- **The views.**
  - Creating a review: validation, storing the review, and the completion decision with its
    `bingo_completed` / `goal_achieved` flags.
  - The leaderboard: fastest completions with their duration text, and the most completions.
  - Likes, comment listing and writing, and comment deletion.
- **Kakao sign-in.** The unique-username search, and the choice between an existing social
  account, linking by verified e-mail, and a new user stored under Django's normalized
  e-mail address.
- **The Python text operations the server relies on** (`PythonText`): `str.strip`,
  `str.lower` and the split at the last occurrence of a character.
- **The frontend's sequential logic.**
  - the confirm-dialog hook
  - the template editor's 25-slot grid
  - the review form's validation and submit gate
  - the admin user list's pagination and self-demotion guard
  - the confetti generator
  - the class-name joiner
  - the two navigation highlights

The database is reduced to values:

- A template is a sequence of `(position, restaurant)` items.
- A board's reviews are a sequence of reviews.
- Likes are a set of `(user, review)` pairs.
- Comments, users, profiles and social accounts are sequences and maps owned by a class.

The uniqueness and range constraints of `models.py` become predicates on these values
(`BingoModels.ValidItems`, `BingoModels.ValidReviews`). Code that updates state in place is
modelled as classes whose methods change their fields: the review view, likes and comments,
the account store, the dialog, the editor, the form and the user list. Loops stay loops.
Expression-only code becomes functions with lemmas.

Sorting follows the serializer and the leaderboard queries. `Sorting.SortBy` is a stable
insertion sort, so boards with equal keys keep the order they are given in. The database's
order for ties is unspecified.

Where a comment and the code disagree, the model follows the code. At backend/api/views.py:100
the comment speaks of a newly completed line. The code reports `bingo_completed` whenever the
board has any complete line at all, and the model does the same.
`ReviewViews.ReportedWithoutNewLine` shows a review that completes no new line and still
reports `bingo_completed`.

## Model

| member | source | states |
|---|---|---|
| BingoLines.WinningLinesShape | frontend/src/components/bingo/bingoUtils.js:2-18 | the table has 12 lines: rows 5k..5k+4 first, then columns k..k+20, then the two diagonals; each line has five distinct positions in 0..24, and no line appears twice |
| BingoLines.WinningLinesDistinct | frontend/src/components/bingo/bingoUtils.js:2-18 | no winning line appears twice in the table |
| BingoLines.StrictlyIncreasingLine | frontend/src/components/bingo/bingoUtils.js:4-17 | each line lists five positions in increasing order inside 0..24 |
| BingoLines.LineFacts | frontend/src/components/bingo/bingoUtils.js:4-17 | each line has five distinct positions, all on the grid |
| BingoLines.DistinctLines | frontend/src/components/bingo/bingoUtils.js:4-17 | any two table entries differ |
| BingoLines.CompletedAmong | frontend/src/components/bingo/bingoUtils.js:30-32 | the kept lines are exactly the complete ones, in their original order (a subsequence), never more than given, and without duplicates when the input has none |
| BingoLines.GetCompletedLines | frontend/src/components/bingo/bingoUtils.js:25-33 | getCompletedLines: a line is returned iff it is a winning line all of whose positions are activated, and the result keeps table order (a subsequence of the table) |
| BingoLines.CompletedLinesCharacterization | frontend/src/components/bingo/bingoUtils.js:25-33 | getCompletedLines returns exactly the winning lines whose every position is activated, in table order, each once, at most 12 |
| BingoLines.OnlyActivatedPositionsMatter | frontend/src/components/bingo/bingoUtils.js:26-28 | two cell lists with the same activated cells give the same result, whatever their inactive cells |
| BingoLines.OrderIndependent | frontend/src/components/bingo/bingoUtils.js:26-28 | reordering the cells does not change the result |
| BingoLines.CompletedAmongMonotone | frontend/src/components/bingo/bingoUtils.js:30-32 | with more activated positions, the complete lines of the smaller set are a subsequence of those of the larger |
| BingoLines.ActivationMonotone | frontend/src/components/bingo/bingoUtils.js:25-33 | activating more cells never removes a completed line and never lowers their number |
| BingoLines.SubsequenceLength | frontend/src/components/bingo/bingoUtils.js:30-32 | a subsequence is never longer than the sequence it comes from |
| BingoLines.GetHighlightedPositions | frontend/src/components/bingo/bingoUtils.js:40-46 | the nested loop yields exactly the positions lying on some given line |
| BingoLines.HighlightMembership | frontend/src/components/bingo/bingoUtils.js:40-46 | a position is highlighted iff some given line contains it |
| BingoLines.HighlightedAreActivated | frontend/src/components/bingo/bingoUtils.js:25-46 | every highlighted position of the completed lines is an activated position |
| BingoLines.HighlightedOnGrid | frontend/src/components/bingo/bingoUtils.js:25-46 | every highlighted position of the completed lines is in 0..24 |
| BingoLines.BoardActivated | frontend/src/components/bingo/bingoUtils.js:26-28 | a full board built from a set of on-grid positions activates exactly that set |
| BingoLines.NoLineComplete | frontend/src/components/bingo/bingoUtils.js:30-32 | when no line is complete the result is empty |
| BingoLines.OneLineComplete | frontend/src/components/bingo/bingoUtils.js:30-32 | when exactly one line of a duplicate-free table is complete, the result is that line alone |
| BingoLines.TwoLinesComplete | frontend/src/components/bingo/bingoUtils.js:30-32 | when exactly two lines are complete, the result is both, in table order |
| BingoLines.EmptyInputExample | frontend/src/components/bingo/bingoUtils.js:25-33 | no cells give no lines |
| BingoLines.NothingActivatedExample | frontend/src/components/bingo/bingoUtils.js:25-33 | a board with no activated cell completes nothing |
| BingoLines.PartialRowExample | frontend/src/components/bingo/bingoUtils.js:25-33 | four cells of row 0 complete nothing |
| BingoLines.RowZeroExample | frontend/src/components/bingo/bingoUtils.js:25-33 | row 0 alone gives [[0,1,2,3,4]] |
| BingoLines.RowZeroPlusCellExample | frontend/src/components/bingo/bingoUtils.js:25-33 | row 0 plus cell 5 still gives only row 0 |
| BingoLines.ColumnZeroExample | frontend/src/components/bingo/bingoUtils.js:25-33 | column 0 alone gives [[0,5,10,15,20]] |
| BingoLines.DiagonalExample | frontend/src/components/bingo/bingoUtils.js:25-33 | the main diagonal alone gives [[0,6,12,18,24]] |
| BingoLines.AntiDiagonalExample | frontend/src/components/bingo/bingoUtils.js:25-33 | the anti-diagonal alone gives [[4,8,12,16,20]] |
| BingoLines.RowAndColumnExample | frontend/src/components/bingo/bingoUtils.js:25-33 | row 0 plus column 0 give both lines, row first |
| BingoLines.HighlightEmptyExample | frontend/src/components/bingo/bingoUtils.js:40-46 | no lines highlight nothing |
| BingoLines.HighlightRowAndColumnExample | frontend/src/components/bingo/bingoUtils.js:40-46 | row 0 and column 0 highlight nine positions, with position 0 counted once |
| BingoService.GetActivatedPositions | backend/api/services.py:24-34 | the loop yields exactly the positions of template items whose restaurant has a review on the board |
| BingoService.CountCompleteIn | backend/api/services.py:36-43 | the counting loop returns the number of lines fully inside the set, at most the number of lines |
| BingoService.CountFrom | backend/api/services.py:39-43 | the count over the lines from index i on is at most the number of those lines, and zero iff none of them is complete |
| BingoService.CompletedLineCount | backend/api/services.py:36-43 | the number of complete winning lines is at most 12, and zero iff no winning line is complete |
| BingoService.ActivatedOf | backend/api/services.py:24-34 | definition: the set of positions of template items whose restaurant is among the reviewed ones (the loop GetActivatedPositions is proved equal to it) |
| BingoService.CountCompletedLines | backend/api/services.py:36-43 | count_completed_lines returns the number of complete winning lines, in 0..12 |
| BingoService.CheckBoardCompletion | backend/api/services.py:46-50 | completion holds iff the completed-line count reaches target_line_count, and never for a target above 12 |
| BingoService.TablesAgree | backend/api/services.py:5-21 | the server's table equals the board page's table line by line |
| BingoService.CountFromIsFilterLength | backend/api/services.py:39-43 | counting from index i equals the number of complete lines among the remaining lines |
| BingoService.CountMatchesFrontend | backend/api/services.py:36-43 | the server's count for a set equals the length of the board page's completed-line list for the same set, at most 12 |
| BingoService.CountMatchesCompletedLines | backend/api/services.py:36-43 | the same agreement, stated over the cells the board page receives |
| BingoService.CountMonotone | backend/api/services.py:39-43 | more activated positions never lower the count |
| BingoService.CompletionMonotone | backend/api/services.py:46-50 | more reviewed restaurants never turn a completed board back into an incomplete one |
| BingoService.NoReviewsNoActivation | backend/api/services.py:24-34 | without reviews nothing is activated and no line is complete |
| BingoService.ActivatedOnGrid | backend/api/services.py:31-33 | activated positions of valid template items lie in 0..24 |
| BingoService.TargetAboveTwelveUnreachable | backend/api/services.py:46-50 | a target above 12 is never met |
| BingoService.CountPartialRowExample | backend/api/services.py:36-43 | {0,1,2,3} completes no line |
| BingoService.CountRowExample | backend/api/services.py:36-43 | a single row completes one line |
| BingoService.CountRowPlusCellExample | backend/api/services.py:36-43 | a row plus one cell off it completes one line |
| BingoService.CountColumnExample | backend/api/services.py:36-43 | a single column completes one line |
| BingoService.CountDiagonalExample | backend/api/services.py:36-43 | the main diagonal completes one line |
| BingoService.CountAntiDiagonalExample | backend/api/services.py:36-43 | the anti-diagonal completes one line |
| BingoService.CountRowAndColumnExample | backend/api/services.py:36-43 | row 0 plus column 0 complete two lines |
| BoardSerializer.Validate | backend/api/serializers.py:82-92 | a review is accepted iff its restaurant is among the template's items |
| BoardSerializer.ReviewsByRestaurant | backend/api/serializers.py:113-115 | the map's keys are exactly the reviewed restaurants, and each value is a review of the board for its key |
| BoardSerializer.GetCells | backend/api/serializers.py:110-126 | one cell per template item, sorted by position; a cell is activated iff its restaurant is reviewed, and carries a review exactly when activated |
| BoardSerializer.GetCompletedLines | backend/api/serializers.py:128-132 | completed_lines is the server's count over the activated positions, at most 12 |
| BoardSerializer.GetProgress | backend/api/serializers.py:134-141 | definition: activated_count is the number of the board's reviews and total_cells is 25; ProgressCountsActivatedCells proves the count equals the activated cells |
| BoardSerializer.ActivatedCellsMatchService | backend/api/serializers.py:113-124 | the positions of the activated cells are get_activated_positions of the board |
| BoardSerializer.PageCells | backend/api/serializers.py:120-124 | the cell fields the board page reads are position and is_activated, cell by cell |
| BoardSerializer.PageActivated | backend/api/serializers.py:120-124 | the board page sees as activated exactly the positions of the activated cells |
| BoardSerializer.FrontendAgreesWithCompletedLines | backend/api/serializers.py:110-132 | the board page's completed-line list for the serialized cells is as long as completed_lines |
| BoardSerializer.ProgressCountsActivatedCells | backend/api/serializers.py:134-141 | total_cells is 25, and under the database constraints activated_count equals the number of activated cells |
| BoardSerializer.DistinctKeysCount | backend/api/models.py:106-107 | with one review per restaurant, the reviewed restaurants are as many as the reviews |
| BoardSerializer.ActivatedCount | backend/api/models.py:61-62 | under the template's uniqueness constraints, reviewed template restaurants and activated positions are equally many |
| PythonText.StripStart | backend/api/serializers.py:71-80 | the serializer's content field trims leading white space: the result is a suffix, everything removed is Python white space, and the result does not start with it |
| PythonText.StripEnd | backend/api/serializers.py:71-80 | trailing white space likewise: the result is a prefix, everything removed is white space, and the result does not end with it |
| PythonText.Strip | backend/api/serializers.py:71-80 | the trimmed content is no longer than the input and neither starts nor ends with white space |
| PythonText.StripUnpadded | backend/api/serializers.py:71-80 | content that neither starts nor ends with white space is left unchanged by the trim |
| PythonText.LowerChar | backend/api/services_oauth.py:136-140 | the lower-cased character is never an upper-case letter; an upper-case letter becomes its lower-case partner, 32 code points on, and anything else is kept |
| PythonText.Lower | backend/api/services_oauth.py:136-140 | lower-casing keeps the length and lowers each character in place |
| PythonText.LowerIdempotent | backend/api/services_oauth.py:136-140 | lowering twice gives the same text as lowering once |
| PythonText.LastIndexOf | backend/api/services_oauth.py:136-140 | the split point of `rsplit("@", 1)`: an index holding the character with none after it, and none exactly when the character does not occur |
| ReviewViews.ParseDate | backend/api/models.py:102 | the required visited_date is read as Django's parse_date reads it: a day is returned only for text of 8 to 10 characters starting with four digits and a '-', the year is those digits, and the day is a real calendar day in years 1..9999 |
| ReviewViews.DigitsValueAppend | backend/api/models.py:102 | reading digits is positional: the value of a + b is value(a) * 10^len(b) + value(b) |
| ReviewViews.Pad2Value | backend/api/models.py:102 | a number below 100 written with two digits reads back as itself |
| ReviewViews.ParseDigitFields | backend/api/models.py:102 | text of the shape YYYY-MM-DD is read as the date its three digit fields spell, or refused when that is no real day |
| ReviewViews.IsoFormatParses | frontend/src/components/forms/ReviewForm.jsx:13 | every valid day written as YYYY-MM-DD, as the form's date input sends it, is read back by the server as that same day |
| ReviewViews.LeapDayExample | backend/api/models.py:102 | 2024-02-29 is accepted as a day and 2023-02-29 is refused |
| ReviewViews.FieldErrors | backend/api/models.py:98-102 | content is flagged iff its trimmed value is shorter than 10 characters or holds a NUL character; rating is flagged iff outside 1..5; the visited date is flagged iff it is missing or names no day |
| ReviewViews.CheckRequest | backend/api/serializers.py:82-92 | a request is accepted iff its trimmed content has at least 10 characters and no NUL, its rating is in 1..5, its visited date is present and names a real day, its restaurant has no review on the board yet, and the template holds that restaurant |
| ReviewViews.Report | backend/api/views.py:86-105 | goal_achieved implies bingo_completed; on a completed board both are false; otherwise goal_achieved iff the target is met and bingo_completed iff some line is complete |
| ReviewViews.LineCount | backend/api/views.py:91-92 | definition: the completed-line count of the board's activated positions, as count_completed_lines(get_activated_positions(board)) |
| ReviewViews.BingoBoard.constructor | backend/api/models.py:69-83 | a new board has no reviews and is not completed |
| ReviewViews.Create | backend/api/views.py:79-107 | a rejected request changes nothing; an accepted one appends the review and reports the flags for the new line count; is_completed only ever turns on, and completed_at is set exactly when the goal is reached |
| ReviewViews.RecordCompletion | backend/api/views.py:86-101 | the completion step leaves the reviews alone, reports the flags of the current count, and turns is_completed on exactly when the goal is achieved |
| ReviewViews.AcceptedRequestGrowsBoard | backend/api/models.py:106-107 | an accepted review keeps one review per restaurant and adds its restaurant to the reviewed set |
| ReviewViews.ReportedWithoutNewLine | backend/api/views.py:99-101 | a review completing no new line on a board that already has one still reports bingo_completed |
| Leaderboard.DivModUnique | backend/api/views.py:140-142 | quotient and remainder with a remainder in range are those of the division |
| Leaderboard.Split | backend/api/views.py:139-142 | hours lie in 0..23 and minutes in 0..59; days, hours and minutes rebuild the seconds to within the last minute; non-negative seconds give non-negative days |
| Leaderboard.FormatDeterminesShownUnits | backend/api/views.py:144-149 | equal texts for non-negative durations mean equal days and hours, and equal minutes when under a day |
| Leaderboard.LeadingNumber | backend/api/views.py:144-149 | a number followed by a non-digit is recovered from the text |
| Leaderboard.LeadAndTail | backend/api/views.py:144-149 | the text starts with days, hours or minutes, as the branch requires, followed by the unit |
| Leaderboard.FormatDuration | backend/api/views.py:144-149 | the text names days iff the split has a positive day count; hours iff it has positive days or positive hours; minutes iff the day count is not positive |
| Leaderboard.Finished | backend/api/views.py:125 | definition: a board is eligible iff is_completed and completed_at is not null |
| Leaderboard.Elapsed | backend/api/views.py:127-130 | definition: completed_at minus created_at, in whole seconds |
| Leaderboard.EntryFor | backend/api/views.py:150-157 | definition: the entry of a finished board at a rank: its user, template title, duration text and completion time |
| Leaderboard.FinishedBoards | backend/api/views.py:123-125 | exactly the completed boards with a completion time are kept, each at most as often as it occurs in the input |
| Leaderboard.FastestBoards | backend/api/views.py:123-134 | min(10, number of finished boards) boards, a sub-multiset of the finished boards, ascending by elapsed time; a finished board left out is no faster than any shown |
| Leaderboard.FastestBoardsDistinct | backend/api/views.py:123-134 | distinct board rows give distinct entries: no board is listed twice |
| Leaderboard.FastestList | backend/api/views.py:136-157 | one entry per board, ranked 1..n in list order, carrying the board's user, template, duration text and completion time |
| Leaderboard.Annotate | backend/api/views.py:160-162 | each user is paired with their number of completed boards |
| Leaderboard.PositiveCounts | backend/api/views.py:163 | exactly the users with a positive count are kept, each at most as often as in the input |
| Leaderboard.MostCompletions | backend/api/views.py:160-174 | min(10, number of users with completions) entries ranked 1..n, whose (username, count) pairs are a sub-multiset of the users' positive counts, in non-increasing order; a user left out has no more completions than every listed one |
| Leaderboard.RankedTopIsPart | backend/api/views.py:164-174 | the ranked first ten are min(10, n) entries taken from the positive counts |
| Leaderboard.MostCompletionsDistinctUsers | backend/api/views.py:160-174 | with unique usernames no user is listed twice |
| Leaderboard.TopDescending | backend/api/views.py:164-174 | ranking the first ten of a descending list keeps the counts non-increasing |
| Leaderboard.LeftOutRankLower | backend/api/views.py:164 | a user with completions who is not listed is outranked by all ten listed |
| Leaderboard.TopComesFromUsers | backend/api/views.py:160-164 | every listed count belongs to a user with that many completions |
| ReviewSocial.Toggled | backend/api/views.py:215-217 | the toggled like flips membership and no other like changes |
| ReviewSocial.CommentsOf | backend/api/views.py:236 | exactly the comments of the review are listed |
| ReviewSocial.WithoutComment | backend/api/views.py:275 | exactly the comments with a different id remain |
| ReviewSocial.SocialStore.constructor | backend/api/views.py:206-276 | the store starts with the given reviews, no likes and no comments |
| ReviewSocial.SocialStore.ToggleLike | backend/api/views.py:206-222 | a missing or private review answers 404 and changes nothing; otherwise the like flips, is_liked tells whether it now exists, and like_count is the review's count afterwards |
| ReviewSocial.SocialStore.Comments | backend/api/views.py:225-253 | 404 for a missing or private review; reading lists its comments; writing needs a signed-in user and accepted content, and only then adds a comment |
| ReviewSocial.SocialStore.DeleteComment | backend/api/views.py:263-276 | 404 iff no comment with that id is on that review, 403 iff it belongs to someone else; only a 204 deletes, removing exactly that comment |
| ReviewSocial.WithoutCommentKeepsDistinct | backend/api/views.py:275 | removing a comment keeps ids distinct and shortens the list by one when it was present |
| ReviewSocial.WithoutAbsent | backend/api/views.py:275 | removing an absent id changes nothing |
| ReviewSocial.ToggleTwice | backend/api/views.py:215-217 | toggling twice restores the like set |
| ReviewSocial.ToggleCount | backend/api/views.py:215-221 | a toggle raises the review's like count by one when the like was absent and lowers it by one when present |
| ReviewSocial.ToggleOtherReviews | backend/api/views.py:215-217 | a toggle leaves the likes of every other review alone |
| KakaoOAuth.CandidateInjective | backend/api/services_oauth.py:170-172 | different counters give different candidate names |
| KakaoOAuth.FirstFreeName | backend/api/services_oauth.py:157-174 | definition: a free name that is the base when the base is free, else the first free fallback base_k, k >= 1 |
| KakaoOAuth.GenerateUniqueUsername | backend/api/services_oauth.py:157-174 | the result is never taken; it is provider_id when free, else provider_id_k for the least k >= 1 that is free; the loop ends for any finite set of taken names |
| KakaoOAuth.SubsetSize | backend/api/services_oauth.py:170-171 | a subset is no larger than its superset |
| KakaoOAuth.IdText | backend/api/services_oauth.py:86-89 | a present id has nonempty text |
| KakaoOAuth.IdPresent | backend/api/services_oauth.py:86-88 | definition: Python truthiness of the id: missing, 0 and '' are refused |
| KakaoOAuth.Email | backend/api/services_oauth.py:97 | definition: the account e-mail, or '' when absent |
| KakaoOAuth.MayLinkByEmail | backend/api/services_oauth.py:112-115 | definition: linking by e-mail is tried only for a nonempty e-mail that Kakao marks verified |
| KakaoOAuth.Nickname | backend/api/services_oauth.py:93-96 | profile.nickname if truthy, else properties.nickname, else '' |
| KakaoOAuth.FirstWithEmail | backend/api/services_oauth.py:114-115 | the first user with the e-mail in primary-key order, as `.first()` picks it, or none when no user has it |
| KakaoOAuth.AccountStore.constructor | backend/api/services_oauth.py:78-154 | the store starts with no users, profiles or social accounts |
| KakaoOAuth.AccountStore.GetOrCreateUser | backend/api/services_oauth.py:78-154 | a missing id is refused with nothing changed; a linked Kakao id returns its user, not new, with nothing created; a verified nonempty e-mail links the lowest-id user with it and creates a profile only if none exists; otherwise a new user named kakao_{id}, or kakao_{id}_k for the least free k, with the normalized e-mail, its profile and its social account, reported as new |
| KakaoOAuth.AccountStore.LinkAccount | backend/api/services_oauth.py:117-130 | the social account points at the existing user, whose profile is created only if missing; users are unchanged |
| KakaoOAuth.AccountStore.AddUser | backend/api/services_oauth.py:133-154 | one user is appended with the generated username, the e-mail as `create_user` normalizes it and an id above all others, plus its profile and social account |
| KakaoOAuth.AccountStore.InsertUser | backend/api/services_oauth.py:136-152 | the user row, its profile and its social account are added, and usernames stay unique and ids ascending |
| KakaoOAuth.NormalizeEmail | backend/api/services_oauth.py:136-140 | an address with no '@' once stripped is stored exactly as given; otherwise the stored address is as long as the stripped one |
| KakaoOAuth.NormalizeEmailLowersDomain | backend/api/services_oauth.py:136-140 | the stored address keeps the stripped address up to its last '@' and lower-cases every character after it |
| KakaoOAuth.NormalizeSplitsAtLastAt | backend/api/services_oauth.py:136-140 | an unpadded local@domain with no '@' in the domain is stored as local@lower(domain), so kim@Kakao.COM is stored as kim@kakao.com |
| KakaoOAuth.NormalizedFixed | backend/api/services_oauth.py:136-140 | an address already in local@lower(domain) form is left unchanged |
| KakaoOAuth.NormalizeEmailIdempotent | backend/api/services_oauth.py:136-140 | normalizing a stored address again changes nothing |
| KakaoOAuth.NewUserKeepsUnique | backend/api/services_oauth.py:133-152 | adding a user with a free username and the next id keeps usernames unique and ids ascending |
| Decimal.NatToString | backend/api/views.py:144-149 | str of a natural number is a nonempty string of digits |
| Decimal.ParseNatToString | backend/api/views.py:144-149 | reading back the digits gives the number |
| Decimal.NatToStringInjective | backend/api/views.py:144-149 | different numbers have different texts |
| Sorting.InsertBy | backend/api/serializers.py:126 | inserting into a sorted list keeps it sorted and adds exactly the element |
| Sorting.SortBy | backend/api/serializers.py:126 | the result is sorted by the key and a permutation of the input |
| Sorting.Take | backend/api/views.py:133 | slicing [:n] keeps the first min(n, len) elements, a sub-multiset of the input |
| Sorting.TakeOfSorted | backend/api/views.py:133 | an element of a sorted list left out of the first n has a key no smaller than every kept one |
| ConfirmDialog.OrDefault | frontend/src/hooks/useConfirmDialog.js:14-19 | an omitted option takes its default and a given one is kept |
| ConfirmDialog.Dialog.constructor | frontend/src/hooks/useConfirmDialog.js:4-12 | closed, empty title and message, variant 'default', texts '확인' / '취소', no pending request |
| ConfirmDialog.Dialog.Confirm | frontend/src/hooks/useConfirmDialog.js:14-19 | opens with the given title and message and defaults for omitted options; the new request replaces a pending one without answering it |
| ConfirmDialog.Dialog.Close | frontend/src/hooks/useConfirmDialog.js:21-31 | closing answers the pending request once and clears it, changing nothing but isOpen among the shown fields |
| ConfirmDialog.Dialog.OnConfirm | frontend/src/hooks/useConfirmDialog.js:21-25 | closes, resolves the pending request with true, leaves none pending; a second call resolves nothing |
| ConfirmDialog.Dialog.OnCancel | frontend/src/hooks/useConfirmDialog.js:27-31 | closes, resolves the pending request with false, leaves none pending; a second call resolves nothing |
| TemplateEditor.EmptySlots | frontend/src/admin/pages/AdminTemplateEdit.jsx:14-19 | a new template has exactly 25 empty slots |
| TemplateEditor.LoadSlots | frontend/src/admin/pages/AdminTemplateEdit.jsx:53-60 | the rebuilt array has 25 slots and equals placing the in-range items one after another |
| TemplateEditor.LastAt | frontend/src/admin/pages/AdminTemplateEdit.jsx:55-58 | empty iff no item has the position, else the restaurant of such an item |
| TemplateEditor.Placed | frontend/src/admin/pages/AdminTemplateEdit.jsx:53-60 | the grid keeps its size after placing the items one after the other, in-range ones only (PlacedIsLastAt gives each slot) |
| TemplateEditor.PlacedIsLastAt | frontend/src/admin/pages/AdminTemplateEdit.jsx:53-60 | each slot holds the restaurant of the last item at its position, so out-of-range items are dropped and later items win |
| TemplateEditor.WithItem | frontend/src/admin/pages/AdminTemplateEdit.jsx:85-91 | one slot takes the choice and the other slots are unchanged |
| TemplateEditor.ItemsFrom | frontend/src/admin/pages/AdminTemplateEdit.jsx:103-107 | the listed items come from nonempty slots, in strictly ascending position, and every nonempty slot is listed |
| TemplateEditor.SubmittedItems | frontend/src/admin/pages/AdminTemplateEdit.jsx:103-107 | the submitted items are one per nonempty slot, distinct positions in ascending order |
| TemplateEditor.FilledFromIsItemCount | frontend/src/admin/pages/AdminTemplateEdit.jsx:136 | the count of nonempty slots equals the number of listed items |
| TemplateEditor.FilledCountIsItemCount | frontend/src/admin/pages/AdminTemplateEdit.jsx:136 | filledCount equals the length of the submitted list and is at most 25 |
| TemplateEditor.RoundTrip | frontend/src/admin/pages/AdminTemplateEdit.jsx:53-107 | loading items with distinct in-range positions and saving without edits gives back exactly those items, ordered by position |
| TemplateEditor.TrimStart | frontend/src/admin/pages/AdminTemplateEdit.jsx:96 | the result is a suffix of the input that does not start with white space |
| TemplateEditor.TrimEnd | frontend/src/admin/pages/AdminTemplateEdit.jsx:96 | the result is a prefix of the input that does not end with white space |
| TemplateEditor.Trim | frontend/src/admin/pages/AdminTemplateEdit.jsx:96 | definition: String.prototype.trim as both ends trimmed; TrimEmpty states when nothing is left |
| TemplateEditor.TrimStartEmpty | frontend/src/admin/pages/AdminTemplateEdit.jsx:96 | trimming the start leaves nothing iff every character is white space |
| TemplateEditor.TrimEmpty | frontend/src/admin/pages/AdminTemplateEdit.jsx:96-99 | a title trims to nothing iff it is empty or all white space |
| TemplateEditor.TrimEndKeepsFirst | frontend/src/admin/pages/AdminTemplateEdit.jsx:96 | trimming the end keeps a first character that is not white space |
| TemplateEditor.Editor.constructor | frontend/src/admin/pages/AdminTemplateEdit.jsx:14-19 | empty title and category, active, 25 empty slots, nothing sent |
| TemplateEditor.Editor.Load | frontend/src/admin/pages/AdminTemplateEdit.jsx:47-67 | missing texts become empty, a missing is_active becomes true, and the grid is rebuilt from the items |
| TemplateEditor.Editor.HandleItemChange | frontend/src/admin/pages/AdminTemplateEdit.jsx:85-91 | only the chosen slot changes |
| TemplateEditor.Editor.HandleSubmit | frontend/src/admin/pages/AdminTemplateEdit.jsx:93-120 | a blank or whitespace-only title sends nothing; otherwise one request carries the title, the category or null, is_active and the submitted items |
| ReviewForm.FormErrors | frontend/src/components/forms/ReviewForm.jsx:19-37 | image flagged iff missing; content iff shorter than 10; rating iff missing or outside 1..5; visit date iff empty, each independently |
| ReviewForm.NoKeys | frontend/src/components/forms/ReviewForm.jsx:39 | no keys iff the error set is empty |
| ReviewForm.Form.constructor | frontend/src/components/forms/ReviewForm.jsx:10-17 | empty content, rating 5, today's date, no image, no errors |
| ReviewForm.Form.ValidateForm | frontend/src/components/forms/ReviewForm.jsx:19-40 | the errors become the set of failing fields, and the result is true iff that set is empty |
| ReviewForm.Form.HandleImageChange | frontend/src/components/forms/ReviewForm.jsx:42-53 | a chosen file replaces the image and clears only the image error |
| ReviewForm.Form.RemoveImage | frontend/src/components/forms/ReviewForm.jsx:101-104 | the image is dropped and the errors stay |
| ReviewForm.Form.HandleInputChange | frontend/src/components/forms/ReviewForm.jsx:55-59 | the named input changes and only its error is cleared |
| ReviewForm.Form.HandleRatingChange | frontend/src/components/forms/ReviewForm.jsx:61-64 | the rating changes and only the rating error is cleared |
| ReviewForm.Form.HandleSubmit | frontend/src/components/forms/ReviewForm.jsx:66-82 | an invalid form never reaches onSubmit; a valid one submits its content, rating, visit date and image once |
| ReviewForm.ChecksMatchServer | frontend/src/components/forms/ReviewForm.jsx:26-36 | the rating checks agree with the server's; content or a date the form refuses the server refuses too; for content without surrounding white space or NUL the content checks agree; a date the server reads as a day passes both; and a form that passes, with such content and date, never fails the server's field validators |
| ReviewForm.PaddedContentRejectedByServer | frontend/src/components/forms/ReviewForm.jsx:26-27 | "abc" followed by ten spaces, with any valid visit date, passes every form check but the server flags its content and nothing else, because only three characters survive the trim |
| AdminUsers.BuildParams | frontend/src/admin/pages/AdminUsers.jsx:22-25 | the page is always sent, and each filter exactly when it is not empty |
| AdminUsers.TotalPages | frontend/src/admin/pages/AdminUsers.jsx:67 | totalPages is ceil(count / 20): enough pages for every row and none empty, zero only for no rows |
| AdminUsers.RangeStart | frontend/src/admin/pages/AdminUsers.jsx:211 | definition: the first row number shown, (p-1)*20+1 |
| AdminUsers.RangeEnd | frontend/src/admin/pages/AdminUsers.jsx:212 | definition: the last row number shown, min(p*20, count) |
| AdminUsers.Prev | frontend/src/admin/pages/AdminUsers.jsx:216 | definition: max(1, p-1) |
| AdminUsers.Next | frontend/src/admin/pages/AdminUsers.jsx:226 | definition: min(totalPages, p+1) |
| AdminUsers.Refused | frontend/src/admin/pages/AdminUsers.jsx:48-53 | definition: the handler refuses switching off a flag of the signed-in admin's own account |
| AdminUsers.ToggleDisabled | frontend/src/admin/pages/AdminUsers.jsx:173-188 | definition: a toggle is disabled while its user updates, or when it would switch off one's own flag |
| AdminUsers.RangeWithinCount | frontend/src/admin/pages/AdminUsers.jsx:211-212 | on pages 1..totalPages the shown range (p-1)*20+1..min(p*20, count) is nonempty, within the count, at most 20 rows, and adjoins the next page's range |
| AdminUsers.StepsStayInRange | frontend/src/admin/pages/AdminUsers.jsx:216-226 | prev and next keep the page in 1..totalPages and move by one when they can |
| AdminUsers.EnabledToggleNotRefused | frontend/src/admin/pages/AdminUsers.jsx:173-188 | a toggle the guard would refuse is always disabled, so an enabled toggle is never refused |
| AdminUsers.UsersPage.constructor | frontend/src/admin/pages/AdminUsers.jsx:10-13 | page 1, empty filters, count 0 with no next or previous link, nobody updating, nothing sent |
| AdminUsers.UsersPage.HandleFilterChange | frontend/src/admin/pages/AdminUsers.jsx:41-44 | one filter takes the new value and the page returns to 1 |
| AdminUsers.UsersPage.HandleToggle | frontend/src/admin/pages/AdminUsers.jsx:46-57 | switching off one's own flag sends nothing; otherwise the user is marked as updating and one request sends the negated value of exactly that field |
| AdminUsers.UsersPage.ToggleSettled | frontend/src/admin/pages/AdminUsers.jsx:62-64 | after the request settles nobody is updating |
| AdminUsers.UsersPage.Loaded | frontend/src/admin/pages/AdminUsers.jsx:28-33 | setPagination: the response's count and its next and previous links replace the old ones; page, filters and updates stay |
| AdminUsers.UsersPage.GoPrev | frontend/src/admin/pages/AdminUsers.jsx:207-219 | with more than one page and a previous link, the page becomes max(1, p-1) |
| AdminUsers.UsersPage.GoNext | frontend/src/admin/pages/AdminUsers.jsx:207-229 | with more than one page and a next link, the page becomes min(totalPages, p+1) |
| Confetti.Left | frontend/src/constants/confetti.js:19 | the horizontal position lies in 0..99 |
| Confetti.ItemAt | frontend/src/constants/confetti.js:17-24 | id is the index; left in 0..99; duration in {2,3,4}; size in {8,10,12,14}; even indices orange, odd gold |
| Confetti.GenerateConfettiItems | frontend/src/constants/confetti.js:16-25 | exactly 50 pieces, ids 0..49, with the ranges above and colour alternating by parity |
| Confetti.LeftInverse | frontend/src/constants/confetti.js:19 | the index below 100 is recovered from the horizontal position |
| Confetti.LeftDistinct | frontend/src/constants/confetti.js:19 | no two of the 50 pieces share a horizontal position |
| ClassNames.Text | frontend/src/utils/cn.js:8 | a kept argument contributes nonempty text, a string itself |
| ClassNames.Kept | frontend/src/utils/cn.js:8 | the kept texts are nonempty, no more than the arguments, and none exactly when every argument is falsy |
| ClassNames.Join | frontend/src/utils/cn.js:8 | joining nothing gives '' and joining one part gives that part |
| ClassNames.Cn | frontend/src/utils/cn.js:8 | definition: the truthy arguments joined with single spaces; CnEmpty, CnSingle, CnDropsFalsy and CnAppend state its behaviour |
| ClassNames.JoinNonEmpty | frontend/src/utils/cn.js:8 | joining nonempty parts gives nonempty text |
| ClassNames.JoinAppend | frontend/src/utils/cn.js:8 | joining two lists puts one space between their joins when both are nonempty |
| ClassNames.KeptAppend | frontend/src/utils/cn.js:8 | filtering keeps argument order across a concatenation |
| ClassNames.CnEmpty | frontend/src/utils/cn.js:8 | the result is '' iff no argument is truthy |
| ClassNames.CnSingle | frontend/src/utils/cn.js:8 | one truthy string comes back unchanged, with no separator |
| ClassNames.CnDropsFalsy | frontend/src/utils/cn.js:8 | a falsy argument anywhere changes nothing |
| ClassNames.CnAppend | frontend/src/utils/cn.js:8 | two argument lists give their results in order, separated by one space when both are nonempty |
| AdminLayout.ActivePaths | frontend/src/admin/components/AdminLayout.jsx:46-51 | a path is listed iff it belongs to an entry that is active on the pathname |
| AdminLayout.IsActive | frontend/src/admin/components/AdminLayout.jsx:46-51 | definition: the dashboard needs an exact match, every other entry a prefix match |
| AdminLayout.FourEntries | frontend/src/admin/components/AdminLayout.jsx:5-10 | four entries: dashboard, restaurants, templates, categories, the last three under '/admin' |
| AdminLayout.DashboardExactOnly | frontend/src/admin/components/AdminLayout.jsx:46-49 | the dashboard entry is active iff the pathname is exactly '/admin' |
| AdminLayout.SubpageNotDashboard | frontend/src/admin/components/AdminLayout.jsx:47-49 | on any '/admin/...' subpage the dashboard entry is not active |
| AdminLayout.TemplateEditPageExample | frontend/src/admin/components/AdminLayout.jsx:46-51 | '/admin/templates/3' activates the templates entry and no other |
| AdminLayout.NotSegmentAwareExample | frontend/src/admin/components/AdminLayout.jsx:50 | the prefix test is on characters: '/admin/templatesarchive' activates the templates entry |
| AdminLayout.PrefixOfPrefix | frontend/src/admin/components/AdminLayout.jsx:50 | two prefixes of one pathname are prefixes of each other |
| AdminLayout.NoneActive | frontend/src/admin/components/AdminLayout.jsx:46-51 | with no entry active the active list is empty |
| AdminLayout.ExclusiveActive | frontend/src/admin/components/AdminLayout.jsx:46-51 | when no two entries are active together, at most one path is active |
| AdminLayout.SectionPathsUnrelated | frontend/src/admin/components/AdminLayout.jsx:7-9 | no section path starts with another |
| AdminLayout.AtMostOneActive | frontend/src/admin/components/AdminLayout.jsx:5-51 | on any pathname at most one sidebar entry is active |
| Layout.FilterShown | frontend/src/components/Layout.jsx:21-23 | an entry is kept iff it needs no sign-in or the user is signed in; signed in, the list is unchanged |
| Layout.FilteredNavItems | frontend/src/components/Layout.jsx:21-23 | definition: the header entries filtered by sign-in state (FilteredExamples and ShownIff give the result) |
| Layout.IsHighlighted | frontend/src/components/Layout.jsx:41 | definition: an entry is highlighted iff the pathname equals its path |
| Layout.FilteredExamples | frontend/src/components/Layout.jsx:4-23 | logged out: home, templates, leaderboard in that order (3); logged in: all four |
| Layout.ShownIff | frontend/src/components/Layout.jsx:7-23 | an entry is shown iff it needs no sign-in or the user is signed in; '/boards' only when signed in |
| Layout.AtMostOneHighlighted | frontend/src/components/Layout.jsx:41 | the paths are distinct, so at most one entry is highlighted |
| Layout.SubpageHighlightsNothing | frontend/src/components/Layout.jsx:41 | the highlight needs exact equality: '/boards/7' highlights no entry |

## Left out

- Rendering, styling, toasts, `alert`, navigation after saving, loading spinners and modals are not modelled; only the decisions behind them are.
- HTTP and database access become values, parameters and class fields. Transactions, query sets, React Query and axios are not modelled. The clock is the `now` parameter of `ReviewViews.Create`.
- The Kakao token and user-info requests are not modelled. `GetOrCreateUser` starts from the parsed user info.
- Floating point is not modelled. This covers the progress percentage, the confetti delay and the sub-second part of a duration; durations are whole seconds.
- `Leaderboard.FastestBoards`: boards with equal elapsed time keep their input order. The database gives no order for ties.
- `Leaderboard.MostCompletions`: likewise, users with equal counts keep their input order.
- `ReviewViews.Create` checks, like `ReviewCreateSerializer`, only that the restaurant is in the board's template. Whether the board belongs to the author is not checked here either.
- `ReviewSocial.SocialStore.Comments`: the comment serializer's validation is not part of this model. Its verdict is the `contentAccepted` parameter.
- `ReviewSocial.SocialStore.ToggleLike` takes an authenticated user. The login requirement is a permission class, which is not modelled.
- `KakaoOAuth.GenerateUniqueUsername` does not check Django's 150-character username limit.
- `ReviewForm.ChecksMatchServer`: the form checks the untrimmed length and the server checks the trimmed one. A form that passes can therefore still be refused by the server when the content is padded with white space or holds a NUL character. The lemma promises agreement only for content without either; `ReviewForm.PaddedContentRejectedByServer` shows the gap. The form only checks that a date was chosen. The lemma therefore promises a passing form only for a date the server reads as a day; the browser's date input gives YYYY-MM-DD, and `ReviewViews.IsoFormatParses` shows that every such day is read back.
- `ReviewViews.ParseDate`: only the YYYY-M-D shape with ASCII digits is modelled. The other ISO forms that Python 3.11's `date.fromisoformat` accepts are not modelled, and neither are non-ASCII digits or a trailing newline that parse_date's regular expression lets through.
- `ReviewViews.CheckRequest`: the board and restaurant keys are taken to name existing rows. An unknown restaurant is refused as `NotInTemplate` rather than as a field error.
- `KakaoOAuth.NormalizeEmail` lower-cases only the ASCII letters of the domain. Python's `str.lower` also folds letters of other scripts.
- `ReviewViews.FieldErrors`: the NUL check is the default `ProhibitNullCharactersValidator` of a DRF `CharField`, and the trim is its default `trim_whitespace`. White space is Python's `str.isspace` by code point. The field's own error messages are not modelled.
- `ReviewForm.FormErrors` counts characters. JavaScript's `length` counts UTF-16 code units and Python's `len` counts code points. These differ only for characters outside the Basic Multilingual Plane.
- `ReviewForm.Form`: the image preview (FileReader) is not modelled. Nor is the `isSubmitting` state that disables the submit button.
- `TemplateEditor.Editor`: `handleChange` for title, category and is_active is a plain field write and is not modelled. Nor are failed loads or saves.
- `TemplateEditor.Editor.HandleItemChange` takes the chosen restaurant id directly, not the select's text and `parseInt`. Its position is on the grid because the grid renders exactly one select per slot.
- `AdminUsers.UsersPage`: the user rows themselves are not modelled, only the pagination they come with (`Loaded`). The error toast is not modelled.
- AdminTemplates.jsx repeats the same pagination arithmetic and is not modelled separately.
- `AdminLayout`: the `sidebarOpen` state is not modelled.
- Server-side rules against removing the last admin and against self-demotion are not modelled, because the view that implements them is not part of this model.
- `Confetti.GenerateConfettiItems` is deterministic by construction, since it is a function of no arguments; no separate lemma states this.
