# Pending matches and match list of a dislike-based friend matcher

This project models the client-side match bookkeeping of a friend-matching
app. Users are matched on things they hate. The two React components that do
the work are modelled in Dafny. The replies of the server are inputs here.

- `PendingMatches` models `client/components/matches.jsx`, the pending-matches
  card. When it mounts, it counts for each candidate the shared-dislike rows
  whose other side is that candidate, and maps the count to a tier: 0 is
  'no longer a match', 1–4 'good', 5–9 'great', 10 'perfect', and above 10
  the tier stays `''` (`Tier.Unset`). It builds one pair record per candidate,
  with the smaller user id first and each demo id beside its own user id. It
  copies each tier into the candidates the record names. It merges the pair
  statuses returned by the post-matches call into the candidates. It keeps the
  pairs that are still pending, that the signed-in user has not answered, and
  that are still a match. `render` picks the first entry still pending.
  Accept or Decline sends the ordered pair key with the user's own status
  column, then patches `newUserStatus` on the entries of that pair, in place.
- `MatchList` models `client/pages/match-list.jsx`, the list of all matches. The
  get-matches reply is grouped into perfect, great, good and 'no longer a
  match', each group in input order. Rows of any other type are dropped. The
  sentinel 'no matches yet' passes through unchanged. Each card gets a label
  and a colour class. The grid gets a column-count class from the list length.
- `Common` holds what both share: `Option` (JavaScript's `undefined`), the
  `Tier` datatype with the wire names of the tiers, the label "X Match!" and
  its colour, and the JavaScript string operations used (`toUpperCase` on one
  character, `slice` with negative positions).

State that the source mutates in place is modelled in place.
`potentialMatches` is an `array<Candidate>`, and the methods that change it
say what every element becomes. The list the card reads when a button is
clicked or a card is chosen is an array as well (`PatchNewUserStatus`,
`SelectCard`). The merge methods build `matchesToDisplay` as a
`seq<Candidate>` of values, which they return. The grouping, counting and
merging loops are methods with loop invariants. Most of them are proved equal
to a specification function (`SharedCount`, `Grouped`, `DisplayList`,
`PushedByStatus`, `Patched`), and lemmas state the properties of those
functions. `SelectCard` states its result directly.

## Model

| member | source | states |
|---|---|---|
| `PendingMatches.StatusUpdateFor` | client/components/matches.jsx:26-34 | for two different ids the request's `userId1 < userId2`; the two ids are the current and the other user; the status column is `user1Status` exactly when the current id is the smaller one, and it is the current user's column |
| `PendingMatches.StatusUpdateSymmetric` | client/components/matches.jsx:26-34 | whichever of two different users clicks, the request names the same ordered pair, and the two name opposite columns |
| `PendingMatches.StatusUpdateNamesRecord` | client/components/matches.jsx:132-142 | the pair a click sends is the pair of the record built on mount for the same two users |
| `PendingMatches.TierOf` | client/components/matches.jsx:119-127 | 'no longer a match' exactly for count 0, 'perfect' exactly for 10, and the tier is left unset exactly above 10 |
| `PendingMatches.TierBands` | client/components/matches.jsx:121-124 | 'good' exactly for counts 1–4 and 'great' exactly for 5–9 |
| `PendingMatches.TierMonotone` | client/components/matches.jsx:119-127 | over the counts 0..10 a larger count never gives a weaker tier |
| `PendingMatches.CollectOtherUsers` | client/components/matches.jsx:97-107 | `otherUsers` has one entry per shared-dislike row: `userId2` if `userId1` is the signed-in user, else `userId1` |
| `PendingMatches.CountOccurrences` | client/components/matches.jsx:110-118 | the counter equals the number of occurrences of the candidate's id in `otherUsers` |
| `PendingMatches.OccurrencesAreShared` | client/components/matches.jsx:98-118 | that number equals the number of shared-dislike rows whose other side is the candidate |
| `PendingMatches.PairRecordFor` | client/components/matches.jsx:128-149 | the record's `userId1 <= userId2`; the (id, demo id) pairs of the record are those of the user and the candidate; the tier is carried unchanged |
| `PendingMatches.BuildMatchTypes` | client/components/matches.jsx:94-151 | `allMatchTypes` has one record per potential match, in order: the pair record of the user and that candidate, tiered by their shared-row count |
| `PendingMatches.PairRecordsContainUser` | client/components/matches.jsx:109-150 | each record contains the signed-in user and the candidate of its position, with the smaller id first, and is 'no longer a match' exactly when the two share no row |
| `PendingMatches.ApplyMatchTypes` | client/components/matches.jsx:153-159 | each candidate takes the tier of the last record naming it on either side; a candidate no record names is unchanged |
| `PendingMatches.LastTierIsOwn` | client/components/matches.jsx:153-159 | when the candidate ids are distinct and differ from the user's, each candidate ends with the tier of its own record |
| `PendingMatches.LastRowFor` | client/components/matches.jsx:176-191 | the row merged into a candidate is the last row of the reply that names it, and there is none exactly when no row names it |
| `PendingMatches.Merged` | client/components/matches.jsx:178-190 | a merged candidate keeps its id and demo id and takes the pair, the three statuses, the selections and the tier from the row, with `newUserStatus` pending |
| `PendingMatches.MergedOverwrites` | client/components/matches.jsx:209-221 | merging a row gives the same entry whatever earlier rows left in the candidate |
| `PendingMatches.MergeCandidate` | client/components/matches.jsx:175-191 | in place, the candidate becomes itself merged with the last row naming it and no other entry changes; `currentUser` is the signed-in user's side in that row, undefined when no row names the candidate |
| `PendingMatches.MergeByCandidate` | client/components/matches.jsx:173-203 | each candidate becomes itself merged with the last status row naming it; the displayed list is the kept merged candidates in candidate order |
| `PendingMatches.DisplayListIsSubsequence` | client/components/matches.jsx:173-203 | the displayed list is an order-preserving subsequence of the candidates without repeats, and a candidate is in it exactly when a row names it and merged it is shown |
| `PendingMatches.DisplayListShown` | client/components/matches.jsx:193-201 | every displayed entry had a status row, its pair is pending, the user's own status is pending, its type is not 'no longer a match', and its `newUserStatus` is pending |
| `PendingMatches.MergeRow` | client/components/matches.jsx:206-232 | one row merged, in place, into exactly the candidates it names; the entries pushed are `PushedForRow`: those candidates merged, when shown, in candidate order |
| `PendingMatches.PushedByStatusShown` | client/components/matches.jsx:209-230 | every entry pushed in that branch is shown and pending when pushed, and is one candidate merged with one row naming it |
| `PendingMatches.MergeByStatus` | client/components/matches.jsx:204-234 | each candidate ends merged with the last row naming it; the list is exactly `PushedByStatus`: row by row, each candidate the row names, merged with it, when shown, each entry as it was when pushed |
| `PendingMatches.PushedThenAnswered` | client/components/matches.jsx:204-233 | with three candidates and two rows for one pair, the second of which accepts, the entry pushed at the first row is merged by the second into one that is not shown |
| `PendingMatches.LoadPendingMatches` | client/components/matches.jsx:170-235 | either branch leaves every candidate merged with its last row; every entry is shown and pending when pushed; the list is exactly `DisplayList` with no more candidates than rows, and exactly `PushedByStatus` otherwise |
| `PendingMatches.FindMatches` | client/components/matches.jsx:89-236 | the whole mount: the pair records, then the tiers copied in, then the statuses merged; each entry is shown and pending when pushed, and the list is exactly the one the branch gives for the tiered candidates |
| `PendingMatches.PatchNewUserStatus` | client/components/matches.jsx:52-57 | in place, exactly the entries of the submitted pair get `newUserStatus = status`; every other entry and every other field is unchanged |
| `PendingMatches.Patched` | client/components/matches.jsx:53-55 | an entry of the pair gets the new `newUserStatus`, any other entry stays as it was |
| `PendingMatches.HandleSubmit` | client/components/matches.jsx:16-61 | a click sends the ordered request and patches the displayed entries of that pair |
| `PendingMatches.ClickNamesCard` | client/components/matches.jsx:26-34 | the pair a click sends is the card's own pair, when the card holds the signed-in user and the candidate in order |
| `PendingMatches.AnswerMovesCard` | client/components/matches.jsx:16-57 | after the signed-in user answers the card on show, with the pair the click sends, no entry up to it is pending any more, and later entries of other pairs are untouched; the card holds its pair in order |
| `PendingMatches.SelectCard` | client/components/matches.jsx:257-267 | selects the first entry whose `newUserStatus` is pending, nothing when none is or the list is undefined, and `moreThan3` exactly when the selected entry has more than three shared selections |
| `PendingMatches.CardDescription` | client/components/matches.jsx:294-297 | the card label is undefined exactly for an undefined type; otherwise it is the type with its first letter upper-cased, followed by " Match!" |
| `Common.LabelColour` | client/components/matches.jsx:299-306 | yellow, green and danger exactly for "Perfect Match!", "Great Match!" and "Good Match!", and no colour for any other label |
| `PendingMatches.CardLabels` | client/components/matches.jsx:294-306 | the card labels the tiers "Perfect Match!", "Great Match!", "Good Match!" (yellow, green, danger); 'no longer a match' and an undefined type get no colour |
| `MatchList.GroupOf` | client/pages/match-list.jsx:67-75 | a row falls in one of the four groups exactly when its type names that tier |
| `MatchList.GroupMatches` | client/pages/match-list.jsx:59-83 | the sentinel passes through unchanged; otherwise the result is the perfect, great, good and 'no longer a match' rows, each group in input order |
| `MatchList.GroupedStable` | client/pages/match-list.jsx:66-80 | the rows of any tier taken from the output are the rows of that tier in the input, in input order |
| `MatchList.GroupedIdempotent` | client/pages/match-list.jsx:66-80 | grouping the grouped list returns it unchanged |
| `MatchList.GroupedPermutation` | client/pages/match-list.jsx:66-76 | the output is a permutation of the recognised input rows, and its length is their number |
| `MatchList.GroupedAt` | client/pages/match-list.jsx:77-80 | the row at each output position belongs to the group that position falls in |
| `MatchList.GroupedOrdered` | client/pages/match-list.jsx:77-80 | the output runs from perfect to 'no longer a match' |
| `MatchList.RowColsClass` | client/pages/match-list.jsx:116-126 | one column per match up to three; unset for an empty list and for the sentinel |
| `MatchList.Description` | client/pages/match-list.jsx:130-137 | the label is undefined exactly for an undefined type and starts with the type's first letter upper-cased; any type but 'no longer a match' is followed by " Match!" |
| `MatchList.ColourClass` | client/pages/match-list.jsx:139-148 | yellow, green and danger exactly for the three labels of the good tiers, and grey exactly for every other label |
| `MatchList.TierLabels` | client/pages/match-list.jsx:131-148 | labels "Perfect Match!", "Great Match!", "Good Match!" and, from the slices, "No longer a Match."; colours yellow, green, danger and grey |
| `MatchList.GroupedLabels` | client/pages/match-list.jsx:128-148 | every row of the grouped list has a non-empty type, and its colour follows its tier: yellow, green, danger, or grey for 'no longer a match' |

## Left out

- Every `fetch`, `localStorage` read, `setState`, JSX element and DOM event read. The replies of the find-matches, post-matches and get-matches calls are parameters. The status-update request is a returned value, and the patch runs as if the server had answered.
- The 'no potential matches exist' reply of the find-matches call. It only ends the loading state, so it is not modelled as an operation. A null array given to `SelectCard` stands for the `matchesToDisplay` it leaves undefined.
- The display fields of a candidate (`age`, `firstName`, `gender`, `mileage`, `url`, `fileName`) and the profile-picture choice. The card only shows them; no logic reads them.
- `PendingMatches.MergeByStatus`, `PendingMatches.LoadPendingMatches` and `PendingMatches.FindMatches` do not model object aliasing. In the source, the objects pushed onto `matchesToDisplay` are the same objects as those in `potentialMatches`. In the branch with more candidates than status rows, a later row can merge into a pushed object again. The model copies values, so these members state each entry as it was when it was pushed (`PushedByStatus`). They claim nothing about the entry's final state, and that state need not be shown or pending. `PendingMatches.PushedThenAnswered` proves an example. Take user 1, candidates 2, 3 and 4, and the rows (1, 2, pending, pending, pending, 'good') then (1, 2, accepted, pending, pending, 'good'). Candidate 2 is pushed at the first row, and the second row then merges it into an entry that is not shown. In the source, the pushed object is that same entry, and `render` can still offer its card.
- `parseInt` of the clicked button's `userid` attribute, which could give `NaN`. Ids are integers here.
- `toUpperCase` is modelled for the ASCII letters only. The strings it meets here are tier names and are ASCII.
- `PendingMatches.CardDescription` and `MatchList.Description`: an empty `matchType` string would make the page throw at `matchType[0].toUpperCase()`. Both functions exclude it by a precondition. The client sends `''` only for a count above ten. A user has one dislike per category and there are ten categories, so that count does not occur.
- Status strings are the datatype `Status`. A status value outside pending, accepted and rejected is not modelled.
- Server-side candidate selection, distance, age and gender filtering, and the reconciliation that produces the post-matches reply. Their code is not part of this model. Also left out: sign-in, registration, routing (`client/app.jsx`) and the map page (`client/pages/match-map.jsx`).
