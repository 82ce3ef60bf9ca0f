# BirdLiferQuiz core in Dafny

This project models the list-and-quiz logic of the BirdLiferQuiz web
application: the `App` component in `src/App.tsx`. The model turns the
component's state and handlers into pure functions over sequences of species
records. A record holds an `id`, a scientific `name`, an optional
`preferred_common_name`, an optional `default_photo` and a `rank`, and its
display name is `preferred_common_name || name`. The random draws, the
network lookups and the locale comparison are parameters of the model.

The modules follow the structure of the component:

- `Seqs`: `Option`, and the array methods the component uses. `Filter`,
  `Find` and `slice` (`Take`) each have a specification independent of how
  they are computed.
- `Text`: `split` on one character, `trim`, `toLowerCase`, and
  `getLastName`.
- `Species`: the record, its display name, and removing entries by id.
- `Shuffle`: `shuffleArray`, the in-place Fisher–Yates loop, driven by an
  explicit sequence of draws.
- `Sorting`: the re-sort after an add, as a stable sort under an abstract
  comparator.
- `Search`: the pure part of `handleSearch`. It cuts the query into lines,
  picks a top hit per line, and drops the lines without one.
- `Quiz`: the question builder of `generatePhotoQuizQuestion`. It covers the
  target, the "smart" and "random" distractor pools, up to three
  distractors, and the shuffled options.
- `App`: the component state and the handlers `handleSearch`,
  `handleAddBird`, `handleDeleteBird`, `generatePhotoQuizQuestion`,
  `startPhotoQuiz` and `handlePhotoAnswerSelect`, each as a function from
  state to state.

## Model

| member | source | states |
|---|---|---|
| Shuffle.ShuffleArray | src/App.tsx:51-64 | The swap loop stays in bounds for every admissible sequence of draws. It returns a permutation of its input (same length, same multiset), and that permutation is the one the step-by-step reference `Shuffled` defines. |
| Shuffle.Admissible | src/App.tsx:56 | The draws read off any oracle values stay below `currentIndex` at every step, and draws that already do are used unchanged. |
| Shuffle.ShuffleBy | src/App.tsx:51-64 | Shuffling with any oracle values returns a permutation of the input. |
| Shuffle.Shuffled | src/App.tsx:53-63 | Swapping `currentIndex - 1` with each draw, from the top index down to 0, yields a permutation of the input. |
| Text.Split | src/App.tsx:69 | `split(sep)` yields at least one part and no part holds the separator. Joining the parts with the separator gives back the input. |
| Text.SplitJoin | src/App.tsx:69 | The reverse round trip: parts free of the separator come back unchanged from a join followed by a split. |
| Text.GetLastNameSpec | src/App.tsx:66-71 | The trailing word holds no space. It is the suffix of the name after its last space, and a name without a space is returned whole. The empty name gives the empty string. |
| Text.GetLastNameAfterSpace | src/App.tsx:66-71 | The trailing word of `prefix + " " + word` is `word` whenever `word` holds no space. |
| Text.Trim | src/App.tsx:79 | `trim()` returns a middle slice of the line: only ECMAScript whitespace and line terminators are cut, from both ends. When the result is not empty, it starts and ends with a character that is not whitespace. It is empty exactly when the line is all whitespace. |
| Text.Lower | src/App.tsx:100-102 | `toLowerCase()` keeps the length, leaves no upper-case ASCII letter, shifts each upper-case ASCII letter to its lower-case letter, and keeps every other character. |
| Text.LowerIdempotent | src/App.tsx:100-102 | Lower-casing an already lower-cased name changes nothing. |
| Species.DisplayName | src/App.tsx:189 | `preferred_common_name \|\| name`, also written at lines 147, 158, 197 and 225, is the common name when one is present and not empty. Otherwise it is the scientific name. |
| Seqs.Filter | src/App.tsx:79 | `filter` keeps exactly the elements that pass the test, with their multiplicities and in their relative order. |
| Seqs.Find | src/App.tsx:96-108 | `find` returns the first element that passes the test. It returns nothing exactly when no element passes. |
| Seqs.Take | src/App.tsx:214-220 | `slice(0, n)` returns the first `min(n, length)` elements. |
| Search.SearchLines | src/App.tsx:77-80 | The search lines are the non-blank parts of the query split on line feeds. Each keeps its multiplicity, the order is kept, and none holds a line feed. |
| Search.TopHit | src/App.tsx:96-108 | Any top hit is a candidate that is a species with a photo. The first candidate whose name or common name equals the trimmed line, ignoring case, wins. Failing that, the first species with a photo wins. There is no hit exactly when no candidate is a species with a photo. |
| Search.LineResult | src/App.tsx:86-113 | A failed lookup settles with no value. A value is always one of the lookup's candidates and a species with a photo. A lookup that succeeds settles with no value exactly when no candidate is a species with a photo. Otherwise it settles with `TopHit` of its candidates: the first exact name match that is a species with a photo, or else the first species with a photo (lines 105-108). |
| Search.SearchResults | src/App.tsx:117-123 | The results are the present per-line hits, in line order and with multiplicity. There are at most as many as lines, and each is a species with a photo. |
| Seqs.Somes | src/App.tsx:117-123 | Dropping the absent values keeps each present value as often as it occurs. |
| Seqs.SomesInOrder | src/App.tsx:117-123 | The present values keep their relative order. |
| App.HandleSearch | src/App.tsx:74-137 | A query with no non-blank line changes nothing. Otherwise the search results become the per-line hits. The error is set, to the source's message, exactly when there are none. No other state changes. |
| App.HandleAddBird | src/App.tsx:139-169 | If the id is already listed (`Species.HasId`, the `some` test at line 144), only the error changes, to "… is already in your list.". Otherwise the error is cleared and the list gains exactly the record. The list is sorted by display name whenever the comparator is consistent, and no search result keeps the record's id. No other state changes. |
| Sorting.SortBy | src/App.tsx:155-161 | The re-sorted list is a permutation of the appended list. |
| Sorting.SortBySorted | src/App.tsx:157-161 | Under a total-preorder comparator, the re-sorted list is ordered by display name. |
| Sorting.SortByStableFor | src/App.tsx:157-161 | Under a total-preorder comparator, any entries that the comparator ranks equal to one another come out in the order they went in. |
| Sorting.SortByStable | src/App.tsx:157-161 | Under a total-preorder comparator, the sort is stable in the sense `Array.prototype.sort` promises. For every key `w`, the entries whose key the comparator ranks equal to `w` (`le` holds both ways, as when `localeCompare` returns 0) come out in the order they went in. |
| Sorting.SortByKeepsKeyOrder | src/App.tsx:157-161 | As a special case, for every key `w`, the entries whose key is exactly `w` keep their input order. |
| App.UniqueIdsPreserved | src/App.tsx:143-173 | Adding and deleting both keep the ids in the list unique. |
| Species.WithoutId | src/App.tsx:173 | `filter(b => b.id !== id)` leaves no entry with the id. Every other entry keeps its multiplicity and its relative order. |
| App.HandleDeleteBird | src/App.tsx:171-174 | Deleting by id leaves no entry with that id. Every other entry stays, in its relative order, and no other state changes. |
| App.DeleteKeepsSorted | src/App.tsx:171-174 | Deleting keeps a list that is sorted by display name sorted. |
| App.GeneratePhotoQuizQuestion | src/App.tsx:177-236 | With fewer than two birds, the error is set and the mode returns to list management. Otherwise the selection and feedback are cleared and the new question's target is the drawn bird's display name and the drawn bird's photo URL (line 232), the photo the quiz shows. It has `min(3, others) + 1` options. As a multiset, the options are the drawn distractors' display names plus the target's name (lines 225-227). |
| Quiz.Drawn | src/App.tsx:188 | The target is an entry of the list, and an in-range draw picks exactly that index. |
| Quiz.Others | src/App.tsx:193 | `otherBirds` holds exactly the entries whose id differs from the target's, each with its multiplicity, and none with the target's id. |
| Quiz.SmartPool | src/App.tsx:196-199 | Every bird in the smart pool shares the target's trailing word. |
| Quiz.RandomPool | src/App.tsx:202-205 | Every bird in the random pool has a different trailing word. |
| Quiz.PoolsPartitionOthers | src/App.tsx:193-205 | The two pools split the other birds between them exactly. |
| Quiz.PickDistractors | src/App.tsx:210-222 | The picks are the first `min(k, smart)` smart birds followed by the first random birds, `min(k, smart + random)` in all. |
| Quiz.Distractors | src/App.tsx:193-222 | There are exactly `min(3, others)` distractors, drawn without repetition from the birds whose id differs from the target's. The leading ones share the target's trailing word and the rest do not. A bird with another trailing word is taken only after every bird of the smart pool. |
| Quiz.BuildQuestion | src/App.tsx:187-235 | The question's target is the drawn bird's display name and photo URL. The options are the distractors' names (`Quiz.Names`, line 225) plus the target's name, `min(3, others) + 1` of them. |
| Quiz.OptionCountUniqueIds | src/App.tsx:211-227 | With unique ids, a question over `n` birds has `min(4, n)` options. |
| Quiz.DuplicateDisplayNames | src/App.tsx:189-227 | Two records with different ids and the same display name give a question whose two options are both the correct name. |
| Quiz.ThreeBirdQuestion | src/App.tsx:193-227 | Take three birds where the target shares its trailing word with one other bird only. That bird forms the smart pool, the remaining bird forms the random pool, and the options are the three names. |
| Quiz.SunbirdExample | src/App.tsx:195-205 | Applied to the Sokoke Pipit, Amani Sunbird and Taita Sunbird, with the Amani Sunbird drawn, the options are the three names once each. |
| App.StartPhotoQuiz | src/App.tsx:238-247 | With fewer than two birds, only the error changes. Otherwise the error is cleared and the mode becomes the photo quiz. A fresh question's target is the drawn bird's display name and the drawn bird's photo URL (line 232). It has `min(3, others) + 1` options and is pending an answer. As a multiset, the options are the drawn distractors' display names plus the target's name. The list and the search results are unchanged. |
| App.StartThenAnswer | src/App.tsx:238-258 | After starting the quiz, the drawn bird's name is among the options, and an answer is graded correct exactly when it is that name. |
| App.HandlePhotoAnswerSelect | src/App.tsx:249-258 | Once feedback is set, nothing changes. Before that, the option becomes the selected answer and the feedback is correct exactly when the option equals the target's display name. |
| App.FirstAnswerBinding | src/App.tsx:251 | A second selection after the first changes nothing: the first answer is binding. |
| App.AnswerAfterQuestion | src/App.tsx:184-258 | Answering a freshly generated question is graded against that question's drawn bird. |

## Left out

- Hydrating and persisting the list through `localStorage` (src/App.tsx:19-27, 45-47) is browser I/O. When the saved list cannot be parsed, the source starts from an empty list.
- The autocomplete `fetch` calls and `Promise.allSettled` (src/App.tsx:86-94, 116) are network I/O. The model takes one `Response` per line instead: a failure, or the candidate list. Network errors, non-ok statuses and unreadable bodies all become a failure.
- The batch `catch` (src/App.tsx:131-134) is not modelled, because `Promise.allSettled` never rejects.
- App.HandleSearch: the search is modelled as one atomic step. In the source, the cleared results and error set at src/App.tsx:83-84 stay visible while the lookups run, until line 125 sets the new results. The `isSearching` flag (lines 82 and 136) is not modelled. It disables the search button (line 295), which is what keeps two searches from overlapping, so the model does not cover interleaved searches.
- The `isAdding` flag and all JSX rendering are presentation only.
- Two inline JSX handlers are not modelled. The header's "Manage List" button (src/App.tsx:516-519) clears the feedback and returns to list management. The error banner's Dismiss button (line 557) clears the error. Each is a single assignment of state fields.
- Shuffle.ShuffleArray: the source swaps in place in the caller's array and returns that same array. The model returns a new sequence. The difference cannot be observed, because src/App.tsx:207, 208 and 227 pass only arrays just built by `filter` or `map`/`push`, which no one else holds.
- `api/proxy-xeno.js` is not part of this model. It is an HTTP relay to a sound archive.
- `Math.random` is not modelled. It becomes explicit oracle values (`QuizDraws`). Each value is reduced below the bound the source multiplies by, so every outcome of `Math.floor(Math.random() * n)` is covered.
- Text.Lower: `toLowerCase` is modelled on the ASCII letters only. Other letters, such as `É`, are kept unchanged.
- Search.TopHit: because of that, the exact match differs from the source for names with non-ASCII capitals. For the query `émeu`, a candidate named `Émeu` is no exact match in the model, and an earlier species with a photo is picked instead, where the source picks `Émeu`. Queries and names in ASCII behave as in the source.
- App.HandleAddBird: `localeCompare` becomes an abstract comparator `le`. Sortedness is promised only when `le` is a total preorder, because locale collation cannot be specified here.
- App.HandlePhotoAnswerSelect: requires a question whenever no feedback is set. The source reads `quizQuestion.bird.name` and would throw without one.
- The "exactly one correct option" property is not claimed, because two records with different ids can share a display name (Quiz.DuplicateDisplayNames).
- Saved or named lists, streaks and high scores, an audio quiz mode, retry with backoff, and batched or rate-limited lookups have no code in `src/App.tsx`, so none of them is modelled.
