# Activities store of the Hackaru desktop client, in Dafny

This project models the Vuex store module that the Hackaru desktop
time-tracker uses for *activities* (`src/renderer/store/modules/activities.js`).
An activity is a time-tracked work session. It may have a project and a
description. It has a start time and, once stopped, a stop time. The activity
with no stop time is the running timer, called the *working* activity.

The module has four parts, and each is modelled in its own form:

- **The search getter** is a pure chain of `filter`, `sort`, `slice` and
  `uniqBy` over the cached activities. Here it is the function
  `SearchRanker.Search`, built from one function per step, with lemmas about
  each step (`search.dfy`). The file `search_examples.dfy` works the getter on
  small caches.
- **The working getter** is a `find` over the cache. Here it is the function
  `WorkingActivity.Working`. Lemmas beside it relate it to the rule that at
  most one timer runs (`working.dfy`).
- **The notification text** is the project name or "No Project", followed by
  " - " and the description when there is one: `Notification.Message`
  (`notification.dfy`).
- **The actions and mutations** change shared state step by step. Here they
  are the class `Activities.ActivityController` (`controller.dfy`). It holds
  the two flags `stopOnSuspend` and `stopOnShutdown` and the cached
  activities. It also keeps a log of the requests sent to the server and a
  log of the notices shown. Each server call is an explicit argument, either
  `Ok(data)` or `Failed`.

The shared entity cache is a sequence of activities in the order the cache
enumerates them. The function `EntityStore.AsMap` reads it as a dictionary
keyed by id (`entity_store.dfy`). `Merge` and `Remove` model the cache's
`entities/merge` and `entities/delete` actions. Lemmas prove what each of them
does to that dictionary.

Choices made where the source leaves room:

- JavaScript truthiness is written out. A description counts only when it is
  present and not the empty string (`HasDescription`). An activity is running
  when its `stoppedAt` is absent (`IsRunning`).
- Timestamps are integers. `compareDesc` becomes a comparison of those
  integers. The time `new Date()` that `stop` sends is the parameter `now`.
- `Array.prototype.sort` is stable. The ranking is therefore a stable
  insertion sort, newest first, and `RankIsStable` proves that it is stable.
- The `uniqBy` key is `JSON.stringify({project, description})`. It is
  modelled as structural equality of the pair (`PairKey`).
- The undefined result of `stop` with no working activity is `None`. Its
  true and false results are `Some(true)` and `Some(false)`.

## Model

| member | source | states |
|---|---|---|
| `Activities.ActivityController.constructor` | src/renderer/store/modules/activities.js:10-13 | both flags start true; the cache is the one handed in and no request or notice has been made |
| `Activities.ActivityController.Search` | src/renderer/store/modules/activities.js:30-48 | sends `GET /v1/search?q=`; on success the returned batch is merged into the cache, on failure the cache is unchanged |
| `Activities.ActivityController.FetchWorking` | src/renderer/store/modules/activities.js:49-64 | sends `GET /v1/activities/working`; on success the returned record is merged, on failure the cache is unchanged |
| `Activities.ActivityController.Update` | src/renderer/store/modules/activities.js:65-88 | sends the whole payload as a `PUT` to the payload's id; returns true exactly on success, merging the server's record; on failure returns false and leaves the cache as it was |
| `Activities.ActivityController.Stop` | src/renderer/store/modules/activities.js:89-121 | with no working activity: result undefined, no request, nothing changes; otherwise sends `PUT` with the working activity's id and stop time, returns true and merges the server's record and shows one "Timer Stopped." notice built from that record on success, returns false with cache and notices unchanged on failure |
| `Activities.ActivityController.Add` | src/renderer/store/modules/activities.js:122-149 | sends `POST` with the payload; returns true exactly on success, merging the server's record and showing one "Timer Started." notice built from it; on failure returns false with cache and notices unchanged |
| `Activities.ActivityController.Delete` | src/renderer/store/modules/activities.js:150-166 | the cache loses the record whatever the server answers (no rollback), the `DELETE` request is sent, and the result is true exactly on success |
| `Activities.ActivityController.SetStopOnSuspend` | src/renderer/store/modules/activities.js:167-169 | sets `stopOnSuspend` (the SET_STOP_ON_SUSPEND mutation); its frame allows no other field to change |
| `Activities.ActivityController.SetStopOnShutdown` | src/renderer/store/modules/activities.js:170-172 | sets `stopOnShutdown` (the SET_STOP_ON_SHUTDOWN mutation); its frame allows no other field to change |
| `Activities.StopThenStart` | src/renderer/store/modules/activities.js:89-149 | stopping the single running timer and then adding a running one leaves exactly the new one working and keeps the invariant; it sends the stop update for the working id and then the create request, and shows "Timer Stopped." for the stopped record and then "Timer Started." for the started one |
| `Notification.Message` | src/renderer/store/modules/activities.js:22-25 | the message starts with the project's name when there is a project and with "No Project" otherwise; it then has " - " and the description when the description is truthy, and nothing more otherwise |
| `Notification.MessageRecoversDescription` | src/renderer/store/modules/activities.js:22-25 | the description can be read back from the message after the label and the separator |
| `WorkingActivity.Working` | src/renderer/store/modules/activities.js:204-206 | returns nothing exactly when every cached activity has `stoppedAt` set; otherwise returns a running activity with no running activity before it in cache order |
| `WorkingActivity.AtMostOneRunningCount` | src/renderer/store/modules/activities.js:204-206 | the single-timer invariant `AtMostOneRunning` holds exactly when the set of running activities has at most one element |
| `WorkingActivity.WorkingIsTheRunningOne` | src/renderer/store/modules/activities.js:204-206 | when at most one activity runs, `working` is that one, whatever the cache order |
| `WorkingActivity.StopEndsWorking` | src/renderer/store/modules/activities.js:89-111 | merging the server's stopped record for the working activity leaves no working activity and keeps the single-timer invariant |
| `WorkingActivity.StartMakesWorking` | src/renderer/store/modules/activities.js:122-139 | with no timer running, merging a running record makes it the working activity and keeps the single-timer invariant |
| `WorkingActivity.StopThenStartWorking` | src/renderer/store/modules/activities.js:89-149 | merging the stopped record of the working activity and then a running record leaves the new one as the working activity and keeps the single-timer invariant |
| `Text.IndexOfFrom` | src/renderer/store/modules/activities.js:193 | returns the first position at or after the start where the query occurs, or -1 when it occurs nowhere there |
| `Text.IndexOf` | src/renderer/store/modules/activities.js:193 | `indexOf(text) >= 0` holds exactly when the query is a substring of the description (case-sensitive), and the position is the first occurrence |
| `SearchRanker.Matching` | src/renderer/store/modules/activities.js:191-193 | keeps exactly the cached activities whose description is truthy and contains the query |
| `SearchRanker.MatchingCounts` | src/renderer/store/modules/activities.js:192-193 | each matching activity is kept exactly as often as it occurs in the cache, and no other activity is kept |
| `SearchRanker.Insert` | src/renderer/store/modules/activities.js:194 | one insertion step of the sort grows the ranking by exactly one element (its content is stated by `InsertPermutes`, its order by `InsertRanked`) |
| `SearchRanker.InsertPermutes` | src/renderer/store/modules/activities.js:194 | inserting into the ranking adds exactly the new element and loses none (multiset) |
| `SearchRanker.InsertMembers` | src/renderer/store/modules/activities.js:194 | an insertion holds exactly the new element and the old ones |
| `SearchRanker.HeadIsNewest` | src/renderer/store/modules/activities.js:194 | the head of a newest-first sequence started no earlier than any of its elements |
| `SearchRanker.InsertRanked` | src/renderer/store/modules/activities.js:194 | inserting into a newest-first sequence keeps it newest first |
| `SearchRanker.RankByRecency` | src/renderer/store/modules/activities.js:194 | the sort keeps the length of its input (`RankPermutes`, `RankSorted` and `RankIsStable` state the rest) |
| `SearchRanker.RankPermutes` | src/renderer/store/modules/activities.js:194 | the sort's result is a permutation of its input |
| `SearchRanker.RankSorted` | src/renderer/store/modules/activities.js:194 | the sort's result is in non-increasing `startedAt` order (newest first) |
| `SearchRanker.InsertKeepsTies` | src/renderer/store/modules/activities.js:194 | an insertion puts the new element ahead of the elements it ties with and keeps their order |
| `SearchRanker.RankIsStable` | src/renderer/store/modules/activities.js:194 | the sort is stable: for every start time, the activities that started then keep their input order |
| `SearchRanker.Take` | src/renderer/store/modules/activities.js:195 | `slice(0, n)` keeps the first `n` elements, or all when there are fewer |
| `SearchRanker.TopRanked` | src/renderer/store/modules/activities.js:191-195 | exactly min(3, number of matches) elements, newest first, each a cached match; as a multiset the result is contained in the matches, so no match is repeated beyond its occurrences |
| `SearchRanker.TakeIsSubMultiset` | src/renderer/store/modules/activities.js:195 | `slice(0, n)` keeps occurrences of its input and adds none |
| `SearchRanker.TopRankedIsNewest` | src/renderer/store/modules/activities.js:194-195 | a match that the cap drops started no later than any match it keeps |
| `SearchRanker.FirstIndexOfKey` | src/renderer/store/modules/activities.js:197-202 | the first position holding a given (project, description) pair, or the length when no element holds it |
| `SearchRanker.UniqFrom` | src/renderer/store/modules/activities.js:197-202 | no result shares a pair with another result or with an already-seen pair, and the result is no longer than the input |
| `SearchRanker.UniqFromKeepsFirst` | src/renderer/store/modules/activities.js:197-202 | each kept element is the first element of the input with its pair |
| `SearchRanker.UniqFromKeepsOrder` | src/renderer/store/modules/activities.js:197-202 | kept elements are in the order of their pairs' first occurrences in the input |
| `SearchRanker.UniqFromKeys` | src/renderer/store/modules/activities.js:197-202 | exactly the input's pairs that were not already seen survive |
| `SearchRanker.UniqByKey` | src/renderer/store/modules/activities.js:197-202 | `uniqBy`: the pairs are distinct and are exactly the input's pairs; each pair's first occurrence is the element kept; the elements keep the order of first occurrence |
| `SearchRanker.Search` | src/renderer/store/modules/activities.js:188-203 | an empty query gives `[]`; otherwise there are at most 3 results; every result is a cached activity whose truthy description contains the query; results are newest first with distinct pairs; they hold exactly the pairs of the top 3 ranked matches, each as its first occurrence there |
| `SearchRanker.InsertKeys` | src/renderer/store/modules/activities.js:194 | an insertion adds exactly the new element's (project, description) pair |
| `SearchRanker.RankKeys` | src/renderer/store/modules/activities.js:194 | the sort keeps the set of (project, description) pairs |
| `SearchRanker.InsertKeepsDistinct` | src/renderer/store/modules/activities.js:194 | inserting an activity whose pair is new keeps the pairs distinct |
| `SearchRanker.RankKeepsDistinct` | src/renderer/store/modules/activities.js:194 | sorting a sequence with distinct pairs keeps them distinct |
| `SearchRanker.UniqFromDistinct` | src/renderer/store/modules/activities.js:197-202 | de-duplication returns its input unchanged when its pairs are distinct and none was already seen |
| `SearchRanker.SearchFullWhenPairsDistinct` | src/renderer/store/modules/activities.js:188-203 | when every match has its own pair, the suggestions are the capped ranking itself: 3 of them when there are 3 or more matches, all of them otherwise |
| `SearchRanker.UniqKeepsHead` | src/renderer/store/modules/activities.js:197-202 | the first ranked element always survives de-duplication, at the head |
| `SearchRanker.SearchLeadsWithMostRecent` | src/renderer/store/modules/activities.js:188-203 | when any cached activity matches a non-empty query, the first suggestion started no earlier than any match |
| `SearchRanker.SearchCompleteWhenFew` | src/renderer/store/modules/activities.js:194-202 | with at most 3 matches, every matching (project, description) pair is suggested |
| `SearchExamples.DuplicatePairsCollapse` | src/renderer/store/modules/activities.js:188-203 | of two matches with the same pair beside a non-match, only the more recent is suggested |
| `SearchExamples.CapPrecedesDedup` | src/renderer/store/modules/activities.js:194-202 | four matches with three distinct pairs, the two newest sharing a pair, give only two suggestions: the cap is applied before de-duplication |
| `SearchExamples.RankFour` | src/renderer/store/modules/activities.js:194 | four activities with strictly decreasing start times, given oldest first, are ranked newest first |
| `SearchExamples.DedupTwo` | src/renderer/store/modules/activities.js:197-202 | of two ranked activities sharing a pair, the second is dropped |
| `SearchExamples.DedupThree` | src/renderer/store/modules/activities.js:197-202 | of three ranked activities where the first two share a pair, the second is dropped |
| `SearchExamples.BuildApiExample` | src/renderer/store/modules/activities.js:188-203 | "build api", "build api", "fix bug" with query "build" suggest only the newer "build api", and the empty query suggests nothing |
| `EntityStore.AsMap` | src/renderer/store/modules/activities.js:185-187 | the dictionary view of the cache maps every id to a record with that id |
| `EntityStore.AsMapLookup` | src/renderer/store/modules/activities.js:185-187 | every value of the dictionary is a cached record, and with distinct ids the lookup of a cached record's id finds that record |
| `EntityStore.AsMapKeys` | src/renderer/store/modules/activities.js:185-187 | the dictionary view of the cache has exactly the cached ids as keys |
| `EntityStore.Merge` | src/renderer/store/modules/activities.js:78-82 | merging grows the cache by at most one record (`MergePlacement`, `MergeAsMap` and `MergeUnique` state where it lands and what it replaces) |
| `EntityStore.MergePlacement` | src/renderer/store/modules/activities.js:78-82 | the merged record is in the cache; a record with a new id is appended at the end; a record with a known id keeps the length; records with other ids keep their positions |
| `EntityStore.MergeAsMap` | src/renderer/store/modules/activities.js:78-82 | merging one record sets its id to it and leaves every other id as it was |
| `EntityStore.MergeUnique` | src/renderer/store/modules/activities.js:78-82 | merging keeps the ids distinct, and afterwards each record is the merged one or an old one with another id |
| `EntityStore.MergeAll` | src/renderer/store/modules/activities.js:40-44 | merging a batch keeps the ids distinct |
| `EntityStore.MergeAllKeys` | src/renderer/store/modules/activities.js:40-44 | after a batch merge, the ids are the old ids plus the batch's |
| `EntityStore.MergeAllKeepsOthers` | src/renderer/store/modules/activities.js:40-44 | after a batch merge, ids outside the batch keep their records |
| `EntityStore.MergeAllLastWins` | src/renderer/store/modules/activities.js:40-44 | after a batch merge, the last record of the batch with a given id is the one stored |
| `EntityStore.Remove` | src/renderer/store/modules/activities.js:152 | a delete never grows the cache (`RemoveMembers` and `RemoveAsMap` state what remains) |
| `EntityStore.RemoveMembers` | src/renderer/store/modules/activities.js:152 | after a delete, the cache holds exactly the old records with other ids |
| `EntityStore.RemoveAsMap` | src/renderer/store/modules/activities.js:152 | a delete takes exactly that id out of the dictionary view |
| `EntityStore.RemoveUnique` | src/renderer/store/modules/activities.js:152 | a delete keeps the ids distinct |
| `EntityStore.RemoveIdempotent` | src/renderer/store/modules/activities.js:152 | deleting an id twice leaves the cache as deleting it once |

## Left out

- The HTTP transport (`auth-api/request`) is not modelled. Each request's outcome is a `Response` argument. The request itself is only logged: its URL, method and body.
- Toast error reporting (`toast/error`) is not modelled. It is a fire-and-forget side channel, and a failure shows up only as the `false` result or an unchanged cache.
- The OS notifier and the icon path it is given are not modelled. The path comes from `process.env` and `process.resourcesPath`. Only the title and the message of each notice are modelled.
- The internals of the entity cache are not part of this model: normalizr schemas, nested project entities, and the merge of individual fields. A merged record replaces the cached record with the same id as a whole.
- `FetchWorking` takes a record on success. What the cache does when the server answers with no record is not part of this model.
- Dates are not modelled. Timestamps are integers, so date-string parsing, invalid dates and time zones are absent.
- `uniqBy`'s key is `JSON.stringify`. A missing project and a `null` project give different strings, but the model has a single `None` for both. It also ignores the order of the keys inside the project object.
- The cache's enumeration order is an assumption. The entity module is not part of this model, and the model lists a record with a new id after every cached one. A JavaScript object keyed by integer ids enumerates them in ascending order instead. The order matters only for which timer `working` returns when more than one runs, and for which of two matches with equal start times ranks first.
- Strings are sequences of Unicode scalar values; JavaScript strings are UTF-16 code units. `indexOf(text) >= 0` agrees on well-formed strings, but the position it returns and string lengths can differ for characters outside the Basic Multilingual Plane, and lone surrogates cannot be represented.
- Concurrency is not modelled. Actions are async, but each one is taken as atomic, so overlapping calls and their races are left out. In particular, the window in `delete` between the local removal and the server's answer is not represented.
- The getters `all`, `stopOnSuspend` and `stopOnShutdown` read state directly. They are the `store` field and the two flag fields of the class.
