# Recruitment core of the crews server, in Dafny

This project models the recruitment module of a club-recruitment server: a club
publishes a recruitment form, starts it, and announces the outcomes.
Three parts are modelled:

- **The `Recruitment` entity** (`recruitment.dfy`, module `RecruitmentDomain`).
  It is a class with the fields `progress`, `closingDate` and `sections` that its methods update in place.
  The public constructor validates the closing date against "now", starts at `READY`,
  and takes ownership of its sections by rewriting each section's back-reference.
  `Start` and `Announce` are the state transitions. `UpdateClosingDate` is the validated setter.
  `IsAnnounced` is the guard predicate.
- **The title search index** (`search_cache_store.dfy`, module `SearchCacheStore`, built on
  `lex_order.dfy` and `seqs.dfy`). It is a sorted set whose members all have score 0.
  Prefix search is emulated by a lexicographic range query `[prefix, prefix + U+FFFF)`.
  At most `2 * limit` candidates are fetched, re-filtered with `startsWith`, and cut to `limit`.
- **The recruitment service** (`recruitment_service.dfy`, module `RecruitmentService`, built on
  `grouping.dfy`). `GetRecruitmentDetails` fails with `RECRUITMENT_NOT_FOUND` on an unknown id.
  Otherwise it groups the narrative and selective questions of the recruitment's sections by section
  (`groupingBy`). The save, progress and deadline operations apply one mutation to the accessed
  recruitment and then save it. The announcement guard refuses a recruitment that is already announced.

Modelling choices:

- Timestamps are integers, and "now" is a parameter. `isBefore` is strict, so a closing date
  equal to now is accepted.
- The constructor throws before it assigns anything. It is modelled as the static method
  `Recruitment.Create`, which returns `Err(InvalidClosingDate)` or a fresh recruitment.
  The constructor `Init` is its field-initialisation part.
- Strings are `seq<char>`. Characters compare by code point, which is also the order of their
  UTF-8 bytes, the order the sorted-set store uses. The order is the project's own `LexLess`.
- The sorted set is the field `titles: set<string>`. Its range query `RangeByLex` returns the
  members of `[lo, hi)` in ascending order, at most `count` of them. The walk is `TakeAscending`, a
  selection of the least remaining member, proved equal to `Take(Ascending(s), count)`.
  `Ascending(s)` is the unique strictly ascending enumeration of `s` (`AscendingUnique`).
- `LexOrder.SentinelRange` proves which titles the range `[p, p + U+FFFF)` holds: exactly those
  that start with `p` and whose next character, if any, sorts before U+FFFF. A title whose character
  right after the prefix is U+FFFF or above is therefore never found. With the empty prefix, this
  excludes the titles that begin with such a character. This is recorded under "## Findings", with
  a corrected search over the upward-open range `[prefix, +)`.
- The recruitment store is a map from id to `RecruitmentState`, the value of a recruitment's fields.
  The question repositories are the stored question lists, and a query keeps the questions whose
  section is one of the recruitment's (`section in :sections`), in stored order.
- Recruitment.java defines no `updateAll`, `updateProgress` or `updateDeadline`, though
  RecruitmentService.java:39, 47 and 67 call them. The model takes the three mutators as parameters of type
  `(RecruitmentState, request) -> Result<RecruitmentState>`. Section.java is not part of this model;
  `Section.updateRecruitment` is modelled as a setter of the section's back-reference.
- RecruitmentService.java has no announcement method. RecruitmentServiceTest.java:142 and 167 call
  `announceRecruitmentOutcome`, so its `ALREADY_ANNOUNCED` guard is taken from the test. The model's
  version checks `IsAnnounced` and calls `Announce`.
- The code has no hour-alignment check on the closing date. It has no forward-only guard on
  `start()` or `announce()`, and no "only while READY" guard on updates. The model follows the code
  and adds none of these guards.

## Model

| member | source | states |
|---|---|---|
| `RecruitmentDomain.Recruitment.Create` | src/main/java/com/server/crews/recruitment/domain/Recruitment.java:67-84 | Fails with INVALID_CLOSING_DATE exactly when the closing date is strictly before now, and then no section changes. Otherwise it gives a fresh recruitment with progress READY, with id, code, title, description, closing date, publisher and sections as given, and every section pointing back at it. The sections' names are unchanged. |
| `RecruitmentDomain.ValidateClosingDate` | src/main/java/com/server/crews/recruitment/domain/Recruitment.java:80-84 | Refuses with INVALID_CLOSING_DATE exactly when the closing date is strictly before now; a date equal to now passes. |
| `RecruitmentDomain.Recruitment.AddSections` | src/main/java/com/server/crews/recruitment/domain/Recruitment.java:86-89 | Every added section points back at this recruitment. The list becomes the old list followed by the added sections in order. Section names are unchanged, and ownership of the prior sections is kept. |
| `RecruitmentDomain.Recruitment.Start` | src/main/java/com/server/crews/recruitment/domain/Recruitment.java:91-93 | Progress becomes IN_PROGRESS, unconditionally, so the recruitment is no longer announced, and no other field changes. |
| `RecruitmentDomain.Recruitment.Announce` | src/main/java/com/server/crews/recruitment/domain/Recruitment.java:95-97 | Progress becomes ANNOUNCED, so `isAnnounced()` holds afterwards, and no other field changes. |
| `RecruitmentDomain.Recruitment.UpdateClosingDate` | src/main/java/com/server/crews/recruitment/domain/Recruitment.java:99-102 | Fails with INVALID_CLOSING_DATE exactly for a date before now and leaves the closing date unchanged. Otherwise the closing date equals the argument. Nothing else changes. |
| `RecruitmentDomain.Recruitment.IsAnnounced` | src/main/java/com/server/crews/recruitment/domain/Recruitment.java:104-106 | Holds exactly when the progress that a save persists is ANNOUNCED. `Announce` establishes it and `Start` clears it. |
| `SearchCacheStore.RecruitmentSearchCacheStore.SaveRecruitmentTitle` | src/main/java/com/server/crews/recruitment/repository/RecruitmentSearchCacheStore.java:22-24 | The stored titles become the old set plus the title. Saving a present title changes nothing, and no other member is affected. |
| `SearchCacheStore.RecruitmentSearchCacheStore.RangeByLex` | src/main/java/com/server/crews/recruitment/repository/RecruitmentSearchCacheStore.java:30-33 | Returns the stored members of `[lo, hi)` in strictly ascending order, the first `count` of them. |
| `SearchCacheStore.TakeAscending` | src/main/java/com/server/crews/recruitment/repository/RecruitmentSearchCacheStore.java:30-33 | Walking a set of members from the least upwards and stopping after `count` gives its first `count` members in ascending order, and no more than `count`. |
| `SearchCacheStore.RecruitmentSearchCacheStore.FindRecruitmentTitlesByPrefix` | src/main/java/com/server/crews/recruitment/repository/RecruitmentSearchCacheStore.java:26-39 | The result is the first `limit` searchable titles in ascending order. It has at most `limit` elements, is strictly ascending (so it has no duplicates), and every element is stored and starts with the prefix. |
| `SearchCacheStore.FilterByPrefix` | src/main/java/com/server/crews/recruitment/repository/RecruitmentSearchCacheStore.java:35-36 | The filter keeps only candidates that start with the prefix, and it never grows the list. `FilterByPrefixComplete` gives the converse. |
| `SearchCacheStore.FilterByPrefixKeepsAll` | src/main/java/com/server/crews/recruitment/repository/RecruitmentSearchCacheStore.java:35-36 | When every candidate starts with the prefix, the filter removes nothing. |
| `SearchCacheStore.FilterByPrefixComplete` | src/main/java/com/server/crews/recruitment/repository/RecruitmentSearchCacheStore.java:35-36 | Every candidate that starts with the prefix is kept. |
| `SearchCacheStore.FilterByPrefixAppend` | src/main/java/com/server/crews/recruitment/repository/RecruitmentSearchCacheStore.java:35-36 | Filtering a concatenation filters each part, in order. |
| `LexOrder.SentinelRange` | src/main/java/com/server/crews/recruitment/repository/RecruitmentSearchCacheStore.java:27-30 | A string lies in `[p, p + d)` if and only if it starts with `p` and its next character, if any, sorts before `d`. |
| `SearchCacheStore.RangeOfPrefixIsSearchable` | src/main/java/com/server/crews/recruitment/repository/RecruitmentSearchCacheStore.java:27-30 | The stored titles in `[prefix, prefix + U+FFFF)` are exactly the searchable titles. |
| `SearchCacheStore.CandidatesFilterToSearch` | src/main/java/com/server/crews/recruitment/repository/RecruitmentSearchCacheStore.java:31-38 | Filtering the `2 * limit` fetched candidates and cutting them to `limit` gives the first `limit` searchable titles. The over-fetch never changes the answer. |
| `SearchCacheStore.PrefixSearchSound` | src/main/java/com/server/crews/recruitment/repository/RecruitmentSearchCacheStore.java:32-38 | The answer has `min(limit, k)` titles, where k is the number of searchable titles. It is strictly ascending, and each title is stored and starts with the prefix. |
| `SearchCacheStore.PrefixSearchComplete` | src/main/java/com/server/crews/recruitment/repository/RecruitmentSearchCacheStore.java:27-38 | The answer has `min(limit, k)` titles, where k is the number of searchable titles. A searchable title is missing only when `limit` titles that sort before it were returned. |
| `SearchCacheStore.EmptyPrefixSearch` | src/main/java/com/server/crews/recruitment/repository/RecruitmentSearchCacheStore.java:27-38 | With the empty prefix, the answer is the first `limit` stored titles in ascending order, excluding titles that begin with U+FFFF or above. |
| `SearchCacheStore.SearchBackExample` | src/main/java/com/server/crews/recruitment/repository/RecruitmentSearchCacheStore.java:26-39 | Over {"Backend Club", "Back Office", "Design Club"}, the prefix "Back" with limit 10 gives ["Back Office", "Backend Club"]. |
| `SearchCacheStore.SearchZzzExample` | src/main/java/com/server/crews/recruitment/repository/RecruitmentSearchCacheStore.java:26-39 | Over the same titles, the prefix "Zzz" gives the empty list. |
| `SearchCacheStore.SearchEmptyPrefixExample` | src/main/java/com/server/crews/recruitment/repository/RecruitmentSearchCacheStore.java:26-39 | Over the same titles, the empty prefix with limit 2 gives the first two titles in order. |
| `SearchCacheStore.DelimiterMissesAstralTitle` | src/main/java/com/server/crews/recruitment/repository/RecruitmentSearchCacheStore.java:27-38 | A title "Club" followed by U+1F981 starts with "Club", yet the search for "Club" returns nothing; the intended search returns that title. |
| `SearchCacheStore.AscendingFromPrefix` | src/main/java/com/server/crews/recruitment/repository/RecruitmentSearchCacheStore.java:27-33 | Among the stored titles at or above the prefix, the ascending order lists every title that starts with the prefix first, then the rest. |
| `SearchCacheStore.UnboundedCandidatesFilterToSearch` | src/main/java/com/server/crews/recruitment/repository/RecruitmentSearchCacheStore.java:31-38 | Taking `2 * limit` members of `[prefix, +)`, filtering by `startsWith` and cutting to `limit` gives the first `limit` titles that start with the prefix. |
| `SearchCacheStore.IntendedPrefixSearchComplete` | src/main/java/com/server/crews/recruitment/repository/RecruitmentSearchCacheStore.java:26-39 | A stored title that starts with the prefix is missing from the intended answer only when `limit` titles were returned. |
| `SearchCacheStore.RecruitmentSearchCacheStore.FindRecruitmentTitlesByPrefixUnbounded` | src/main/java/com/server/crews/recruitment/repository/RecruitmentSearchCacheStore.java:26-39 | The corrected search, over `[prefix, +)`, returns the first `limit` stored titles that start with the prefix, in ascending order. |
| `LexOrder.Ascending` | src/main/java/com/server/crews/recruitment/repository/RecruitmentSearchCacheStore.java:32-33 | The enumeration of a set that the range query walks is strictly ascending, has the set's size, and holds exactly the set's members. |
| `LexOrder.AscendingUnique` | src/main/java/com/server/crews/recruitment/repository/RecruitmentSearchCacheStore.java:32-33 | A set has only one strictly ascending enumeration. |
| `LexOrder.LexLessTotal` | src/main/java/com/server/crews/recruitment/repository/RecruitmentSearchCacheStore.java:32-33 | Any two distinct strings are ordered one way or the other. |
| `LexOrder.LexLessTransitive` | src/main/java/com/server/crews/recruitment/repository/RecruitmentSearchCacheStore.java:32-33 | The lexicographic order is transitive. |
| `LexOrder.LexLessCommonPrefix` | src/main/java/com/server/crews/recruitment/repository/RecruitmentSearchCacheStore.java:32-33 | Putting the same prefix before two strings keeps their order. |
| `LexOrder.PrefixedBeforeOthers` | src/main/java/com/server/crews/recruitment/repository/RecruitmentSearchCacheStore.java:27-30 | Among strings at or above p, each string starting with p sorts below each one that does not. |
| `Seqs.Take` | src/main/java/com/server/crews/recruitment/repository/RecruitmentSearchCacheStore.java:37 | `limit(n)` returns a prefix of the stream with `min(n, size)` elements. |
| `Grouping.KeyIn` | src/main/java/com/server/crews/recruitment/repository/SelectiveQuestionRepository.java:11-16 | The query keeps only stored elements whose section is one of the given sections. |
| `Grouping.KeyInComplete` | src/main/java/com/server/crews/recruitment/repository/SelectiveQuestionRepository.java:11-16 | Every stored element whose section is one of the given sections is returned, so with `KeyIn` the query is exactly the `in :sections` filter. |
| `Grouping.Group` | src/main/java/com/server/crews/recruitment/application/RecruitmentService.java:58-61 | A group holds only input elements, each keyed by the group's key. |
| `Grouping.GroupingBy` | src/main/java/com/server/crews/recruitment/application/RecruitmentService.java:58-61 | Every key of the map holds a non-empty list, and each list holds only input elements under their own key. |
| `Grouping.GroupingByAt` | src/main/java/com/server/crews/recruitment/application/RecruitmentService.java:58-61 | A key is in the `groupingBy` map if and only if some element has it. Its list is exactly that key's elements in input order. |
| `Grouping.GroupCount` | src/main/java/com/server/crews/recruitment/application/RecruitmentService.java:58-61 | A group holds each element of its key exactly as often as the input does, and no element of another key. Nothing is dropped or duplicated. |
| `Grouping.GroupingByOfKeyIn` | src/main/java/com/server/crews/recruitment/application/RecruitmentService.java:54-61 | Grouping a `key in ks` query result: the keys are the members of ks that some stored element has, and each list is that key's stored elements in order. |
| `Grouping.GroupingByLosesNothing` | src/main/java/com/server/crews/recruitment/application/RecruitmentService.java:58-61 | Over distinct keys, the group sizes add up to the number of grouped elements. |
| `RecruitmentService.GetRecruitmentDetails` | src/main/java/com/server/crews/recruitment/application/RecruitmentService.java:51-63 | Fails with RECRUITMENT_NOT_FOUND if and only if the id is unknown. Otherwise it carries the stored recruitment. The keys of each map are exactly the recruitment's sections that have a question of that kind, and each section's list is exactly its stored questions, in order. |
| `RecruitmentService.FindAllBySectionIn` | src/main/java/com/server/crews/recruitment/application/RecruitmentService.java:55 | Returns exactly the stored narrative questions whose section is one of the recruitment's sections. |
| `RecruitmentService.FindAllWithChoicesInSections` | src/main/java/com/server/crews/recruitment/repository/SelectiveQuestionRepository.java:11-16 | Returns exactly the stored selective questions whose section is one of the recruitment's sections. |
| `RecruitmentService.DetailsKeyedBySection` | src/main/java/com/server/crews/recruitment/application/RecruitmentService.java:54-61 | Every question in either map sits under its own section, and that section is one of the recruitment's. |
| `RecruitmentService.DetailsLoseNothing` | src/main/java/com/server/crews/recruitment/application/RecruitmentService.java:54-61 | Over the recruitment's distinct sections, the group sizes of each map add up to the number of questions fetched. |
| `RecruitmentService.TwoSectionDetails` | src/test/java/com/server/crews/recruitment/application/RecruitmentServiceTest.java:99-125 | Two sections, each with one narrative question and one selective question of three choices, give 2 sections, 2 narrative questions, 2 selective questions and 6 choices. |
| `RecruitmentService.RecruitmentRepository.Save` | src/main/java/com/server/crews/recruitment/application/RecruitmentService.java:40 | The row under the recruitment's id becomes its current state, and the other rows are unchanged. |
| `RecruitmentService.ApplyThenSave` | src/main/java/com/server/crews/recruitment/application/RecruitmentService.java:35-69 | A successful mutation becomes the recruitment's state and the saved row. A refused one returns its error and changes and saves nothing. |
| `RecruitmentService.SaveRecruitment` | src/main/java/com/server/crews/recruitment/application/RecruitmentService.java:35-41 | Applies `updateAll(request)` once to the accessed recruitment, then saves that same object. The persisted row is the post-mutation state. |
| `RecruitmentService.UpdateProgressState` | src/main/java/com/server/crews/recruitment/application/RecruitmentService.java:43-49 | Applies `updateProgress(request.progress)` once, then saves. The persisted row is the post-mutation state. |
| `RecruitmentService.UpdateDeadline` | src/main/java/com/server/crews/recruitment/application/RecruitmentService.java:65-69 | Applies `updateDeadline(request.deadline)` once, then calls save, as the method body does. The model's save writes the post-mutation state; the transaction the method runs in is not modelled. |
| `RecruitmentService.AnnounceRecruitmentOutcome` | src/test/java/com/server/crews/recruitment/application/RecruitmentServiceTest.java:152-170 | On an announced recruitment, fails with ALREADY_ANNOUNCED and changes and saves nothing. Otherwise the recruitment becomes ANNOUNCED and is saved. |
| `RecruitmentService.AnnounceTwice` | src/test/java/com/server/crews/recruitment/application/RecruitmentServiceTest.java:127-170 | Announcing twice: the first call succeeds, the second fails with ALREADY_ANNOUNCED, and the recruitment stays announced. |

## Findings

| source | as written | input that shows it | evidently intended | confidence | as-written member | corrected member |
|---|---|---|---|---|---|---|
| src/main/java/com/server/crews/recruitment/repository/RecruitmentSearchCacheStore.java:28-30 | The range query's upper bound is the prefix followed by U+FFFF. In the store's UTF-8 byte order, every character above U+FFFF (lead byte F0-F4) sorts after it. | Stored title "Club" followed by U+1F981, prefix "Club": the title starts with the prefix but lies outside `[prefix, prefix + U+FFFF)`, so the search returns nothing. | Every stored title that starts with the prefix is found, up to `limit`, for example by querying `[prefix, +)` and filtering. | medium, not executed | `SearchCacheStore.DelimiterMissesAstralTitle` | `SearchCacheStore.RecruitmentSearchCacheStore.FindRecruitmentTitlesByPrefixUnbounded` |

`FindRecruitmentTitlesByPrefix` still models the code as written, with the U+FFFF bound.
`FindRecruitmentTitlesByPrefixUnbounded` is the corrected search. It is proved equal to `IntendedPrefixSearch`,
and `IntendedPrefixSearchComplete` says that every title starting with the prefix is found unless `limit` titles come first.

## Left out

- Authentication (AuthService, AuthController, AuthenticationValidator): token issuing and checking, cookies, HTTP routing and the aspect advice are plumbing around collaborators (the token provider) outside the modelled files.
- EmailEventListener and the OutcomeDeterminedEvent that an announcement publishes: after-commit delivery to an external mail service is transaction-phase behaviour and external I/O.
- RecruitmentDetailsResponse.from, the DTO mapping, is not modelled. The details stop at the recruitment state and the two maps it is built from.
- Persistence-engine behaviour: cascade and orphan removal, generated ids, the `@CreatedDate` timestamp, and the transaction rollback itself. A refused mutation is modelled as changing nothing.
- ApplyThenSave: assumes a mutator that fails changes nothing in the recruitment. The mutators' bodies are not in Recruitment.java, so a partial in-memory change before an exception is not modelled.
- The store's network calls and concurrency, and any difference between the store's byte order and Java's UTF-16 code-unit order. Both sides use the code-point order here.
- FindRecruitmentTitlesByPrefix: takes `limit` as a natural number. It does not model the 32-bit overflow of `limit * 2` for limits of 2^30 or more, or the exception a negative limit raises in `Stream.limit`.
- UpdateDeadline: the source method has no write transaction of its own and so runs under the class-level read-only transaction (RecruitmentService.java:28, 65-69), where the persistence layer may never flush the save. The model's save ignores transaction modes and always writes the row.
- The system clock: "now" is a parameter.
- Guards the code does not have: hour alignment of the closing date, forward-only progress transitions, "update only while READY", and announcing only from IN_PROGRESS. The model follows the code.
- A "has the deadline passed" predicate: Recruitment.java has none.
- The other repositories (ApplicationRepository, RecruitmentDslRepository): interface declarations whose results would be abstract inputs. Only the `section in :sections` filter of the question queries is kept.
