# slovi dictionary client — a verified model of its core

slovi is a Czech–English dictionary web client. This project models its client-side logic
in Dafny:

- **Word-detail data preparation** (`WordDetail` module).
  - A root word's forms are grouped by grammatical category, in order of first appearance.
  - Tense forms are sorted stably by plurality rank, then person rank.
  - Each section is split into a three-form preview and a remainder.
  - Each category gets a label and icon, with "Other" as the fallback.
  - A row description is built from person, gender, plurality and tense.
  - Examples are looked up by word-form id.
- **The search hook** (`DictionarySearch` module, class `SearchCoordinator`).
  - It keeps the raw query text, and separately a committed query fed through a funnel whose pending value is replaced by each new keystroke.
  - A search runs only at or above a minimum query length.
  - The exposed loading flag is masked below that length.
  - There is a reset.
- **The autocomplete helpers** (`DictionaryAutocomplete` module).
  - Abbreviation tables for word types and aspects.
  - The `id-form` row key and the selection handler it drives.
  - The three mutually exclusive status messages.
- **The collapsible section** (`Expandable` module, class `ExpandableSection`): the `isExpanded` flag, its toggle, the button label and the count badge.

Supporting modules:

- `Wrappers`: `Option`.
- `Schema`: the database's enumerations.
- `Records`: a root word, a word form, an example sentence and a search result, with JavaScript truthiness of optional strings.
- `Text`: `Array.prototype.join` and the decimal rendering of integers in template strings.

## Model

| member | source | states |
|---|---|---|
| WordDetail.MetaFor | src/components/dictionary/WordDetail.tsx:168 | A listed category gets its own table entry; any other category gets the "Other" entry with the ellipsis icon. |
| WordDetail.MetaOfSchemaCategory | src/components/dictionary/WordDetail.tsx:29-37 | Among the database's categories, only `voice` falls back to "Other"; `tense` is "Tenses" with the timer icon. |
| WordDetail.SchemaRanks | src/components/dictionary/WordDetail.tsx:39-40 | singular < plural < 99, and person 1 < 2 < 3 < 99; a missing or empty person ranks 99. |
| WordDetail.PluralityRank | src/components/dictionary/WordDetail.tsx:97 | A plurality ranks between 0 and 99, and below 99 exactly when it is listed in the plurality table. |
| WordDetail.PersonRank | src/components/dictionary/WordDetail.tsx:99 | A person ranks between 0 and 99, and below 99 exactly when it is present and listed in the person table; a missing person ranks 99. |
| WordDetail.Compare | src/components/dictionary/WordDetail.tsx:96-100 | The comparator is zero exactly when both ranks agree and negative exactly when the first form comes earlier in (plurality rank, person rank) lexicographic order. |
| WordDetail.CompareIsRankComparison | src/components/dictionary/WordDetail.tsx:96-100 | The sort comparator equals the comparison of the (plurality rank, person rank) keys. |
| WordDetail.CompareKeysOrder | src/components/dictionary/WordDetail.tsx:96-100 | The comparator is antisymmetric and transitive, and it is zero exactly on equal keys, so it is a consistent comparator. |
| WordDetail.SortForms | src/components/dictionary/WordDetail.tsx:94-101 | Non-tense groups come back unchanged. A tense group comes back as a permutation of its input, sorted by the key, with each key's forms in input order (stability). |
| WordDetail.SortPermutation | src/components/dictionary/WordDetail.tsx:96 | The insertion sort returns a permutation of its input. |
| WordDetail.SortSorted | src/components/dictionary/WordDetail.tsx:96-100 | The insertion sort's result is ordered by the comparator. |
| WordDetail.SortStable | src/components/dictionary/WordDetail.tsx:96-100 | For every key, the forms of that key appear in the same order before and after sorting. |
| WordDetail.StableSortIsUnique | src/components/dictionary/WordDetail.tsx:96-100 | Two sequences that are both sorted and agree on every key's forms are equal, so any stable sort with this comparator gives exactly `SortForms`' result. |
| WordDetail.TenseOrderExample | src/components/dictionary/WordDetail.tsx:94-101 | (plural,2), (singular,1), (singular,3), (plural,1) sorts to (singular,1), (singular,3), (plural,1), (plural,2). |
| WordDetail.Categories | src/components/dictionary/WordDetail.tsx:156-166 | The group keys have no duplicates and contain exactly the categories that occur among the forms. |
| WordDetail.CategoryOf | src/components/dictionary/WordDetail.tsx:158 | A form's category is never empty: it is the form type's category when that is present and non-empty, and "other" otherwise. |
| WordDetail.UncategorisedFormGoesToOther | src/components/dictionary/WordDetail.tsx:155-177 | A form with no form type or an empty category lies in the section keyed "other". |
| WordDetail.GroupMembers | src/components/dictionary/WordDetail.tsx:156-164 | A group holds exactly the input forms of its category. |
| WordDetail.GroupByCategory | src/components/dictionary/WordDetail.tsx:156-164 | The reduce loop's keys are the categories in first-appearance order; it has a list for exactly those keys, and each list is that category's forms in input order. |
| WordDetail.MakeSection | src/components/dictionary/WordDetail.tsx:166-176 | A section keeps its key and gets `MetaFor(key)`. Its forms are the sorted group, the preview is min(3, n) long, and preview followed by rest is the sorted forms, together a permutation of the group. |
| WordDetail.SectionAt | src/components/dictionary/WordDetail.tsx:166-176 | The section at each position is the one built from the key at that position and its group, so there is one section per key, in key order. |
| WordDetail.BuildSections | src/components/dictionary/WordDetail.tsx:155-177 | The two-loop construction (group into a keyed object, then map its entries) returns exactly `SectionsOf(forms)`. |
| WordDetail.SectionsPartitionForms | src/components/dictionary/WordDetail.tsx:155-177 | All sections' forms, concatenated, are a permutation of the input, and no two sections share a category. |
| WordDetail.FormInExactlyItsSection | src/components/dictionary/WordDetail.tsx:156-164 | Each form's category has a section, and the form lies in that section and in no other. |
| WordDetail.SectionShape | src/components/dictionary/WordDetail.tsx:166-176 | In every section the preview is the first min(3, n) forms and the rest is what follows. A non-tense section keeps its group's input order, and a section holds as many forms as its group. |
| WordDetail.VoiceSectionIsLabelledOther | src/components/dictionary/WordDetail.tsx:168 | A `voice` section is labelled "Other" but keeps the key `voice`. |
| WordDetail.ToggleIffMoreThanPreview | src/components/dictionary/WordDetail.tsx:142-146 | A section has expanded content, and so a toggle, exactly when its group has more than 3 forms. |
| WordDetail.MountSection | src/components/dictionary/WordDetail.tsx:137-147 | The box rendered for a section has the section's label as title and its form count as count. It has a toggle exactly when `rest` is non-empty, and it starts collapsed. |
| WordDetail.DescriptionParts | src/components/dictionary/WordDetail.tsx:45-50 | Every collected description part is non-empty. |
| WordDetail.PersonLabel | src/components/dictionary/WordDetail.tsx:47 | The person part ends in " Person", preceded by the ordinal for a listed person and by the person itself otherwise. |
| WordDetail.SchemaPersonLabels | src/components/dictionary/WordDetail.tsx:40 | The schema's persons 1, 2 and 3 read "1st Person", "2nd Person" and "3rd Person". |
| WordDetail.FormatFormDescription | src/components/dictionary/WordDetail.tsx:45-52 | The description is the present parts (person label, gender, plurality, tense) joined by single spaces. It is "" exactly when all four are absent. |
| WordDetail.DescriptionExample | src/components/dictionary/WordDetail.tsx:45-52 | A first-person singular present form reads "1st Person singular present". |
| WordDetail.BuildExamplesMap | src/components/dictionary/WordDetail.tsx:59-63 | The map's keys are exactly the examples' form ids. |
| WordDetail.ExampleLookupLastWins | src/components/dictionary/WordDetail.tsx:59-63 | Looking up an id yields nothing exactly when no example has it; otherwise it yields the czech/english pair of the last example with that id. |
| WordDetail.ExampleFor | src/components/dictionary/WordDetail.tsx:76 | A row's example is absent exactly when no example has the form's id; otherwise it is the entry of the last example with that id. |
| WordDetail.ViewOf | src/components/dictionary/WordDetail.tsx:181-202 | The view shows a spinner while loading and the failure message on an error or missing data. Otherwise it holds the root word, `SectionsOf(forms)` and the examples map. |
| Text.JoinIsEmpty | src/components/dictionary/WordDetail.tsx:51 | With a non-empty separator, a join is "" exactly when there are no parts or a single empty part. |
| Text.IntToStringInjective | src/components/dictionary/DictionaryAutocomplete.tsx:96 | Distinct integers render as distinct decimal strings. |
| DictionarySearch.SearchCoordinator.constructor | src/hooks/useDictionarySearch.ts:41-45 | An absent option defaults to 300 ms, 10 or 2. Both queries start empty and nothing is pending. |
| DictionarySearch.SearchCoordinator.SetQuery | src/hooks/useDictionarySearch.ts:61-64 | The raw query becomes the new text at once, and the funnel's pending value becomes that text, which is the funnel's fold of the old pending value with this keystroke. The committed query is untouched, and the coordinator is left settled. |
| DictionarySearch.SearchCoordinator.Commit | src/hooks/useDictionarySearch.ts:47-57 | At the end of the quiet period the pending value becomes the committed query and nothing remains pending. |
| DictionarySearch.FunnelReducer | src/hooks/useDictionarySearch.ts:54 | The funnel keeps only the newest value: the reduced value is the new one, whatever was accumulated before. |
| DictionarySearch.AccumulateKeepsLast | src/hooks/useDictionarySearch.ts:54 | After any non-empty burst of calls, the funnel holds exactly the last value supplied. |
| DictionarySearch.SearchCoordinator.TypeBurst | src/hooks/useDictionarySearch.ts:47-64 | A burst of keystrokes followed by the quiet period commits the funnel's fold of the burst, which is the last keystroke; the raw query is that keystroke too. |
| DictionarySearch.SearchCoordinator.SearchEnabled | src/hooks/useDictionarySearch.ts:73 | A search is enabled exactly when the committed query is at least the minimum length. |
| DictionarySearch.SearchCoordinator.Request | src/hooks/useDictionarySearch.ts:70-73 | A request exists exactly when searching is enabled, and it is keyed by (committed query, limit). |
| DictionarySearch.MaskLoading | src/hooks/useDictionarySearch.ts:81 | The exposed loading flag is false below the minimum length whatever the underlying flag; otherwise it equals that flag. |
| DictionarySearch.SearchCoordinator.Loading | src/hooks/useDictionarySearch.ts:81 | Loading is shown exactly when the request is loading and searching is enabled. |
| DictionarySearch.ResultsOf | src/hooks/useDictionarySearch.ts:67 | With no data the results are the empty list; otherwise they are the data. |
| DictionarySearch.ErrorMessage | src/hooks/useDictionarySearch.ts:82 | There is a message exactly when an `Error` was thrown, and it is that error's message. |
| DictionarySearch.SearchCoordinator.ClearResultsKeepingPending | src/hooks/useDictionarySearch.ts:83-86 | As written: both queries become "" and searching is disabled when the minimum length is positive. The funnel's pending value survives. |
| DictionarySearch.ClearDoesNotCancelPendingCommit | src/hooks/useDictionarySearch.ts:83-86 | Typing "pes", clearing and then reaching the end of the quiet period leaves an empty input box, "pes" as the committed query and a search enabled. |
| DictionarySearch.SearchCoordinator.ClearResults | src/hooks/useDictionarySearch.ts:83-86 | Corrected: both queries become "" and the funnel is cancelled. Searching is disabled and the coordinator is settled. |
| DictionarySearch.ClearLeavesNothingToCommit | src/hooks/useDictionarySearch.ts:83-86 | Typing "pes" and then applying the corrected clear leaves nothing pending, the committed query "" and searching disabled, which is the opposite of the as-written outcome. |
| DictionaryAutocomplete.WordTypeLabel | src/components/dictionary/DictionaryAutocomplete.tsx:29-41 | A listed word type gets its table abbreviation; any other string is returned unchanged. The tag is never longer than the type. |
| DictionaryAutocomplete.WordTypeTagsDistinct | src/components/dictionary/DictionaryAutocomplete.tsx:30-39 | No two of the schema's word types share a tag. |
| DictionaryAutocomplete.AspectLabel | src/components/dictionary/DictionaryAutocomplete.tsx:43-50 | A missing or empty aspect gets no tag. A listed aspect gets its abbreviation, and any other aspect is shown unchanged. |
| DictionaryAutocomplete.SchemaAspectLabels | src/components/dictionary/DictionaryAutocomplete.tsx:45-48 | The words "perfective" and "imperfective" are shortened to "pf." and "impf.". |
| DictionaryAutocomplete.RowKeyShape | src/components/dictionary/DictionaryAutocomplete.tsx:95-96 | A row's key and value ends with its matched form, after a '-' that follows the root word id in decimal. |
| DictionaryAutocomplete.RowKeyInjective | src/components/dictionary/DictionaryAutocomplete.tsx:95-96 | Equal row keys imply equal root word ids and equal matched forms. |
| DictionaryAutocomplete.FindByKey | src/components/dictionary/DictionaryAutocomplete.tsx:57 | There is a result exactly when some row has the key, and it is the first such row. |
| DictionaryAutocomplete.OnValueChange | src/components/dictionary/DictionaryAutocomplete.tsx:55-63 | A selection happens exactly when the value is non-empty and some row has that key; the row selected is the first match. |
| DictionaryAutocomplete.ChoosingRowSelectsIt | src/components/dictionary/DictionaryAutocomplete.tsx:55-63 | When rows have distinct (id, form) pairs, choosing row i's key selects row i. |
| DictionaryAutocomplete.HandleValueChange | src/components/dictionary/DictionaryAutocomplete.tsx:55-63 | On a selection, the selected row is returned and the query is reset through the hook's setter. Otherwise nothing is returned and the hook is unchanged. |
| DictionaryAutocomplete.StatusMessages | src/components/dictionary/DictionaryAutocomplete.tsx:81-89 | "Searching..." shows exactly while loading. "No results found." shows exactly when not loading, the raw query has at least 2 characters and there are no results. "Type to search..." shows exactly when not loading and the raw query is shorter than 2. |
| DictionaryAutocomplete.StatusMessagesExclusive | src/components/dictionary/DictionaryAutocomplete.tsx:81-89 | At most one status message shows, and none shows exactly when results are listed for a query of 2 or more characters. |
| Expandable.ExpandableSection.constructor | src/components/ui/expandable-section.tsx:21-33 | The labels default to "See all forms" and "See fewer forms", `isExpanded` starts at `defaultExpanded` (false by default), and `hasMore` records whether expanded content was passed. |
| Expandable.ExpandableSection.ShowsExpandedContent | src/components/ui/expandable-section.tsx:52 | Expanded content is shown exactly when there is some and the box is open. |
| Expandable.ExpandableSection.ToggleLabel | src/components/ui/expandable-section.tsx:55-60 | A button exists exactly when there is expanded content; its label is the collapse label when open and the expand label when closed. |
| Expandable.ExpandableSection.Toggle | src/components/ui/expandable-section.tsx:57 | A click negates `isExpanded`. |
| Expandable.ExpandableSection.ToggleTwice | src/components/ui/expandable-section.tsx:57 | Two clicks restore both the state and the button label. |
| Expandable.ExpandableSection.CountBadge | src/components/ui/expandable-section.tsx:44 | A count of one reads "1 form"; any other count reads as its decimal digits followed by " forms". |
| Expandable.CountNoun | src/components/ui/expandable-section.tsx:44 | The noun is "form" exactly when the count is 1, and "forms" exactly when it is not. |

## Left out

- **Network access.** The Supabase RPC `search_dictionary` and the three reads of `useWordDetails` (src/hooks/useWordDetails.ts) are left out. The search results and the word details enter the model as values: `ResultsOf` and `DetailQuery`.
- **react-query.** Caching, the five-minute staleness window and the discarding of out-of-date responses belong to the library. The model keeps only what the hook derives from the request's flags.
- **The funnel's timer.** Remeda's quiet period of `debounceMs` milliseconds is left out. `SearchCoordinator.Commit` is the abstract moment the quiet period ends. `debounceMs` is stored but governs nothing in the model.
- **String lengths.** JavaScript `.length` counts UTF-16 code units, while the model's thresholds count characters. The two differ for characters outside the Basic Multilingual Plane.
- **Object keys.** Lookups in the JavaScript `Record` tables could also hit keys inherited from `Object.prototype` (such as `constructor`). The model's tables are plain maps holding only the listed keys. The same holds for the grouping accumulator in `buildSections` (src/components/dictionary/WordDetail.tsx:159-160): there a category named like an inherited member (`constructor`, `__proto__`) would make `acc[category].push` throw, whereas `GroupByCategory` groups it like any other; the database's form-type categories never take such names.
- **Key order of `Object.entries`.** Integer-like keys would be listed first. The model orders sections by first appearance, which matches for the database's category names, none of which looks like an integer.
- **Number formatting.** JavaScript prints root word ids of magnitude 10^21 or more in exponent notation. The model renders every integer in plain decimal.
- **Input arrays.** `sortForms` sorts a copy and never mutates its input. The model works on values, so this holds implicitly and is not stated.
- **Display details.**
  - The upper-casing of the form-type name in a row label.
  - The rows' `trailingDivider` borders.
  - The icons' pictures, JSX markup, class names and responsive layout.
- **rank and similarity.** These fields of a search result are floating-point scores. The remote service computes them and the client passes them on unchanged.
- **Files left out.** `src/pages/HomePage.tsx` (selection state and a vocabulary stub), `src/App.tsx` (routing and auth providers), `src/components/layout/Sidebar.tsx`, `src/components/layout/BottomNav.tsx` and `src/components/ui/word-form-row.tsx` are presentation only. `src/supabase/schema.ts` contributes only its enumerations, in `Schema`.

## Findings

| source | as written | input that shows it | evidently intended | confidence | as-written member | corrected member |
|---|---|---|---|---|---|---|
| src/hooks/useDictionarySearch.ts:83-86 | `clearResults` empties `query` and `debouncedQuery` but does not cancel the funnel, whose pending call survives the clear. | `setQuery("pes")`, then `clearResults()` before 300 ms pass. When the quiet period ends, "pes" is committed: the input box is empty while a search for "pes" is enabled and its results return. | Clearing also cancels the pending funnel call, so the committed query stays "" until the next keystroke. | medium (not executed) | DictionarySearch.ClearDoesNotCancelPendingCommit | DictionarySearch.SearchCoordinator.ClearResults |
