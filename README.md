# TIRED Labs technique library: the data engine, modelled in Dafny

The library's two pages present Technique Research Reports (TRRs) gathered
from several backends. The matrix page is `matrixscript.js` and the table page
is `script.js`. This project models the data engine behind both pages and
proves what it promises. The engine covers:

- enrichment of freshly fetched records;
- the platform registry merge;
- the "all platforms" reconciler, which folds the platform variants of a
  technique into one entry;
- the platform filter;
- bucketing by tactic for the matrix;
- the search, the column sort and the strings a table row is built from.

Modules, leaf first:

| file | module | what it holds |
|---|---|---|
| `text.dfy` | `Text` | `split` on one character, `join`, ASCII `toLowerCase`, case-insensitive occurrence |
| `seqs.dfy` | `Seqs` | `filter`, `[...new Set(xs)]`, `indexOf`, order-preserving subsequences, counting |
| `records.dfy` | `Records` | the record and backend entities, technique identity, registry merge, enrichment stamp |
| `reconcile.dfy` | `Reconcile` | `filterData`: the "all platforms" view as a specification and as the source's loop; the platform filter |
| `store.dfy` | `Store` | `enrichData` on an array in place; the two page globals as a class and the load callback |
| `matrix.dfy` | `Matrix` | the tactic order, bucketing into an array of buckets, visible columns, cell links |
| `search.dfy` | `Search` | `handleSearch`: the lookahead pattern, a fragment of regular-expression matching, escaping |
| `sort.dfy` | `Sort` | `handleSort`: order toggle, comparator, stable sort, the header as a class |
| `table.dfy` | `Table` | row link and procedures text of `renderTable`, read back |

Records are values (`Records.Record`). What the source does to objects in
place is modelled in one of two ways. `enrichData` writes the slots of an
`array`. The page globals `glblData` and `glblPlatforms` are the fields of
`Store.Library`, which its methods reassign. Each loop the source runs is a
method proved against a specification function, and the properties are
lemmas about those functions.

Two policies follow the code as written, where another reading would also
be plausible:

- `addPlatforms` is right-biased: `{ ...glblPlatforms, ...platformArray }`
  lets the new batch win on a shared key. Keeping the first value
  (first-writer-wins) would also be acceptable, since backends are not
  expected to disagree on a platform.
- A technique with a single variant keeps that variant's lists exactly as
  they were, duplicates included. Only once a second variant is merged are
  the lists rebuilt through a `Set`. A de-duplicated union in every case
  is not what the code does.

## Model

| member | source | states |
|---|---|---|
| Text.Split | script.js:174 | `split` on a one-character separator gives at least one piece, and no piece contains the separator |
| Text.SplitHead | matrixscript.js:211 | the first piece of a split is a prefix of the string without the separator that either is the whole string or stops at a separator |
| Text.JoinSplit | script.js:174 | joining the pieces of a split with the separator gives the string back |
| Text.SplitJoin | matrixscript.js:190 | splitting a join of non-empty lists of separator-free pieces gives the pieces back |
| Text.SplitConcat | script.js:174 | splitting `a + sep + b` gives the pieces of `a` followed by the pieces of `b` |
| Text.SplitNoSeparator | matrixscript.js:211 | a string without the separator splits into itself alone |
| Text.Lower | matrixscript.js:187 | `toLowerCase` keeps the length, leaves no upper-case ASCII letter and keeps letters letters and other characters other |
| Text.SplitPieceChars | script.js:174 | every character of a split piece is a character of the split string |
| Text.LowerIdempotent | matrixscript.js:187 | lower-casing twice is lower-casing once, and characters that are not letters neither appear nor vanish |
| Seqs.Filter | matrixscript.js:239-246 | a filter keeps exactly the elements its test accepts and is never longer than its input |
| Seqs.FilterIsSubsequence | script.js:182-185 | what a filter returns is an order-preserving subsequence of its input |
| Seqs.FilterStricter | script.js:177-184 | a stricter test's filter is the looser test's filter filtered again, and a subsequence of it |
| Seqs.Distinct | matrixscript.js:216 | `[...new Set(xs)]` holds exactly the elements of `xs`, without duplicates, never more of them |
| Seqs.DistinctFirstOccurrenceOrder | matrixscript.js:216 | de-duplicated elements come out in the order of their first occurrence |
| Seqs.DistinctAbsorbs | matrixscript.js:215-220 | de-duplicating a prefix before appending and de-duplicating again changes nothing |
| Seqs.FirstIndexOf | matrixscript.js:149 | `indexOf` of a present element is a position holding it with no earlier one |
| Records.TechPrefix | matrixscript.js:211 | the technique identity is a prefix of the id without `.` that is the whole id or stops at its first `.` |
| Records.TechPrefixOfPlainId | matrixscript.js:211 | an id without `.` is its own technique identity |
| Records.MergePlatforms | matrixscript.js:86 | the registry after a merge has the keys of both maps; the batch value wins on a shared key; a key only the registry had keeps its value |
| Records.PlatformDir | matrixscript.js:190 | the directory is the registry's value for the first platform, the text "undefined" for an unregistered one, and the value of key "undefined" (or that text) when the record lists no platform |
| Records.Stamp | matrixscript.js:109-113 | a stamped record carries the backend's base URL and name and every other field unchanged |
| Records.Enriched | matrixscript.js:108-114 | enriching a batch keeps its length and replaces each record, in place, by that record stamped with the backend |
| Records.EnrichedTwice | script.js:91-97 | enriching twice with one backend is enriching once, and a later backend's stamp replaces an earlier one |
| Store.EnrichData | script.js:91-97 | every slot of the index array is replaced by its stamped record and nothing else changes |
| Store.Library.constructor | matrixscript.js:2-3 | the page starts with no records and an empty registry |
| Store.Library.AddPlatforms | script.js:84-87 | the registry becomes the right-biased merge with the batch and the records are untouched |
| Store.Library.OnBackendLoaded | matrixscript.js:255-266 | a completed backend merges its platforms, stamps its index array in place, appends the stamped index after the records already held, leaves those records as they were, and yields the "all platforms" view of the whole collection |
| Reconcile.Prefixes | matrixscript.js:211 | one technique identity per record |
| Reconcile.Shorten | matrixscript.js:223-230 | the short entry is the variant with its id cut to the technique identity and its procedures dropped, every other field kept |
| Reconcile.Absorb | matrixscript.js:215-220 | merging a variant into an entry leaves id, name, procedures and provenance alone; each of the three lists ends up free of duplicates and holding exactly what the entry or the variant listed |
| Reconcile.IndexOfId | matrixscript.js:214 | `find` by id returns the first entry with that id |
| Reconcile.MergeAllPlatforms | matrixscript.js:206-237 | the reconciler's loop, with its `seen` set kept equal to the ids of the output, builds exactly the declarative "all platforms" view |
| Reconcile.FilterPlatform | matrixscript.js:239-246 | the platform filter returns the records listing the platform, as an order-preserving subsequence of the input; none listing it gives an empty list |
| Reconcile.FilterData | matrixscript.js:205-247 | "all" yields the merged view, any other value the platform filter |
| Reconcile.MergedViewOnePerTechnique | matrixscript.js:209-236 | the view has one entry per distinct technique identity of the input, no two entries share an id, and it is never longer than the input |
| Reconcile.MergedViewOrder | matrixscript.js:210-233 | entries appear in the order in which their technique first occurs in the input |
| Reconcile.MergedEntryUnion | matrixscript.js:215-228 | an entry's tactics, platforms and external ids hold exactly what the technique's variants list; after a second variant they carry no duplicates; a lone variant's list passes unchanged |
| Reconcile.MergedEntryDisplay | matrixscript.js:223-230 | an entry's id is the technique identity; its name, base URL and source repository are those of the first variant; its procedures are dropped |
| Reconcile.GroupHead | matrixscript.js:210-212 | the first variant of a technique in the input is the first of its group |
| Reconcile.MergedViewPlainIds | matrixscript.js:224 | every id in the view is a technique identity |
| Reconcile.MergedViewIdempotent | matrixscript.js:206-237 | reconciling the view again gives the view back |
| Reconcile.MergedViewOrderIndependent | matrixscript.js:254-266 | two inputs holding the same records, in any order, give every technique the same sets of tactics, platforms and external ids |
| Matrix.TacticsDistinct | matrixscript.js:17-32 | the tactic order has fourteen distinct entries |
| Matrix.BuildMatrix | matrixscript.js:139-151 | with every tactic in the vocabulary, a fresh array of fourteen buckets, bucket `b` holding the records listing tactic `b`, each once per listing, in input order |
| Matrix.PushRecord | matrixscript.js:146-150 | one record is appended to the bucket of each tactic it lists, once per listing, and no other bucket changes |
| Matrix.BucketStep | matrixscript.js:145-151 | processing one more record extends each bucket by that record's copies for the tactic |
| Matrix.BucketMembership | matrixscript.js:145-151 | a record is in a tactic's bucket exactly when it is an input record listing the tactic |
| Matrix.BucketIsFilter | matrixscript.js:145-151 | when no record lists a tactic twice, a bucket is the input filtered by the tactic, order kept |
| Matrix.VisibleColumns | matrixscript.js:161-163 | the drawn columns are exactly the non-empty buckets, in tactic order |
| Matrix.MatrixLink | matrixscript.js:183-191 | the link starts with the lower-cased id; it is exactly that in the "all" view, and otherwise continues with `/` and the first platform's directory |
| Matrix.ReportUrl | matrixscript.js:192 | the address is the base URL and `reports/` followed by the link |
| Matrix.MatrixLinkParts | matrixscript.js:183-191 | a cell link splits on `/` into the lower-cased id, followed by the platform directory exactly when a platform is selected |
| Search.BuildPattern | script.js:175-179 | the loop builds one lookahead group per word, in order |
| Search.LookaheadsAppend | script.js:177-179 | one more word appends one more group |
| Search.Escape | script.js:178 | escaping never shortens a word |
| Search.EscapeIdentity | script.js:178 | a word without metacharacters is its own escape |
| Search.ParseBody | script.js:181 | a parsed lookahead body leaves a strictly shorter rest |
| Search.ParseBodyEscaped | script.js:178-181 | an escaped word and `)` parse back to the word read literally |
| Search.DecodeEscapedPattern | script.js:175-181 | the pattern of escaped words decodes to one literal body per word |
| Search.RegexTest | script.js:181-184 | a test can succeed only on a pattern inside the fragment, and a pattern with no groups accepts every text |
| Search.LiteralsMatchAt | script.js:181-184 | a literal body matches exactly where the word occurs, case ignored |
| Search.EscapedPatternMeaning | script.js:181-184 | on a text without line terminators the escaped pattern accepts exactly when every word occurs, case ignored |
| Search.HandleSearchAsWritten | script.js:172-187 | the search as written keeps, in order, the records whose serialisation the unescaped pattern accepts; for a query without metacharacters over serialisations without line terminators that is exactly the records holding every query word; the empty query keeps every record |
| Search.AsWrittenPlainQuery | script.js:174-184 | for a query without metacharacters and serialisations without line terminators, the unescaped search keeps a record exactly when every space-separated word occurs in it, case ignored |
| Search.HandleSearch | script.js:172-187 | the search, words escaped, returns an order-preserving subsequence of the records that is exactly the records holding every space-separated query word whenever no serialisation holds a line terminator |
| Search.PlainWordsNeedNoEscape | script.js:174-179 | for words without metacharacters the unescaped and escaped patterns coincide |
| Search.UnescapedDotMatchesAnyCharacter | script.js:178-181 | the query `a.b` accepts the text `axb`, which does not contain `a.b` |
| Search.SearchEmptyQuery | script.js:174-179 | the empty query keeps every record |
| Search.AsWrittenEmptyQuery | script.js:174-184 | the search as written keeps every record on the empty query, whatever the serialisations hold: its pattern `(?=.*)` accepts every text |
| Search.LineSeparatorHidesWords | script.js:178-184 | a serialisation holding "ab", U+2028 and "cd" in a row contains both words of the query "ab cd", yet neither the unescaped nor the escaped pattern accepts it |
| Search.SearchNarrows | script.js:174-179 | adding a word filters the previous results again, so it never enlarges them and keeps their order |
| Sort.StrLess | script.js:210 | string `<` holds only between different strings, and a proper prefix is less than the string it starts |
| Sort.Compare | script.js:208-219 | the comparator answers -1, 0 or 1; it is positive exactly when the first key is greater under "asc" (smaller otherwise) and negative in the mirrored case |
| Sort.StrLessAsymmetric | script.js:210-213 | string `<` is asymmetric |
| Sort.StrLessTotal | script.js:210-213 | of two different strings one is less than the other |
| Sort.StrLessTransitive | script.js:210-213 | string `<` is transitive |
| Sort.CompareZero | script.js:210-218 | the comparator answers 0 exactly on equal keys |
| Sort.CompareFlip | script.js:210-218 | swapping the arguments negates the comparator |
| Sort.CompareTransitive | script.js:210-218 | "comparator at most 0" is transitive |
| Sort.Toggled | script.js:203 | the next order is "asc" or "desc", and "asc" exactly when the current one is "desc" |
| Sort.ToggledTwice | script.js:200-205 | toggling an "asc" or "desc" header twice restores it |
| Sort.Insert | script.js:208 | insertion adds exactly one element |
| Sort.SortBy | script.js:208 | the sorted copy is a permutation of the records |
| Sort.InsertOrdered | script.js:208-219 | inserting into an ordered list keeps it ordered under the comparator |
| Sort.SortByOrdered | script.js:208-219 | the sorted copy is ordered under the comparator |
| Sort.SortByKeys | script.js:208-219 | the sorted copy is a permutation whose keys never decrease under "asc" and never increase otherwise |
| Sort.InsertStable | script.js:208-219 | insertion puts the new element after every element with its key |
| Sort.SortByStable | script.js:208-219 | records with equal keys keep their input order |
| Sort.ColumnHeader.constructor | script.js:196-200 | a header holds its column and its current class |
| Sort.ColumnHeader.HandleSort | script.js:194-223 | a click toggles the header's order and returns the records sorted under the new order |
| Table.RowLink | script.js:132 | the row address is the base URL and `reports/` followed by a tail that splits on `/` into the lower-cased id and the first platform's directory, when neither holds `/` |
| Table.RowTailSplits | script.js:132 | the link tail after `reports/` splits on `/` into the lower-cased id and the platform directory, when neither holds `/` |
| Table.RowLinkIsMatrixLink | script.js:132 | a row opens the report a matrix cell opens under a selected platform |
| Table.ProceduresTextAppend | script.js:153-155 | one more procedure appends one more line |
| Table.RenderProcedures | script.js:152-156 | the cell text is one `key: value` line per procedure, in key order, and empty when the field is absent |
| Table.ProceduresTextIsJoin | script.js:152-156 | the cell text is its lines joined by line breaks, plus a final line break |
| Table.ParseLineOf | script.js:154 | a line whose key has no `:` reads back as its key and value |
| Table.SplitProceduresText | script.js:152-156 | without line breaks in keys and values, the cell text splits into its lines and one empty piece |
| Table.ProceduresRoundTrip | script.js:152-156 | when keys hold no `:` or line break and values no line break, reading the cell back gives the procedures in order |

## Left out

- Search.HandleSearch: its promise holds only for serialisations without line terminators. `.*` does not cross U+2028 or U+2029, and `JSON.stringify` leaves both unescaped, so a record holding one of them between two query words is dropped by the source and by both searches here although every word occurs (`Search.LineSeparatorHidesWords`). A search that ignores line terminators would need the `s` flag, which the source does not set.
- Fetching `platforms.json` and `index.json` is not modelled. This includes `fetchBackendData`, HTTP status checks and JSON parsing (network I/O).
- The top-level per-backend fan-out and its asynchronous completion order are not modelled (concurrency). Only one completion callback's sequential effect is, as `Store.Library.OnBackendLoaded`.
- All DOM work is presentation and is not modelled:
  - the platform dropdown;
  - table and cell construction, tooltips;
  - `hideIntro`/`showIntro`;
  - event wiring, `href` assignments and `window.open`.
  - The model stops at the data and strings these are built from.
- `backends.json` and the documentation base URL are static configuration.
- `JSON.stringify` is a parameter of the search, a function from record to string. Its output format is not modelled.
- Search.RegexTest: only a fragment of JavaScript regular expressions is modelled. The fragment is lookahead groups whose bodies are plain characters, backslash-escaped metacharacters and `.`. A pattern outside the fragment evaluates to false. The real engine would throw a `SyntaxError` (for example on an unbalanced `(`) or interpret the other syntax.
- Case-insensitive matching and `toLowerCase` fold ASCII letters only. Characters outside the basic plane are single `char`s here, not UTF-16 surrogate pairs, and string `<` compares by character.
- Sort.SortBy: only the string-valued columns `id`, `name` and `source_repo` are sorted. JavaScript's `<`/`>` coercion on array-valued columns (`external_ids`, `platforms`) and object-valued columns (`procedures`) is not modelled.
- Sort.SortBy: the engine's sorting algorithm is not modelled. The result is fixed by the comparator together with stability, which the language guarantees, and it is specified as a stable insertion sort.
- Table.RenderProcedures: the procedures are given as a list of key and value pairs in `for...in` order. JavaScript's ordering of integer-like keys first is not modelled, and values are strings.
- Only the fields the engine reads or writes are part of `Records.Record`. Other fields of a record are not carried.
- Aliasing between records and merged entries is not modelled, because records are values. A merged entry of a lone variant shares that variant's arrays in the source. Neither side is mutated afterwards, and merges assign new arrays.
- Records.PlatformDir: a platform key that names a property every JavaScript object inherits (`constructor`, `toString`, `__proto__`, …) reads that property from `glblPlatforms` in the source, so the link holds its text rather than "undefined"; the registry is modelled as a plain map without inherited keys.
- A tactic outside the fourteen-entry vocabulary is excluded by the precondition of `Matrix.BuildMatrix`. The source would index the bucket array at -1 and fault.

## Findings

| source | as written | input that shows it | evidently intended | confidence | as-written member | corrected member |
|---|---|---|---|---|---|---|
| script.js:177-181 | each query word is spliced into the regular expression unescaped, so a metacharacter keeps its meaning: `.` matches any character | the query `a.b` against a record whose serialisation contains `axb` but not `a.b`: the record is kept | every query word matched literally, as a case-insensitive substring | not executed | Search.UnescapedDotMatchesAnyCharacter | Search.HandleSearch |
