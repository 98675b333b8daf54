# gitlab-mrs: the filter and configuration store, in Dafny

gitlab-mrs is a browser dashboard that lists a GitLab project's open merge requests. Its only
real logic is the client-side store in `src/store.ts`, plus one small string helper in
`src/util.tsx`. This project models both in Dafny and proves properties of the model.

The store holds two pieces of state:

- the connection settings (`config`). `setConfig` replaces them wholesale and saves them in
  local storage under `"mr-config"`. `getStoredConfig` reads them back when the store is created.
- an ordered list of filter descriptors. `addFilter` appends to it. `removeFilter` drops every
  descriptor with a given id.

`applyFilters` pipes a list of merge-request records through the descriptors in turn. Each
descriptor reads one field of a record through a dotted path (`getField`). Its predicate is
chosen by JavaScript truthiness: a non-empty `includes` text means a substring test;
otherwise a non-empty `matches` text means equality after trimming both sides; otherwise a
non-empty `excludes` text means a negated substring test; otherwise the record is rejected.

The files:

- `records.dfy`: records as a JSON-like `Value`, `path.split(".")`, and `getField` (a loop
  method proved equal to the recursive `Resolve`).
- `text.dfy`: the two string builtins the predicates use, `includes` and `trim`. `trim`
  strips ECMAScript's WhiteSpace and LineTerminator characters.
- `filters.dfy`: the descriptor, its predicate (`Evaluate`), `Array.prototype.filter` with a
  predicate that may throw (`KeepPassing`), and the pipeline (`Pipeline`).
- `store.dfy`: `Config`, local storage as a class, and the `Store` class with its four operations.
- `avatar.dfy`: `wrapAvatar`.
- `filter_form.dfy`: the descriptor that the filter form in `src/Filters.tsx` submits.
- `examples.dfy`: two worked cases of the predicate: a title filtered by substring, and an
  author matched after trimming.
- `seqs.dfy` and `wrappers.dfy`: shared helpers (order-preserving selection and
  subsequences; `Option` and `Result`).

Behaviour that the code has and the model keeps:

- **Unresolved fields throw.** If the field a set text tests is `undefined`, `null`, a
  plain (non-array) object, a number or a boolean, the predicate's `.includes` or `.trim`
  call throws a TypeError. (Arrays behave differently and are not modelled; see
  "Left out".) The model returns `Err(NotAString(...))`, and
  `ApplyFilters` returns that error. A descriptor with no text set never reads the field,
  so it never throws. `excludes` gets no special rule for absent fields: it throws like
  the other two.
- **Every matching id is removed.** `removeFilter` removes every descriptor with the id,
  not only the first. `addFilter` never checks ids. Neither the code nor the model has a
  reserved id that is replaced instead of appended.
- **Filter order can decide whether `applyFilters` throws.** When both orders succeed, the
  order of the filters does not change the result (`PipelineOrderIrrelevant`). But a
  filter that removes every record hides a later filter that would throw.
  `OrderDecidesFault` shows a concrete case.

## Model

| member | source | states |
|---|---|---|
| `Records.Split` | src/store.ts:71 | `path.split(".")` always gives at least one segment |
| `Records.SplitShape` | src/store.ts:71 | a path has one more segment than it has dots, and no segment contains a dot |
| `Records.JoinSplit` | src/store.ts:71 | joining the segments of a path with dots gives the path back |
| `Records.SplitJoin` | src/store.ts:71 | splitting dot-free segments joined by dots gives the segments back |
| `Records.GetField` | src/store.ts:70-80 | the loop over the keys returns `Resolve(obj, Split(path))`: one property lookup per segment, and `undefined` as soon as the value walked is not a non-null object |
| `Records.ResolveAppend` | src/store.ts:72-78 | walking keys `a + b` is walking `a` and then `b` |
| `Records.SingleSegment` | src/store.ts:70-80 | a dot-free path reads the object's direct property (`undefined` if absent), and gives `undefined` on any non-object |
| `Text.Includes` | src/store.ts:58 | `s.includes(t)` holds iff `t` occurs in `s` at some index |
| `Text.TrimStart` | src/store.ts:60 | removes exactly the leading JavaScript whitespace |
| `Text.TrimEnd` | src/store.ts:60 | removes exactly the trailing JavaScript whitespace |
| `Text.Trim` | src/store.ts:60 | the result is a slice of the input with only whitespace around it, and neither of its ends is whitespace |
| `Text.TrimUnique` | src/store.ts:60 | any slice padded only by whitespace whose ends are not whitespace is the trim |
| `Text.TrimIdempotent` | src/store.ts:60 | trimming twice is trimming once |
| `Text.TrimBlank` | src/store.ts:60 | a string made only of whitespace trims to the empty string |
| `Text.FirstCharMissing` | src/store.ts:58 | a text whose first character does not occur in `s` is not included in `s` |
| `Filters.KeepPassingSpec` | src/store.ts:56-64 | one `filter` pass succeeds iff the predicate succeeds on every record, and then keeps exactly the accepted records in their order |
| `Filters.PipelineSpec` | src/store.ts:53-67 | the pipeline throws iff some record faults on a filter after passing all filters before it; otherwise it returns, in input order, exactly the records that pass every filter |
| `Filters.PipelineFaultPersists` | src/store.ts:55-65 | once a prefix of the filters throws, the whole pipeline throws the same error |
| `Filters.NoFiltersIsIdentity` | src/store.ts:54-66 | with no filters the input is returned unchanged |
| `Filters.PipelineIsSubsequence` | src/store.ts:53-67 | a successful result is an order-preserving subsequence of the input |
| `Filters.PipelineMembership` | src/store.ts:55-65 | filters compose by AND: a record is in the result iff it is in the input and passes every filter |
| `Filters.PipelineIdempotent` | src/store.ts:53-67 | applying the filters to their own output succeeds and returns that output |
| `Filters.PipelineOrderIrrelevant` | src/store.ts:55-65 | two orderings of the same filters give the same result when both succeed |
| `Filters.OrderDecidesFault` | src/store.ts:55-65 | a reject-all filter placed first hides a later filter that throws; placed second, the pipeline throws |
| `Filters.IncludesDecides` | src/store.ts:57-58 | a non-empty `includes` decides alone: `matches` and `excludes` change nothing; it throws iff the field is not a string, and passes iff the field contains the text |
| `Filters.MatchesDecides` | src/store.ts:59-60 | otherwise a non-empty `matches` decides: `excludes` and any empty `includes` change nothing; it throws iff the field is not a string, and passes iff the trimmed field equals the trimmed text |
| `Filters.ExcludesNegatesIncludes` | src/store.ts:61-62 | otherwise a non-empty `excludes` gives the opposite answer of `includes` with the same text, and throws on the same records |
| `Filters.UnsetFilterRejectsAll` | src/store.ts:63 | a filter with no non-empty text makes any successful pipeline that contains it return the empty list |
| `Examples.TitleRecord` | src/store.ts:57-58 | an `includes` filter on `title` answers whether the record's title contains the text |
| `Examples.TitleIncludesExample` | src/store.ts:57-58 | an `includes` filter for `"Draft"` on `title` rejects `"Fix bug"` and accepts `"Draft: WIP"` |
| `Examples.UsernameOf` | src/store.ts:70-80 | the path `author.username` reads the nested `username` of the record's `author` |
| `Examples.AuthorRecord` | src/store.ts:59-60 | a `matches` filter on `author.username` answers whether the trimmed username equals the trimmed text |
| `Examples.AuthorTrims` | src/store.ts:60 | `" alice "` trims to `"alice"`; `"alice"` and `"bob"` trim to themselves |
| `Examples.AuthorMatchesExample` | src/store.ts:59-60 | a `matches` filter for `" alice "` on `author.username` accepts the author `alice` and rejects `bob` |
| `Store.StoredConfig` | src/store.ts:34-40 | `null` iff nothing is stored under `"mr-config"`, the stored configuration otherwise |
| `Store.StoredConfigReadsBack` | src/store.ts:34-47 | a configuration saved under `"mr-config"` is what `getStoredConfig` reads next; saving under another key changes nothing it reads |
| `Store.RemoveByIdSpec` | src/store.ts:51-52 | the list left by `removeFilter(id)` is an order-preserving subsequence; it keeps every descriptor with another id as often as before and none with `id` |
| `Store.RemoveAbsentIsNoop` | src/store.ts:51-52 | removing an id that no descriptor has changes nothing |
| `Store.AddThenRemove` | src/store.ts:50-52 | adding a descriptor with a fresh id then removing that id restores the list, and so the result of `applyFilters` |
| `Store.Store.constructor` | src/store.ts:42-49 | the store starts with the stored configuration (or `null`) and no filters |
| `Store.Store.SetConfig` | src/store.ts:44-47 | the configuration becomes `c`, the `"mr-config"` slot becomes `c` and no other slot changes, the filters are unchanged, and `getStoredConfig` now returns `c` |
| `Store.Store.AddFilter` | src/store.ts:50 | filters become the old filters followed by `f`; the configuration is unchanged |
| `Store.Store.RemoveFilter` | src/store.ts:51-52 | filters become the old ones with that id removed, a no-op when no descriptor has it; the configuration is unchanged |
| `Store.Store.ApplyFilters` | src/store.ts:53-67 | the loop over the filters returns the `Pipeline` result (whose properties are the lemmas above); it has no modifies clause, so the store is unchanged |
| `Avatar.WrapAvatar` | src/util.tsx:5-8 | the result starts with `"http"`; it is the URL itself iff the URL starts with `"http"`, and otherwise `"https://gitlab.com"` followed by the URL |
| `Avatar.WrapAvatarIdempotent` | src/util.tsx:5-8 | wrapping a wrapped URL changes nothing |
| `FilterForm.FromFormDecidesByKind` | src/Filters.tsx:32-41 | the form submits nothing iff the trimmed text is empty or no field is chosen; a submitted descriptor has the given id and field, is never the reject-all kind, and decides by the chosen kind with the text as typed |

## Left out

- `localStorage` and JSON: storage is a `LocalStorage` object holding configurations by
  key. `JSON.stringify`/`JSON.parse` and malformed stored text are not modelled. A slot
  holding the empty string (falsy, so `getStoredConfig` returns `null`) cannot come from
  `setConfig` and is not represented.
- zustand's `create`/`set`/`get` and its change subscriptions: the store is a plain class
  whose methods update its fields.
- Records: arrays and properties inherited through an object's prototype are not modelled.
  `Value` has no array case, and `Obj` lists only a non-array object's own properties.
  Numbers and booleans are one `Other` case, because the predicates treat them alike:
  they throw. The records do hold arrays (`labels.edges`, `assignees.edges`,
  `commenters.edges`, `approvedBy.edges`), and the model does not capture what the code
  does with them:
  - an array passes the object test in `getField`, so an index path such as
    `labels.edges.0.node.title` walks into the array and can resolve to a string;
  - on an array-valued field, `includes` is `Array.prototype.includes`: it gives a boolean
    instead of throwing. So an `includes` filter rejects the record (unless an element
    equals the text), and an `excludes` filter passes it;
  - only `matches` throws on an array, because arrays have no `trim`.
- Strings are sequences of Unicode scalar values, not UTF-16 code units. Every character
  that `trim` strips is a single code unit, so trimming and substring tests agree on
  well-formed text.
- Which TypeError message the runtime produces is not modelled: every throw is one
  `NotAString` fault that records the descriptor's id and the value found.
- `src/Filters.tsx`: only the submit handler is modelled. `crypto.randomUUID()` becomes
  the `id` parameter. The kind is one of the two options the select offers, so the
  `!type` guard cannot fail and the computed key `[type]` cannot overwrite `id`, `name` or
  `field`. The rendering is not modelled. Neither are the handler's other two effects:
  `console.log` of the form state (src/Filters.tsx:35), and clearing the text input with
  `setText("")` (src/Filters.tsx:42).
- `src/App.tsx`, `src/Comments.tsx`, `src/PipelineStatusIcon.tsx`, `src/Dot.tsx` and `Dot`
  in `src/util.tsx` are user interface, network queries, date formatting and colour
  computation, and are not part of this model.
- Not in `src/store.ts`, so not modelled: a `clearFilters` operation, a reserved
  `"search"` id, filters stored as executable expressions, schema-versioned persistence,
  and migration of older stored shapes.
