# User-management console: verified model of its state logic

This project is a Dafny model of the behavioural core of a small React admin console built on TanStack Table. It models four pieces and proves properties of each:

- **`useModal`**: a generic modal hook. It has two state cells, `isOpen` and `modalData`, and three callbacks: `openModal(data?)`, `handleOpenChange(open)` and `closeModal()`.
- **`useUrlPagination`**: the table's pagination cursor `{pageIndex, pageSize}`, kept in the query string of the current history entry.
  - The read side parses both parameters with `parseInt(…, 10)`. Missing parameters default to `"0"` and `"10"`. It then clamps the index and defaults the size.
  - The write side resolves a value-or-function updater against the derived cursor. It sets both parameters on a copy of the query with URLSearchParams `set` (WHATWG URL Standard, section 6.2), then replaces the current history entry.
- **The user table's column definitions**: the name, role and phone `cell` formatters and the authorities, `sms_yn`, `activated` and `lang_key` `filterFn` predicates. The routed table `src/pages/user/userTable.tsx` and the paginated draft `src/pages/user/component/userTable.tsx` define them with the same text, so one module, `UserColumns`, models both.
  - In the "## Model" table, the functions and the lemmas about the phone digits cite the routed copy; the other lemmas and the shared helper `ExactFilter` cite the draft.
  - The draft's lines paired with the routed lines are:
    - name cell: draft 56-60, routed 35-39
    - role cell: draft 64-67, routed 43-47
    - authorities filter: draft 69-73, routed 48-52
    - phone cell: draft 80, routed 59
    - `sms_yn` filter: draft 111-115, routed 90-94
    - `activated` filter: draft 139-144, routed 118-123
    - `lang_key` filter: draft 148-152, routed 127-131
- **The draft's page-size select**: an updater that returns to page 0 at the chosen size.

Modules and files:

| file | module | what it holds |
|---|---|---|
| `wrappers.dfy` | `Wrappers` | `Option` and `Result` |
| `js_number.dfy` | `JsNumber` | JavaScript `parseInt(s, 10)` as a prefix parser returning `Option<int>` (`None` is NaN), and `String(n)` as decimal output |
| `search_params.dfy` | `SearchParams` | the query as a list of name-value pairs, with `get` and `set` |
| `url_pagination.dfy` | `UrlPagination` | the cursor, its derivation, the write, the session history and `onPaginationChange` |
| `modal.dfy` | `Modal` | the modal's state machine as a function over snapshots, and the hook as a class whose methods follow it |
| `user.dfy` | `User` | the `User` record from `src/types/user.types.ts` |
| `user_columns.dfy` | `UserColumns` | cell formatters and filter predicates |
| `user_table_draft.dfy` | `UserTableDraft` | the page-size updater |

An unparseable `pageIndex` does not fall back to 0: a parameter that does not begin with a number reads as NaN, because `parseInt` returns NaN and `Math.max(0, NaN)` is NaN (`src/hooks/useUrlPagination.ts:12,16`). The model returns `None` there (`UrlPagination.DeriveUnparseable`). An unparseable `pageSize` does fall back to 10, because `NaN > 0` is false.

The class `Modal.ModalState` holds the two fields. Each method's contract ties its new state to `Modal.Step` applied to the old state. The invariant `Valid()` ("a closed modal holds no data") is kept by every method. The lemmas about `Step` and `Run` cover every sequence of callbacks. `UrlPagination.OnPaginationChange` works the same way: it works on a `SearchParams.UrlSearchParams` object and a `UrlPagination.SessionHistory` object, and it is proved against the function `UrlPagination.Write`, whose properties are lemmas.

## Model

| member | source | states |
|---|---|---|
| Modal.ModalState.constructor | src/hooks/useModal.ts:10-13 | the hook starts closed with no data, and the invariant holds |
| Modal.ModalState.OpenModal | src/hooks/useModal.ts:19-26 | afterwards the modal is open and holds exactly the given data, or null when none was given; the invariant is kept; the new state is `Step` of the old |
| Modal.ModalState.HandleOpenChange | src/hooks/useModal.ts:31-38 | `isOpen` becomes `open`; the data is kept when opening and cleared when closing; the invariant is kept |
| Modal.ModalState.CloseModal | src/hooks/useModal.ts:43-46 | afterwards the modal is closed with null data; the invariant is kept |
| Modal.StepConsistent | src/hooks/useModal.ts:19-46 | each of the three callbacks maps a state where a closed modal holds no data to another such state |
| Modal.RunConsistent | src/hooks/useModal.ts:19-46 | any sequence of callbacks from a consistent state ends in a consistent state |
| Modal.ReachableConsistent | src/hooks/useModal.ts:10-46 | after any sequence of callbacks from the initial state, `!isOpen ==> modalData == null` |
| Modal.ConsistentReachable | src/hooks/useModal.ts:10-46 | conversely, every state satisfying that invariant is reached from the initial state by some callbacks, so the invariant is exact |
| Modal.OpenModalSetsData | src/hooks/useModal.ts:19-26 | from any state, `openModal(d)` opens with `d`, and `openModal()` opens with null, whatever was held before |
| Modal.CloseViaOpenChange | src/hooks/useModal.ts:31-46 | `handleOpenChange(false)` has the same effect as `closeModal()`, and both give the initial state |
| Modal.ReopenKeepsData | src/hooks/useModal.ts:31-38 | `handleOpenChange(true)` opens and leaves the data unchanged; from a consistent closed state that data is null |
| Modal.CloseIdempotent | src/hooks/useModal.ts:43-46 | calling `closeModal()` twice equals calling it once |
| JsNumber.LeadingDigits | src/hooks/useUrlPagination.ts:12-13 | what `parseInt` takes after the sign is made of digits only |
| JsNumber.TrimStartSkips | src/hooks/useUrlPagination.ts:12-13 | `parseInt` skips exactly the leading white space, up to the first other character |
| JsNumber.LeadingDigitsStops | src/hooks/useUrlPagination.ts:12-13 | the digits read are exactly the leading digit run, stopping at the first non-digit |
| JsNumber.NatToDecimal | src/hooks/useUrlPagination.ts:31-32 | `String(n)` of a non-negative integer is a non-empty digit string with no leading zero, except for 0 itself |
| JsNumber.NatToDecimalValue | src/hooks/useUrlPagination.ts:31-32 | the decimal string of `n` denotes `n` |
| JsNumber.NumberToString | src/hooks/useUrlPagination.ts:31-32 | `String(x)` is "NaN" for NaN, the decimal digits for `x >= 0`, and "-" followed by the digits of `-x` for `x < 0` |
| JsNumber.ParseIntReadsNumeral | src/hooks/useUrlPagination.ts:12-13 | `parseInt` of white space, then the decimal form of `n`, then anything not starting with a digit, is `n` |
| JsNumber.ParseDigitsReadsNumeral | src/hooks/useUrlPagination.ts:12-13 | the digit reader returns `m` on the decimal form of `m` followed by a non-digit or nothing |
| JsNumber.ParseSignedReadsNegative | src/hooks/useUrlPagination.ts:12-13 | a "-" followed by the digits of `m` reads as `-m` |
| JsNumber.ParseSignedReadsUnsigned | src/hooks/useUrlPagination.ts:12-13 | unsigned digits of `m` read as `m` |
| JsNumber.ParseIntNumberToString | src/hooks/useUrlPagination.ts:12-32 | round trip: `parseInt(String(x), 10) == x` for every integer and for NaN |
| JsNumber.ParseIntNaN | src/hooks/useUrlPagination.ts:31-32 | the string written for a NaN cursor field, "NaN", parses back to NaN |
| JsNumber.ParseIntDefaults | src/hooks/useUrlPagination.ts:12-13 | the default strings "0" and "10" parse to 0 and 10 |
| JsNumber.ParseIntNoDigits | src/hooks/useUrlPagination.ts:12-13 | a string with no digit in it parses to NaN |
| SearchParams.FirstIndex | src/hooks/useUrlPagination.ts:31-32 | the leftmost position of a pair with the given name, or none when no pair has it |
| SearchParams.GetEntry | src/hooks/useUrlPagination.ts:12-13 | `get(name)` is null exactly when no pair has the name; otherwise it is the value of the first pair with that name |
| SearchParams.SetEntryAt | src/hooks/useUrlPagination.ts:31-32 | `set` appends the pair when the name is absent; otherwise it writes the new value at the first occurrence and drops every later pair with that name |
| SearchParams.SetEntryDefines | src/hooks/useUrlPagination.ts:31-32 | after `set(name, v)` the name occurs exactly once and `get(name)` is `v` |
| SearchParams.SetEntryKeepsOthers | src/hooks/useUrlPagination.ts:31-32 | `set(name, v)` leaves the pairs with other names unchanged and in their order |
| SearchParams.SetEntryGetOther | src/hooks/useUrlPagination.ts:31-32 | `set(name, v)` does not change `get` of any other name |
| SearchParams.SetEntryCountOther | src/hooks/useUrlPagination.ts:31-32 | `set(name, v)` does not change how often any other name occurs |
| SearchParams.UrlSearchParams.constructor | src/hooks/useUrlPagination.ts:30 | `new URLSearchParams(…)` of the current query holds a copy of its pairs |
| SearchParams.UrlSearchParams.Set | src/hooks/useUrlPagination.ts:31-32 | the object's pairs become `SetEntry` of the old pairs |
| UrlPagination.MaxZero | src/hooks/useUrlPagination.ts:16 | `Math.max(0, x)` is NaN exactly for NaN; otherwise it is `x` when non-negative and 0 when negative |
| UrlPagination.Normalise | src/hooks/useUrlPagination.ts:15-18 | the index is clamped by `Math.max(0, ·)`; the size is kept when positive and is 10 otherwise, NaN included |
| UrlPagination.DeriveBounds | src/hooks/useUrlPagination.ts:10-19 | the derived size is always positive; the index is non-negative when a number; missing parameters give 0 and 10; the index is NaN exactly when the parameter is present and does not parse |
| UrlPagination.DeriveLonePageIndex | src/hooks/useUrlPagination.ts:12-16 | a lone `pageIndex` parameter is `parseInt`-ed and clamped at 0 |
| UrlPagination.DeriveLonePageSize | src/hooks/useUrlPagination.ts:13-17 | a lone `pageSize` parameter is `parseInt`-ed and replaced by 10 unless positive |
| UrlPagination.DeriveEmptyQuery | src/hooks/useUrlPagination.ts:12-13 | a query without either parameter gives page 0 of size 10 |
| UrlPagination.DeriveNegativeIndex | src/hooks/useUrlPagination.ts:12-16 | `pageIndex=-5` reads as page 0 |
| UrlPagination.DeriveNonPositiveSize | src/hooks/useUrlPagination.ts:13-17 | `pageSize=0` and `pageSize=-3` read as size 10 |
| UrlPagination.DeriveUnparseable | src/hooks/useUrlPagination.ts:12-17 | `pageSize=abc` reads as 10, but `pageIndex=abc` reads as NaN |
| UrlPagination.DeriveNumericPrefix | src/hooks/useUrlPagination.ts:13 | `pageSize=15abc` reads as 15 |
| UrlPagination.WriteShape | src/hooks/useUrlPagination.ts:30-32 | after the write, `pageIndex` and `pageSize` each occur exactly once and hold the decimal strings of the new values; every other pair is unchanged and in its original order |
| UrlPagination.WriteExample | src/hooks/useUrlPagination.ts:30-32 | `pageIndex=2&pageSize=15&foo=bar` written with page 0 of size 15 becomes `pageIndex=0&pageSize=15&foo=bar` |
| UrlPagination.DeriveAfterWrite | src/hooks/useUrlPagination.ts:12-32 | reading back any written cursor gives that cursor normalised |
| UrlPagination.WriteThenDerive | src/hooks/useUrlPagination.ts:12-32 | round trip: a cursor with index >= 0 and size > 0, written into any query, reads back exactly |
| UrlPagination.SessionHistory.constructor | src/hooks/useUrlPagination.ts:7 | the history starts with one entry, the initial query |
| UrlPagination.SessionHistory.ReplaceCurrent | src/hooks/useUrlPagination.ts:36 | a replacing navigation changes only the last entry, and the length stays the same |
| UrlPagination.OnPaginationChange | src/hooks/useUrlPagination.ts:22-37 | the history keeps its length and every earlier entry; the current entry becomes the old query with both parameters set to the updater's result, and that result is computed from the derived cursor |
| UrlPagination.PaginationAfterChange | src/hooks/useUrlPagination.ts:10-37 | after a change the hook derives the normalised updater result, which is the result itself when it is well-formed |
| UrlPagination.FunctionUpdaterExample | src/hooks/useUrlPagination.ts:27 | a function updater is applied to the derived cursor: from page 2 of size 10, a function that keeps the index and sets the size to 20 writes `pageIndex=2` and `pageSize=20` |
| UserColumns.NameCell | src/pages/user/userTable.tsx:35-39 | the name cell is the last name followed directly by the first name |
| UserColumns.RoleCell | src/pages/user/userTable.tsx:43-47 | the role cell is empty exactly for a missing or empty list; it is ROLE_ADMIN exactly when the list contains it, and ROLE_USER exactly for any other non-empty list |
| UserColumns.StripNonDigits | src/pages/user/userTable.tsx:59 | removing non-digits leaves a digit string no longer than the input; the lemmas below state which characters it keeps |
| UserColumns.StripNonDigitsDropsNonDigits | src/pages/user/userTable.tsx:59 | a string without digits strips to the empty string; with `StripNonDigitsKeepsDigits` and `StripNonDigitsAppend` this pins the stripping down to "every digit kept, in order, every other character dropped" |
| UserColumns.StripNonDigitsAppend | src/pages/user/userTable.tsx:59 | stripping a concatenation is the concatenation of the stripped parts |
| UserColumns.StripNonDigitsKeepsDigits | src/pages/user/userTable.tsx:59 | a string of digits is unchanged by the stripping |
| UserColumns.FindRun | src/pages/user/userTable.tsx:59 | the position the 3-4-4 pattern matches is the leftmost run of eleven digits, or none when there is no such run |
| UserColumns.PhoneCellKeepsDigits | src/pages/user/userTable.tsx:58-59 | the phone cell with its dashes removed is exactly the digits of the input, in order |
| UserColumns.PhoneCellShape | src/pages/user/component/userTable.tsx:78-81 | with fewer than 11 digits the cell is the bare digits; otherwise it is `ddd-dddd-dddd` for the first 11, followed by the remaining digits |
| UserColumns.AuthoritiesFilter | src/pages/user/userTable.tsx:48-52 | every row passes on an empty value; otherwise the filter throws on a null list and is list membership of the value in the raw list |
| UserColumns.SmsYnFilter | src/pages/user/userTable.tsx:90-94 | every row passes on an empty value; otherwise exactly the rows whose `sms_yn` equals it |
| UserColumns.ActivatedFilter | src/pages/user/userTable.tsx:118-123 | every row passes on an empty value; "true" selects the active rows, and any other value selects the inactive ones |
| UserColumns.LangKeyFilter | src/pages/user/userTable.tsx:127-131 | every row passes on an empty value; otherwise exactly the rows whose `lang_key` equals it |
| UserColumns.ExactFilter | src/pages/user/component/userTable.tsx:111-115 | the shared shape of the two equality filters: true on an empty value, otherwise string equality |
| UserColumns.AdminFilterMatchesRoleCell | src/pages/user/component/userTable.tsx:64-73 | for every row, filtering on ROLE_ADMIN succeeds with true exactly when the role cell reads ROLE_ADMIN (a null list throws and shows an empty cell) |
| UserColumns.UserFilterIsNotRoleCell | src/pages/user/component/userTable.tsx:64-73 | filtering on ROLE_USER is not the displayed role: `[ROLE_ADMIN, ROLE_USER]` passes but displays ROLE_ADMIN; `[ROLE_GUEST]` fails but displays ROLE_USER |
| UserColumns.SmsYnFilterOptions | src/pages/user/component/userTable.tsx:111-115 | no row passes both "Y" and "N", and a row holding either passes one of them |
| UserColumns.ActivatedFilterPartitions | src/pages/user/component/userTable.tsx:139-144 | "true" and any other non-empty value select complementary sets of rows |
| UserColumns.LangKeyFilterOptions | src/pages/user/component/userTable.tsx:148-152 | no row passes both "ko" and "en", and an empty or missing value passes every row |
| UserTableDraft.PageSizeChangeResets | src/pages/user/component/userTable.tsx:278-282 | from any cursor, the page-size updater gives page 0 at the new size |
| UserTableDraft.PageSizeChangeRoundTrip | src/pages/user/component/userTable.tsx:272-289 | choosing any offered size (5, 10, 15, 20) and writing the result into the URL, the table reads back page 0 at that size |

## Left out

- Rendering: the JSX, styles, SMS and activation badges, dialog markup, and the stub body of `src/pages/user/component/userModal.tsx`. These are UI; the only logic is a title ternary.
- TanStack Table internals: sorting, the global filter, the pagination row model, page counts, `resetColumnFilters`, and how a filter value reaches `filterFn`. These are library code that is not part of this model. The table's own `useState` cells (`sorting`, `columnFilters`, `globalFilter`) are left out with them.
- React scheduling and `useMemo`/`useCallback` memoisation. Each callback is one atomic step, and `pagination` is always derived from the current entry.
- react-router: `useSearchParams`/`setSearchParams` are modelled only as a list of queries whose last entry is current, with a replace-top operation. Pushes and other navigations are not modelled.
- Percent-encoding: the `toString()`/re-parse copy at `src/hooks/useUrlPagination.ts:30` is an identity copy of the pairs.
- JavaScript numbers are unbounded integers here, with NaN as `None`. Left out are:
  - fractions and `-0`
  - values past 2^53
  - exponent notation in `String(x)` for |x| >= 1e21
  - `Infinity`
- The draft's `Number(e.target.value)` on the select value: the updater takes the integer directly, and the round-trip lemma ranges over the four offered sizes.
- The page-size updater: the source spreads `...old` before overriding both fields. A cursor has no other fields, so the updater builds the new cursor outright.
- Routing, navigation config, sidebar, `src/App.tsx`, `src/main.tsx` and `eslint.config.js`: these are static configuration or UI.
- The `filterFn` parameters `row` and `id` are replaced by the `User` record, and each filter reads its own field.
