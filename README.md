# User roster: a Dafny model

A Dafny model of the core of an Angular user-roster application, with proofs about it. The model covers:

- **`UserService`**: holds the roster and answers paged, filtered queries over it.
  - Status, search and role filters, then a page slice.
  - Lookup by id.
  - Add, update, toggle and delete, each saving the roster.
- **`UserListComponent`**:
  - Reads its view state (page, page size, search term, status, role) from the address bar's query parameters.
  - Shows the page the service returns.
  - Writes the state back to the address bar after a filter, search or pagination change.
  - After a toggle or a delete, pulls the page back in range, and writes the address bar only when the page had to move.
  - Groups a record's extra columns into rows.
- **`PaginationComponent`**: the page bar. It offers pages 1..totalPages and reports accepted page or page-size changes.
- **`uniqueEmailValidator`**: rejects an e-mail that another record already holds. The comparison ignores letter case and surrounding white space.

Files, one module each:

- `optional.dfy`: `Optional`, an option type.
- `text.dfy`: `Text`, the JavaScript string operations the core uses: ASCII `toLowerCase`, `trim`, `includes`.
- `numbers.dfy`: `JsNumber`, which covers:
  - unary `+` on a string, with NaN;
  - `x || d` on numbers;
  - `String(n)`;
  - `Math.ceil(a / b)` on integers.
- `sequences.dfy`: `Seqs`, array `filter`, JavaScript `slice` (negative indices included) and flattening.
- `user_model.dfy`: `UserModel`, the user record and the filter values.
- `roster.dfy`: `Roster`, the service's queries as functions, the effect of each mutator as a function on the roster, and the `UserService` class.
- `pagination.dfy`: `Pagination`, the `PaginationComponent` class.
- `user_list.dfy`: `UserList`, which holds:
  - the query-parameter codec and the page clamp;
  - the `UserListComponent` class.
- `unique_email.dfy`: `UniqueEmail`, the validator.

Mutable objects are classes whose methods state their complete new state. That state is given by functions on the old state, such as `Toggled`, `Removed`, `Decode` and `ClampedPage`. The lemmas then prove what the application relies on about those functions:

- Paging reproduces the filtered list.
- The address bar round-trips the view state.
- A clamped page is filled.
- Deleting one id leaves every other lookup alone.
- The validator ignores letter case and padding.

## Model

| member | source | states |
|---|---|---|
| Text.Lower | src/app/user/user.service.ts:64 | `toLowerCase` keeps the length and lowers each letter on its own |
| Text.Trim | src/app/shared/validators/unique-email.validator.ts:25 | `trim` leaves no white space at either end and never lengthens the string |
| Text.TrimIsCut | src/app/shared/validators/unique-email.validator.ts:25 | the trimmed string is a contiguous piece of the input with only white space cut before and after it |
| Text.Includes | src/app/user/user.service.ts:67-69 | the empty needle occurs in every string, and a needle longer than the string never does |
| Text.TrimLowerCommute | src/app/shared/validators/unique-email.validator.ts:25 | trimming then lowering equals lowering then trimming |
| Text.TrimIgnoresPadding | src/app/shared/validators/unique-email.validator.ts:25 | white space added around a string does not change its trimmed form |
| JsNumber.OrElse | src/app/user/user-list/user-list.component.ts:68-69 | `+p \|\| d` with a non-zero default is never 0 |
| JsNumber.ToNumber | src/app/user/user-list/user-list.component.ts:68-78 | unary `+`: a blank string is 0, a digit string its decimal value; a finite result comes from digits with at most a leading sign |
| JsNumber.ReadNumeral | src/app/user/user-list/user-list.component.ts:68-78 | on an already trimmed string: empty is 0, a digit string its decimal value, and a finite result has only digits after an optional leading sign |
| JsNumber.ToNumberIgnoresPadding | src/app/user/user-list/user-list.component.ts:68-78 | white space around a numeral does not change what unary `+` reads |
| JsNumber.NumberToString | src/app/user/user-list/user-list.component.ts:317-321 | `String(n)` is never empty or "all"; NaN is "NaN"; a finite number ends in a digit and starts with '-' exactly when negative |
| JsNumber.ToNumberOfString | src/app/user/user-list/user-list.component.ts:68-78 | reading back with unary `+` a number written with `String` gives the same number, NaN included |
| JsNumber.CeilDiv | src/app/shared/pagination/pagination.component.ts:41 | for a positive divisor the result r is the least with a <= r*b, so (r-1)*b < a; the ceiling of a count is non-negative and 0 exactly when the count is 0 |
| JsNumber.CeilDivUnique | src/app/user/user-list/user-list.component.ts:260 | that bracket fixes the quotient uniquely |
| Seqs.Filter | src/app/user/user.service.ts:58-75 | every kept element passes the test, and the result is never longer than the input |
| Seqs.FilterMultiplicity | src/app/user/user.service.ts:58-75 | each element is kept as many times as it occurs if it passes, otherwise never |
| Seqs.FilterCounts | src/app/user/user.service.ts:124 | every element's count after the filter is its count before if it passes, else 0 |
| Seqs.FilterThree | src/app/user/user.service.ts:55-76 | three filters in a row equal one filter by their conjunction |
| Seqs.Slice | src/app/user/user.service.ts:80 | `slice` returns elements of the input; for 0 <= start <= end it is the clamped window |
| Roster.FilteredUsers | src/app/user/user.service.ts:55-76 | the staged filters never lengthen the roster and keep only roster records that pass all three tests |
| Roster.PageOf | src/app/user/user.service.ts:79-80 | a page holds at most itemsPerPage records of the list, is empty past the end, and is the window from (page-1)*itemsPerPage |
| Roster.GetPaginatedUsers | src/app/user/user.service.ts:48-83 | every record shown is in the roster and passes all three filters; a page holds at most itemsPerPage records, none past the end; the count never exceeds the roster |
| Roster.FilteredIsConjunction | src/app/user/user.service.ts:55-76 | the staged filters keep exactly the records passing status, search and role together, and the order of the stages does not matter |
| Roster.TotalCountsMatches | src/app/user/user.service.ts:78 | totalUsers is the number of matching records, whatever the page and page size |
| Roster.FilteringKeepsOrder | src/app/user/user.service.ts:55-76 | the matching records appear in roster order |
| Roster.PagesUpToIsPrefix | src/app/user/user.service.ts:79-80 | pages 1..k joined are the first k*itemsPerPage matching records |
| Roster.AllPagesReproduceFiltered | src/app/user/user.service.ts:78-82 | pages 1..ceil(totalUsers/itemsPerPage) joined give every matching record exactly once, in order |
| Roster.FilterUsers | src/app/user/user.service.ts:128-152 | filterUsers never lengthens the roster and keeps only roster records passing its search and status tests |
| Roster.FilterUsersIsConjunction | src/app/user/user.service.ts:128-152 | filterUsers keeps exactly the records passing its search (name, email, address) and status tests, in order |
| Roster.LegacyAgreesWithoutSearch | src/app/user/user.service.ts:128-152 | with no search term filterUsers and the paged query select the same records |
| Roster.GetTotalPages | src/app/user/user.service.ts:157-163 | for a positive page size the fewest pages holding the filterUsers result, 0 exactly when it is empty |
| Roster.IndexOfId | src/app/user/user.service.ts:108 | findIndex gives the first index holding the id, or -1 when none does |
| Roster.GetUserById | src/app/user/user.service.ts:96-98 | a record is found exactly when some record has the id; it is the first such record |
| Roster.GetUserByIdCons | src/app/user/user.service.ts:96-98 | `find` returns the front record when it holds the id and otherwise searches the rest |
| Roster.MaxId | src/app/user/user.service.ts:102 | the largest id, held by some record |
| Roster.NextId | src/app/user/user.service.ts:101-102 | the new id exceeds every existing id; 1 for an empty roster, otherwise largest id plus 1 |
| Roster.Replaced | src/app/user/user.service.ts:107-113 | updateUser's roster: same length and ids, only the first record with the id replaced, unchanged when the id is absent |
| Roster.Toggled | src/app/user/user.service.ts:115-121 | toggleStatus's roster: only the first record with the id flips isActive, nothing else changes |
| Roster.Removed | src/app/user/user.service.ts:123-126 | deleteUser's roster holds no record with the id, and every other record as many times as before |
| Roster.AddedIsFound | src/app/user/user.service.ts:100-105 | the appended record is found under its new id, and distinct ids stay distinct |
| Roster.IndexOfIdFollowsIds | src/app/user/user.service.ts:108 | findIndex depends only on the ids |
| Roster.UpdatedIsFound | src/app/user/user.service.ts:107-113 | after an update the id finds the new record; updating twice is updating once; distinct ids stay distinct |
| Roster.ToggleTwiceRestores | src/app/user/user.service.ts:115-121 | toggling the same id twice restores the roster |
| Roster.FilterKeepsLookup | src/app/user/user.service.ts:124 | a filter that keeps every record holding an id leaves that id's lookup unchanged |
| Roster.FilterKeepsUniqueIds | src/app/user/user.service.ts:124 | filtering a roster with distinct ids leaves them distinct |
| Roster.RemovedKeepsOthers | src/app/user/user.service.ts:123-126 | deleting one id leaves the lookup of every other id unchanged |
| Roster.RemovedDropsId | src/app/user/user.service.ts:123-126 | after deleting, the id is not found, and distinct ids stay distinct |
| Roster.RemovedAbsentIsNoOp | src/app/user/user.service.ts:123-126 | deleting keeps the order, and deleting an absent id changes nothing |
| Roster.UserService.constructor | src/app/user/user.service.ts:8-12 | starts from the saved roster if there is one, else the seed, and saves it |
| Roster.UserService.AddUser | src/app/user/user.service.ts:100-105 | appends the record under NextId of the old roster and saves |
| Roster.UserService.UpdateUser | src/app/user/user.service.ts:107-113 | the roster becomes Replaced; it is saved only when the id was found |
| Roster.UserService.ToggleStatus | src/app/user/user.service.ts:115-121 | the roster becomes Toggled; it is saved only when the id was found |
| Roster.UserService.DeleteUser | src/app/user/user.service.ts:123-126 | the roster becomes Removed, and is saved |
| Pagination.PaginationComponent.constructor | src/app/shared/pagination/pagination.component.ts:14-17 | the input defaults: no items, 5 per page, page 1, sizes 5/10/20/50 |
| Pagination.PaginationComponent.TotalPages | src/app/shared/pagination/pagination.component.ts:40-42 | for a positive page size, at least one page and the fewest that hold every item |
| Pagination.OneToMembers | src/app/shared/pagination/pagination.component.ts:45 | 1..n holds exactly the numbers from 1 to n |
| Pagination.PaginationComponent.Pages | src/app/shared/pagination/pagination.component.ts:44-46 | the pages offered are exactly 1..totalPages, ascending |
| Pagination.PaginationComponent.ChangePage | src/app/shared/pagination/pagination.component.ts:21-25 | a page outside 1..totalPages is ignored with no event; otherwise it becomes current and (page, itemsPerPage) is emitted |
| Pagination.PaginationComponent.ChangePageSize | src/app/shared/pagination/pagination.component.ts:27-31 | the size takes effect on page 1, which is a valid page, and (1, size) is emitted |
| UniqueEmail.AnyConflict | src/app/shared/validators/unique-email.validator.ts:23-27 | `some` is true exactly when some entry clashes |
| UniqueEmail.UniqueEmailValidator | src/app/shared/validators/unique-email.validator.ts:15-30 | an error exactly when an entry with another id has the same trimmed, lower-cased e-mail; never for an empty list |
| UniqueEmail.EmailKeyIgnoresCaseAndPadding | src/app/shared/validators/unique-email.validator.ts:25 | e-mails differing in case or surrounding white space compare equal |
| UniqueEmail.ValidatorSeesOnlyTheKey | src/app/shared/validators/unique-email.validator.ts:21-27 | the verdict depends on the value only through its trimmed, lower-cased form |
| UniqueEmail.ValidatorIgnoresCaseAndPadding | src/app/shared/validators/unique-email.validator.ts:21-27 | values differing in case or padding get the same verdict |
| UniqueEmail.AnyConflictAppend | src/app/shared/validators/unique-email.validator.ts:23-27 | an extra entry adds exactly its own clash |
| UniqueEmail.OwnEntryNeverConflicts | src/app/shared/validators/unique-email.validator.ts:26 | the entry of the record being edited never causes an error |
| UniqueEmail.OmittedIdCountsOwnEntry | src/app/shared/validators/unique-email.validator.ts:17-26 | with no current id a record's own e-mail is a duplicate; with its id it is not |
| UniqueEmail.InlineEditCheck | src/app/user/user-list/user-list.component.ts:100-102 | the inline editor's check flags any entry with the same e-mail, the edited record's included |
| UniqueEmail.InlineEditRejectsOwnEmail | src/app/user/user-list/user-list.component.ts:100-102 | as written, the edited record's unchanged e-mail is rejected |
| UniqueEmail.CorrectedInlineEditCheck | src/app/shared/validators/unique-email.validator.ts:17-27 | with the edited id passed, only other records' e-mails clash |
| UniqueEmail.CorrectedInlineEditIgnoresOwnEntry | src/app/shared/validators/unique-email.validator.ts:17-27 | corrected, the edited record's own entry never makes its e-mail a duplicate |
| UserList.Decode | src/app/user/user-list/user-list.component.ts:67-82 | page and page size are never 0, default to 1 and 5 and otherwise take the parameter's number; search is the parameter, "" when missing; status is the parameter's number when it is non-empty and numeric, otherwise active; role is "all" exactly when missing, empty or "all", otherwise the parameter's number |
| UserList.Encode | src/app/user/user-list/user-list.component.ts:313-325 | writes exactly the five keys; search is removed exactly when empty, role exactly when "all" |
| UserList.MergedNumber | src/app/user/user-list/user-list.component.ts:313-325 | a number written to the address bar is read back as itself, from text that is neither empty nor "all" |
| UserList.DecodeEncodeRoundTrip | src/app/user/user-list/user-list.component.ts:313-325 | writing the state and reading it back gives the same state, whatever else the address bar holds (page and page size non-zero) |
| UserList.DecodeIsStable | src/app/user/user-list/user-list.component.ts:67-82 | a decoded state written back decodes to itself |
| UserList.Merge | src/app/user/user-list/user-list.component.ts:323 | `merge`: a key is present exactly when the update gives it a value or leaves it alone and it was present; updated keys take the new value, the others keep theirs |
| UserList.MergeKeepsOtherParams | src/app/user/user-list/user-list.component.ts:323 | `merge` leaves other query parameters untouched |
| UserList.ClampedPage | src/app/user/user-list/user-list.component.ts:259-265 | a page that overflowed becomes max(1, ceil(total/size)); any other page is kept; a page >= 1 ends in 1..max(1, ceil(total/size)) |
| UserList.ClampLandsOnLastPage | src/app/user/user-list/user-list.component.ts:260-262 | an overflowing page lands on the last page holding records: that page is filled and the next one is empty |
| UserList.ClampIsIdempotent | src/app/user/user-list/user-list.component.ts:259-265 | clamping twice is clamping once |
| UserList.ClampedPageIsFilled | src/app/user/user-list/user-list.component.ts:259-265 | after the clamp, the page holds a record whenever any record matches |
| UserList.UserListComponent.constructor | src/app/user/user-list/user-list.component.ts:43-47 | the field initialisers: page 1, 5 per page, status all, role all, no search |
| UserList.UserListComponent.RefreshDisplayedUsers | src/app/user/user-list/user-list.component.ts:327-337 | the table shows the service's answer for the current state |
| UserList.UserListComponent.UpdateUrl | src/app/user/user-list/user-list.component.ts:313-325 | the address bar gets the state merged in and decodes back to the current state |
| UserList.UserListComponent.OnQueryParams | src/app/user/user-list/user-list.component.ts:67-83 | the fields become Decode(params) and the table is refreshed |
| UserList.UserListComponent.Reload | src/app/user/user-list/user-list.component.ts:339-343 | optional reset to page 1, the table refreshed, the address bar written and decoding to the state |
| UserList.UserListComponent.OnRoleChange | src/app/user/user-list/user-list.component.ts:245-247 | back to page 1, refreshed, address bar written |
| UserList.UserListComponent.OnStatusChange | src/app/user/user-list/user-list.component.ts:249-251 | back to page 1, refreshed, address bar written |
| UserList.UserListComponent.OnSearchSettled | src/app/user/user-list/user-list.component.ts:88-91 | the settled text becomes the term, on page 1, refreshed, address bar written |
| UserList.UserListComponent.OnPaginationChange | src/app/user/user-list/user-list.component.ts:289-294 | the page bar's page and size are adopted, refreshed, address bar written |
| UserList.UserListComponent.ClampPage | src/app/user/user-list/user-list.component.ts:259-265 | the count is unchanged; the page becomes ClampedPage; the address bar is written only when the page overflowed |
| UserList.UserListComponent.PageStaysFilled | src/app/user/user-list/user-list.component.ts:257-266 | a clamped page on screen is non-empty when records match |
| UserList.UserListComponent.OnToggleStatus | src/app/user/user-list/user-list.component.ts:257-266 | the roster is toggled and saved only when the id was found; the page is clamped into 1..max(1, ceil(total/size)) and non-empty when anything matches |
| UserList.UserListComponent.OnDeleteUser | src/app/user/user-list/user-list.component.ts:276-287 | if declined, roster, saved roster, page, table, count and address bar are unchanged; if confirmed, the id is removed and saved, and the page is clamped and filled as for a toggle |
| UserList.ChunkIndexAfter | src/app/user/user-list/user-list.component.ts:239 | the loop index after k rounds: never above 0 for a size of 0 or less, at least k for a positive size |
| UserList.ChunkLoopNeverExits | src/app/user/user-list/user-list.component.ts:239 | as written, with a size of 0 or less and at least one column the loop test holds after every round |
| UserList.UserListComponent.ChunkChildren | src/app/user/user-list/user-list.component.ts:237-242 | for a positive size, ceil(n/size) rows that join back to the input, all but the last full, none empty |

## Left out

- Local storage and JSON are left out. The saved roster is a constructor argument (`None` stands for no saved data). What was last saved is the ghost field `persisted`. An empty saved string reads as no saved data in the source, and the model does not tell it apart.
- A `JSON.parse` failure is not modelled, because the source does not catch one either.
- The rxjs debounce and `distinctUntilChanged` pipeline is left out. `OnSearchSettled` is only its subscriber, called with a term that has settled.
- Router navigation is left out. `UpdateUrl` merges its parameter map into the `url` field. The query-parameter subscription is `OnQueryParams`, which the owner calls with the parameters the router delivers.
- The `confirm()` dialog in `onDeleteUser` is the `confirmed` parameter.
- Angular forms are left out. This covers the inline-edit, bulk-edit and add-column forms, the user-edit component and the built-in validators. Only the e-mail check of the inline editor appears, under Findings.
- `getRoleName` and `getRoleClass` are presentation strings, and are left out.
- The seed data and the enumeration files are not part of this model.
  - A role is an integer code.
  - `StatusTypeEnum` is taken as a numeric enumeration: all = 0, active = 1, inactive = 2.
  - The service compares status with the strings 'active' and 'inactive', while the list component passes the enumeration. The model does not settle how one reaches the other: the component takes that mapping as its `statusView` constant.
  - If the enumeration is numeric, the service's tests never match, so status filtering does nothing.
  - If it is string-valued, `+statusParam` is NaN for every status, so the address bar always decodes to "active".
- `getAllEmailsWithId` is not part of this model. Its (id, email) list is an input of the validator.
- `UserService.addUser` sets the id on the caller's object, and `toggleStatus` flips the flag on the record object, which the displayed page shares. Records are values in the model, so this aliasing is not captured. `AddUser` returns the stored record instead.
- JsNumber.ToNumber: reads only optional-sign decimal integers (after ASCII white space trimming). Fractions, exponents, hexadecimal and "Infinity" give NaN instead of their JavaScript value.
- Text.Lower, Text.Trim: ASCII letters and ASCII white space only. Unicode case mapping and Unicode white space are not modelled.
- Pagination.PaginationComponent.TotalPages, Roster.GetTotalPages: require a non-zero page size. The source divides by zero and gets Infinity or NaN there.
- UserList.ClampedPage and `ClampPage` treat a zero page size exactly: the comparison with Infinity or NaN fails and the page stays.
- UserList.DecodeEncodeRoundTrip: requires page and page size to be non-zero. A 0 written to the address bar reads back as the default 1 or 5, so there is no round trip for 0.
- `search` is used untrimmed, so a search of spaces still filters.
- The code filters in the order status, search, role. `FilteredIsConjunction` proves that any order keeps the same records.
- UserList.UserListComponent.ChunkChildren: requires size > 0. As written the loop never ends for a size of 0 or less (see Findings), so the model proves its contract only for positive sizes.
- Numbers are unbounded integers, not JavaScript doubles. Precision loss above 2^53 and the exponent form `String` uses from 1e21 on are not modelled.
- The validator's `console.log` of the current id (src/app/shared/validators/unique-email.validator.ts:28) is output only, and is left out.

## Findings

| source | as written | input that shows it | evidently intended | confidence | as-written member | corrected member |
|---|---|---|---|---|---|---|
| src/app/user/user-list/user-list.component.ts:100-102 | the inline editor builds `uniqueEmailValidator(this.userService)` without the edited record's id, so the record's own entry counts as a clash | editing the record with id 1 whose stored e-mail is "a@x.io", keeping the e-mail: the entry (1, "a@x.io") matches and the form reports notUniqueEmail | pass `user.id` as `currentUserId`, so only other records' e-mails clash | medium, not executed | UniqueEmail.InlineEditRejectsOwnEmail | UniqueEmail.CorrectedInlineEditIgnoresOwnEntry |
| src/app/user/user-list/user-list.component.ts:237-242 | chunkChildren adds `size` to its index each round and stops only when the index reaches the number of columns, whatever the sign of `size` | one column and a size of 0: the index stays 0 and the loop never ends | a positive size, or a guard that ends the loop when the size is not positive | low, not executed | UserList.ChunkLoopNeverExits | UserList.UserListComponent.ChunkChildren |
