# User list and user repository, modelled in Dafny

This project models the data core of a small Next.js user-management front end.

- **The user repository.** Five functions keep every user in one JSON array, stored in the browser's `localStorage` under the key `USER`: `getUsers`, `getUserById`, `createUser`, `removeUserById` and `editUser`.
- **The list page's rules.**
  - The search filter over name, company, role, status and the verified flag.
  - Sorting by name in either direction.
  - The order toggle.
  - Deletion through the confirmation dialog.
- **The create form.**
  - Its validation schema, including the image-URL regular expression.
  - The record it builds and appends on submit.
  - The `verified` checkbox.

The project is organised as follows:

| file | module | contents |
|---|---|---|
| `basics.dfy` | `Basics` | `Option` and `Result` |
| `seqs.dfy` | `Seqs` | `Array.prototype.filter` and `find` as `Filter` and `Find`, with their laws |
| `strings.dfy` | `Strings` | `toLowerCase`, `includes`, `trim`, the regex `.` class and `localeCompare` |
| `users.dfy` | `Users` | the `User` record; removal and lookup by id |
| `storage.dfy` | `Storage` | `localStorage` as a class with an `items` map, and the five repository operations |
| `list_page.dfy` | `ListPage` | the search rule; the in-place insertion sort on `array<User>`; the page state as a class |
| `image_pattern.dfy` | `ImagePattern` | the image-URL pattern as a decision procedure, with the language it generates |
| `create_page.dfy` | `CreatePage` | the schema, the record built on submit, and the form class |

How the model represents the code:

- `localStorage` holds strings. An `Entry` is either `Json(users)`, the text `JSON.stringify` produced for a user array, or `Foreign(text)`. `Foreign(text)` stands only for the empty string or for text that is not the JSON of a user array.
- `getUsers` treats a missing key and the empty string alike, because both are falsy, and returns `[]` for them.
- For non-empty foreign text, the model returns `Err(MalformedBlob)`. This stands for `JSON.parse` throwing, and also for text that parses to something other than an array. Nothing in the code catches either. Every operation that reads the store passes the error on and writes nothing.

Some of the code's behaviour may surprise a reader:

- **A corrupt store.** `getUsers` does not fall back to an empty list when the `USER` entry holds invalid JSON. `src/storage/getUsers.ts:6` parses without a `try`, so the error reaches the caller.
- **Duplicate ids.** Ids are not unique in the store. `createUser` appends without checking, and `CountIdAppend` proves that the count for the id rises by one.
- **Name length.** The name is checked before it is trimmed. `"  a"` passes the three-character minimum, and the record is stored with the name `"a"` (`PaddedShortNamePasses`).
- **Cancelling the delete dialog.** The comment at `src/app/users/list/page.tsx:36` says the pending id is cleared when a removal is cancelled, but no code does that. The model has no cancel step. This is harmless, because the Delete button is only reached after `openDeleteModal` sets the id again.
- **A search term containing "no".** It matches every unverified user, whatever else the term says: a search for "Arnold" lists all unverified users (`ArnoldMatchesEveryUnverifiedUser`).

## Model

| member | source | states |
|---|---|---|
| Seqs.Filter | src/storage/removeUserById.ts:6 | `filter` keeps exactly the accepted elements: each kept element is from the input and accepted, each accepted input element is kept, the length is the number accepted, and input order is preserved (`Embeds`) |
| Seqs.FilterAppend | src/storage/removeUserById.ts:6 | filtering a concatenation is the concatenation of the filtered parts |
| Seqs.FilterKeepsAll | src/app/users/list/page.tsx:60-67 | when the callback accepts everything, `filter` returns its input unchanged |
| Seqs.FilterIdempotent | src/storage/removeUserById.ts:6 | filtering twice with the same callback is filtering once |
| Seqs.FilterDropsRejected | src/storage/removeUserById.ts:6 | the filtered length is the input length minus the number of rejected elements |
| Seqs.FilterMultiplicity | src/app/users/list/page.tsx:108 | every value occurs in the filtered list as often as in the input when accepted, and not at all otherwise |
| Seqs.FilterPreservesPermutation | src/app/users/list/page.tsx:108-110 | filtering two lists that are permutations of each other gives permutations of each other |
| Seqs.Find | src/storage/getUserById.ts:6 | `find` returns nothing exactly when no element is accepted; otherwise it returns the accepted element at the smallest index |
| Strings.LowerChar | src/app/users/list/page.tsx:59-66 | an upper-case ASCII letter becomes its lower-case letter, every other character is kept, and no result is an upper-case letter |
| Strings.Lower | src/app/users/list/page.tsx:59-66 | lowering keeps the length and lowers each character |
| Strings.LowerIdempotent | src/app/users/list/page.tsx:59-66 | lowering twice is lowering once |
| Strings.Contains | src/app/users/list/page.tsx:61-66 | `includes` holds for the empty needle, and only for needles no longer than the haystack |
| Strings.ContainsIffOccurs | src/app/users/list/page.tsx:61-66 | `includes` holds exactly when the needle occurs at some offset |
| Strings.IsWhitespace | src/app/users/create/page.tsx:56-57 | the characters `trim` removes: ECMAScript WhiteSpace (tab, vertical tab, form feed, space, no-break space, the Unicode space separators, byte-order mark) and LineTerminator |
| Strings.TrimStart | src/app/users/create/page.tsx:56-57 | the result is a suffix of the input; what was cut is all whitespace; the result does not start with whitespace |
| Strings.TrimEnd | src/app/users/create/page.tsx:56-57 | the result is a prefix of the input; what was cut is all whitespace; the result does not end with whitespace |
| Strings.Trim | src/app/users/create/page.tsx:56-57 | `trim` returns a slice of the input with only whitespace cut on each side, and the slice neither starts nor ends with whitespace |
| Strings.TrimOfUnpadded | src/app/users/create/page.tsx:57 | a string that neither starts nor ends with whitespace is its own trim |
| Strings.TrimKeepsUnpaddedHead | src/app/users/create/page.tsx:57 | when the first and the n-th characters are not whitespace, `trim` keeps a prefix at least n long |
| Strings.TrimIdempotent | src/app/users/create/page.tsx:56-57 | trimming twice is trimming once |
| Strings.NoLineTerminator | src/app/users/create/page.tsx:24 | the strings `.*` matches: no line feed, carriage return, line separator or paragraph separator |
| Strings.CompareNames | src/app/users/list/page.tsx:50 | the comparison returns -1, 0 or 1, and returns 0 exactly for equal names |
| Strings.CompareNamesAntisymmetric | src/app/users/list/page.tsx:90 | swapping the operands negates the comparison, so the descending comparator is the ascending one reversed |
| Strings.CompareNamesTransitive | src/app/users/list/page.tsx:50 | "sorts no later than" is transitive, which makes the comparator a valid sort order |
| Users.CountId | src/storage/removeUserById.ts:6 | the number of records the filter drops for an id never exceeds the number of records |
| Users.CountIdZero | src/storage/removeUserById.ts:6 | no record carries the id exactly when its count is zero |
| Seqs.CountWhereZero | src/storage/removeUserById.ts:6 | the callback accepts no element exactly when the count of accepted elements is zero |
| Users.WithoutId | src/storage/removeUserById.ts:6 | no kept record has the id; every record with another id is kept; exactly the records with the id are dropped; order is preserved |
| Users.FindById | src/storage/getUserById.ts:6 | no result exactly when no record has the id; otherwise the first record with the id |
| Users.WithoutAbsentId | src/storage/removeUserById.ts:6 | removing an id that no record carries changes nothing |
| Users.WithoutIdIdempotent | src/storage/removeUserById.ts:6 | removing the same id twice is removing it once |
| Users.WithoutIdAppend | src/storage/editUser.ts:6-8 | removal by id distributes over concatenation |
| Storage.LocalStorage.constructor | src/storage/getUsers.ts:4 | a fresh store holds no entries, so the `USER` key is absent |
| Storage.LocalStorage.SetItem | src/storage/createUser.ts:8 | `setItem` overwrites the one key and leaves every other entry alone |
| Storage.GetUsers | src/storage/getUsers.ts:3-9 | a missing key reads as `[]`; a stored array reads back as itself; the read fails exactly when the entry is non-empty foreign text; a non-empty result is the stored array |
| Storage.GetUsersReadsOnlyUserKey | src/storage/getUsers.ts:4 | only the `USER` entry decides what `getUsers` returns |
| Storage.GetUsersAfterWrite | src/storage/getUsers.ts:4-6 | an array written under `USER` is read back unchanged |
| Storage.GetUserById | src/storage/getUserById.ts:3-9 | the lookup fails exactly when the read fails; a found record has the id and is stored; nothing is found exactly when no stored record has the id |
| Storage.CreateUser | src/storage/createUser.ts:4-9 | succeeds exactly when the read succeeds; on failure the store is unchanged; on success the stored array is the old one plus the new record, and a record with a fresh id is what `getUserById` then finds |
| Storage.RemoveUserById | src/storage/removeUserById.ts:3-9 | succeeds exactly when the read succeeds; on failure the store is unchanged; on success the array without the id is stored, and `getUserById` then finds nothing |
| Storage.EditUser | src/storage/editUser.ts:5-9 | succeeds exactly when the read succeeds; on failure the store is unchanged; on success the other records are stored followed by the new one, which `getUserById` then finds |
| Storage.Edited | src/storage/editUser.ts:5-9 | the array after an edit drops every record with the id, then ends with the new record; no earlier record has the id |
| Storage.FindByIdAppendFresh | src/storage/createUser.ts:7 | appending a record whose id is new makes it the one `find` returns |
| Storage.CountIdAppend | src/storage/createUser.ts:7 | `createUser` checks no uniqueness: the number of records with the id rises by one |
| Storage.EditedHasOneRecordForId | src/storage/editUser.ts:5-9 | after an edit exactly one record has the id; it is the new record, and it is last |
| Storage.EditedKeepsOthers | src/storage/editUser.ts:6 | records with other ids survive an edit, in their original order |
| Storage.EditAbsentIsCreate | src/storage/editUser.ts:5-9 | editing an id that is not stored is the same as creating the record |
| Storage.EditIdempotent | src/storage/editUser.ts:5-9 | editing twice with the same record leaves what editing once left |
| Storage.EditKeepsLength | src/storage/editUser.ts:5-9 | when the id occurred once, an edit keeps the number of records |
| ListPage.MatchesSearch | src/app/users/list/page.tsx:59-67 | the search rule: the lowered term occurs in the lowered name, company, role or status, or it contains "yes" and the user is verified, or "no" and the user is not; the empty term matches every user |
| ListPage.SearchFilter | src/app/users/list/page.tsx:59-67 | the shown list holds only users that match, keeps every matching user in list order, and is as long as the number of matching users, which together make it exactly the filtered list |
| ListPage.SearchFilterMultiplicity | src/app/users/list/page.tsx:60-67 | each matching record is shown as many times as it is stored, and no other record is shown |
| ListPage.EmptySearchKeepsAll | src/app/users/list/page.tsx:59-67 | the empty term shows every user, in order |
| ListPage.NoInTermShowsUnverified | src/app/users/list/page.tsx:65 | a term containing "no" shows every unverified user |
| ListPage.YesInTermShowsVerified | src/app/users/list/page.tsx:64 | a term containing "yes" shows every verified user |
| ListPage.ArnoldMatchesEveryUnverifiedUser | src/app/users/list/page.tsx:59-65 | the term "Arnold" matches every unverified user, whatever their name |
| ListPage.Comparator | src/app/users/list/page.tsx:50-90 | the comparator is zero exactly for equal names, and the descending comparator is the ascending one negated |
| ListPage.InOrderTotal | src/app/users/list/page.tsx:90 | any two users can be ordered one way or the other, in either direction |
| ListPage.SortedPairwise | src/app/users/list/page.tsx:90 | in a list sorted by name, every earlier user is in order with every later one |
| ListPage.SwapDown | src/app/users/list/page.tsx:90 | exchanging neighbours moves just those two elements and keeps the multiset |
| ListPage.InsertIntoPrefix | src/app/users/list/page.tsx:90 | inserting one more element keeps the prefix sorted, the elements the same, and the rest of the array untouched |
| ListPage.SortByName | src/app/users/list/page.tsx:50 | `sort` in place leaves the array sorted by name in the chosen direction and a permutation of what it held |
| ListPage.BobAnnSortsToAnnBob | src/app/users/list/page.tsx:50 | the only ascending order of "Bob" and "Ann" is Ann, then Bob |
| ListPage.SortedCopy | src/app/users/list/page.tsx:89-91 | the list `sortUsers` stores is sorted in the chosen direction and holds the same users |
| ListPage.UsersPage.constructor | src/app/users/list/page.tsx:31-39 | the page starts with no users, an empty term, no pending deletion and the ascending order |
| ListPage.UsersPage.LoadUsers | src/app/users/list/page.tsx:46-54 | loading succeeds exactly when the read succeeds; it shows the stored users sorted ascending; the shown list stays the search result |
| ListPage.UsersPage.HandleSearchChange | src/app/users/list/page.tsx:57-81 | a new term replaces the shown list with the search result for that term and changes nothing else |
| ListPage.UsersPage.SortUsers | src/app/users/list/page.tsx:89-92 | re-sorting leaves the same users sorted in the given direction; the shown list stays the search result |
| ListPage.UsersPage.HandleToggleSortUsersOrder | src/app/users/list/page.tsx:95-98 | the toggle flips the direction, and the users are sorted in the new direction |
| ListPage.UsersPage.OpenDeleteModal | src/app/users/list/page.tsx:118-121 | opening the dialog records the user id to remove and changes nothing else |
| ListPage.UsersPage.HandleRemove | src/app/users/list/page.tsx:106-115 | with no pending id, or the empty id, nothing happens; otherwise every user with the id leaves the list and the store, and the pending id is cleared. When the list and the store held the same users before, they still do after |
| ListPage.ToggleTwice | src/app/users/list/page.tsx:95-98 | toggling twice restores the direction and keeps the same users, sorted |
| ImagePattern.ImageTypeLetters | src/app/users/create/page.tsx:24 | every accepted image type is a non-empty run of lower-case letters |
| ImagePattern.EndsWithImageType | src/app/users/create/page.tsx:24 | the tail check `.*\.` followed by an image type: no line terminator, and after some dot an accepted image type up to the end |
| ImagePattern.HttpImageUrl | src/app/users/create/page.tsx:24 | the first alternative: `http://` or `https://` followed by a tail the tail check accepts |
| ImagePattern.DataImageUrl | src/app/users/create/page.tsx:24 | the second alternative: the header of an accepted image type, then text without line terminators |
| ImagePattern.ImageUrlValid | src/app/users/create/page.tsx:24-25 | the `imageUrl` rule: either alternative matches the whole string |
| ImagePattern.DataHeader | src/app/users/create/page.tsx:24 | the inline-image header starts with 'd', ends with ',' and is 19 characters longer than the type |
| ImagePattern.EndsWithImageTypeSplits | src/app/users/create/page.tsx:24 | a tail accepted by `.*\.` followed by an image type splits as text without line terminators, a dot, and an image type |
| ImagePattern.SplitEndsWithImageType | src/app/users/create/page.tsx:24 | text without line terminators, then a dot and an image type, is accepted by `.*\.` followed by an image type |
| ImagePattern.EndsWithImageTypeIff | src/app/users/create/page.tsx:24 | the tail check accepts exactly that language |
| ImagePattern.SchemeWordShift | src/app/users/create/page.tsx:24 | a word of a scheme's language is the scheme followed by a word of the tail language |
| ImagePattern.SchemeAlternativeIff | src/app/users/create/page.tsx:24 | the `http://` and `https://` halves of the first alternative each accept exactly their language |
| ImagePattern.DataAlternativeIff | src/app/users/create/page.tsx:24 | the `data:image/` alternative accepts exactly its language |
| ImagePattern.ImageUrlValidIffPattern | src/app/users/create/page.tsx:24-25 | the `imageUrl` check accepts exactly the strings the regular expression generates |
| ImagePattern.HttpImageUrlIsTrimmed | src/app/users/create/page.tsx:57 | an http(s) image URL passing the check is unchanged by `trim` |
| ImagePattern.DataImageUrlPrefix | src/app/users/create/page.tsx:24 | cutting an inline-image URL anywhere after its header leaves a valid inline-image URL |
| ImagePattern.DataImageUrlSurvivesTrim | src/app/users/create/page.tsx:57 | a trimmed inline-image URL is still a valid one |
| ImagePattern.ValidImageUrlSurvivesTrim | src/app/users/create/page.tsx:24-57 | the stored image URL of a valid form still passes the check, and an http(s) one is stored unchanged |
| CreatePage.DefaultImagePathEndsWithSvg | src/app/users/create/page.tsx:46 | the default URL's path ends in the image type ".svg" |
| CreatePage.DefaultImageUrlValid | src/app/users/create/page.tsx:46 | the form's initial image URL passes its own check |
| CreatePage.NameValid | src/app/users/create/page.tsx:23 | `name` is required and at least 3 characters long, counted before trimming |
| CreatePage.IsValid | src/app/users/create/page.tsx:22-30 | the schema: a valid name, a non-empty image URL the pattern accepts, and a company, role and status from their option lists |
| CreatePage.NewUser | src/app/users/create/page.tsx:54-62 | the record `onSubmit` builds: the trimmed name and image URL, the other fields copied, `verified` from the checkbox |
| CreatePage.SubmittedRecordFollowsSchema | src/app/users/create/page.tsx:53-62 | the record built from a valid form has the form's id, company, role and status, the trimmed name and image URL, and the checkbox state as `verified`; its company, role and status are from their lists; its image URL is valid; its name is no longer than the typed one and starts with no whitespace |
| CreatePage.TrimTwoBlanksAndA | src/app/users/create/page.tsx:56 | trimming "  a" gives "a" |
| CreatePage.PaddedShortNamePasses | src/app/users/create/page.tsx:23-56 | the name "  a" passes the three-character minimum, and the stored name is "a" |
| CreatePage.CreateForm.constructor | src/app/users/create/page.tsx:34 | the checkbox starts unchecked |
| CreatePage.CreateForm.HandleIsVerified | src/app/users/create/page.tsx:37-39 | the handler flips the checkbox state |
| CreatePage.CreateForm.HandleSubmit | src/app/users/create/page.tsx:42-64 | invalid values do nothing; valid values are never reported invalid; a valid submit appends the built record, with the checkbox state as `verified`, exactly when the store can be read, and otherwise leaves the store unchanged |

## Left out

- Rendering, routing (`router.push`), toasts, the loading flag and the modal's DOM calls are not modelled. They change no data.
- The 300 ms debounce of the search is not modelled. `HandleSearchChange` applies the filter at once, which is the state the page settles in.
- `uuid` generation (`v4()`) is left out. The id is an input of the form.
- Strings.Lower, Strings.LowerChar: lower-case only ASCII letters, because Unicode case mapping is outside the model. Every other character is kept as it is.
- Strings.CompareNames: compares code points, because the locale's collation behind `localeCompare` is not modelled. Any comparator that is a total preorder on names would satisfy the same sorting lemmas.
- ListPage.SortByName: the array order is proved sorted and a permutation. It does not state the stability of `Array.prototype.sort`.
- ListPage.UsersPage.SortUsers: sorts a copy. The in-place `sort` on React's state array is not modelled as aliasing: `users` is a value field.
- `JSON.stringify` and `JSON.parse` are not modelled character by character. A stored user array reads back as itself (`Entry.Json`).
- Storage.GetUsers: non-empty text that is not the JSON of a user array always gives `Err`. The code differs in these ways, none of which the model captures:
  - `JSON.parse` returns a value for text such as `null`, `{}` or `42`, and the error comes later: from the caller's `filter`, `find` or `sort` on a non-array, or from the spread `[...storedUsers, newUser]` in `createUser`.
  - A JSON string makes `createUser` spread its characters into the array without throwing.
  - Text that is the JSON of an array whose elements have no `id` property, such as `[{}]`, `[1]` or `["x"]`, parses without throwing. After that, `createUser` appends to it and writes, `removeUserById` keeps those elements (their missing `id` never equals the id being removed) and writes, and `getUserById` finds nothing.
  - For an array holding `null`, such as `[null]`, reading `user.id` throws a `TypeError` in `removeUserById` and in `getUserById`, while `createUser` still appends and writes.
  - An element that carries a matching `id` without being a full record, such as `{"id":"7"}`, is dropped by `removeUserById("7")` and returned by `getUserById("7")`, as a record would be.
  - Text such as `[]` that is the JSON of a user array but is written as `Foreign` is well-typed, but does not stand for any real store.
- Storage.LocalStorage.SetItem: never fails. The browser's `setItem` can throw `QuotaExceededError` when the storage quota is full, and the operations that write would then pass that error on with the store unchanged.
- The JavaScript exception that `getUsers` throws becomes an `Err` result. Control flow after the throw is modelled as "nothing more is written".
- Concurrent tabs writing the same `localStorage` key are not modelled.
- The edit page (`src/app/users/edit/[id]/page.tsx`) is not part of this model. Its storage calls are `getUserById` (line 48), `editUser` (line 79) and `removeUserById` (line 88), all three modelled.
- CreatePage.NameValid: counts characters, not UTF-16 code units as `min(3)` does. A name such as "😀a" is 3 code units and passes in the code, but it is 2 characters and fails in the model.
- The `yup` messages ("Name required", "Invalid Url", …) are not modelled. `IsValid` is the pass/fail verdict only.
