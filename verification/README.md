# User directory: verified model of the page state and the add-user form

The user directory is a single browser page. It fetches a list of user
records from a remote directory service. It merges in the records created
on the page, which the browser keeps under the storage key "customUsers".
It shows the merged list filtered by a search text and sorted by name in
either direction. An add-user form validates its inputs, builds a trimmed
record, and hands the record to the page. The page stamps the record with
the current clock value as its id, appends it, and rewrites the stored list.

This project models those two pieces:

- `directory_page.dfy` (module `DirectoryPage`) covers the page.
  - The class `UserDirectoryPage` holds the page state and has one method per handler.
  - `LoadResult` is the outcome of the load.
  - `SearchResults` / `SortByName` / `View` specify the derived view.
  - `SortInPlace` is the in-place sort of the filtered copy.
  - `CustomUsers` is the projection that gets persisted.
- `add_user_form.dfy` (module `AddUserForm`) covers the form.
  - The class `Form` holds the twelve inputs and the errors object.
  - `ValidationErrors` and the email-shape predicate specify validation.
  - `DeriveUsername` and `BuildProfile` build the submitted record.
- `users.dfy` (module `Users`) holds the record types.
- `text.dfy` (module `Text`) holds the string operations the code relies on:
  - `trim`, `toLowerCase` and `includes`;
  - the removal of white space;
  - the comparison of names.
- `wrappers.dfy` holds `Option` and `Result`.

## Model

| member | source | states |
|---|---|---|
| Text.Trim | components/add-user-form.jsx:26-40 | the trimmed text starts and ends with a non-space and is empty exactly when the input is all white space. It is the input with only white space dropped, and only at the two ends: some prefix and some suffix of white space surround it |
| Text.TrimStrips | components/add-user-form.jsx:26-40 | the trimmed text sits in the input right after the white space that trimming the start drops, with only white space after it |
| Text.StripsAtFacts | components/add-user-form.jsx:26-40 | a trimmed text surrounded only by white space is part of the input, and it is empty exactly when the input is all white space |
| Text.LowerChar | app/page.jsx:52-53 | an upper-case letter maps to the matching lower-case letter. No upper-case letter is left, white space stays white space, and every other character is unchanged |
| Text.Lower | app/page.jsx:52-53 | lower-casing a text keeps its length and lower-cases each character as `LowerChar` does |
| Text.LowerAppend | app/page.jsx:52-53 | lower-casing works piece by piece over a concatenation |
| Text.RemoveSpace | components/add-user-form.jsx:55 | the removal of every white-space character. Its contract is stated by `RemoveSpaceSpec`, `RemoveSpaceAppend` and `RemoveSpaceNoSpace` |
| Text.RemoveSpaceSpec | components/add-user-form.jsx:55 | removing white space leaves no white space, keeps every other character, and gives "" exactly for an all-space input |
| Text.Compare | app/page.jsx:58 | the name comparison answers -1, 0 or 1, and 0 exactly for equal names |
| Text.CompareFlip | app/page.jsx:58-59 | swapping the operands negates the comparison, so the negated comparator orders in reverse |
| Text.CompareTransitive | app/page.jsx:58 | the name comparison is transitive |
| Text.Contains | app/page.jsx:53 | `includes`: the part occurs in the text as a contiguous slice at some position |
| Text.ContainsEmpty | app/page.jsx:51-54 | every text includes the empty query |
| Users.WithId | app/page.jsx:66-69 | the stamped record has the given id and every field of the submitted record |
| AddUserForm.FormData.Set | components/add-user-form.jsx:97 | the changed input holds the new value and every other input keeps its value |
| AddUserForm.EmailShapeMatchesPattern | components/add-user-form.jsx:33 | the executable email check (one '@', no white space, a non-empty local part, a dot inside the domain) accepts exactly the texts the pattern `^[^\s@]+@[^\s@]+\.[^\s@]+$` matches |
| AddUserForm.BlankIsEmptyTrim | components/add-user-form.jsx:26-40 | an input counts as missing exactly when it is empty after trimming |
| AddUserForm.ValidationErrors | components/add-user-form.jsx:22-44 | the errors object that validation builds. What it holds is stated by `ValidationSpec`, `ValidationByBlank` and `AcceptedForms` |
| AddUserForm.ValidationByBlank | components/add-user-form.jsx:22-44 | the same errors as `ValidationSpec`, stated with "blank" (all white space) in place of "empty once trimmed" |
| AddUserForm.ValidationSpec | components/add-user-form.jsx:22-44 | errors only for name, email and phone. A name or phone error exactly when that input is empty once trimmed. "Email is required" exactly when the trimmed email is empty. "Please enter a valid email address" exactly when it is not empty but the untrimmed email fails the pattern |
| AddUserForm.AcceptedForms | components/add-user-form.jsx:22-44 | validation passes exactly when name and phone are not blank and the email matches the pattern |
| AddUserForm.DeriveUsername | components/add-user-form.jsx:55 | the username that gets submitted. What it is is stated by `DeriveUsernameSpec` and `DerivedUsernameJoinsWords` |
| AddUserForm.DeriveUsernameSpec | components/add-user-form.jsx:55 | a non-blank username is kept, trimmed. A derived username has no white space and no upper-case letter, and is empty only for a blank name |
| AddUserForm.DerivedUsernameJoinsWords | components/add-user-form.jsx:55 | with no username, a two-word name gives the two words lower-cased and joined |
| AddUserForm.DeriveUsernameExample | components/add-user-form.jsx:55 | no username and the name "Ada Lovelace" give "adalovelace" |
| AddUserForm.BuildProfile | components/add-user-form.jsx:53-74 | each field of the submitted record is its own input trimmed: name, email, phone, website, street, suite, city, zipcode, company name, catch phrase and bs. The username is the derived one, `geo` holds two empty strings, and the record has no id |
| AddUserForm.SubmittedProfileIsComplete | components/add-user-form.jsx:49-74 | a record built from a form that passed validation has a non-empty name, username and phone, and its email is the input as typed, matching the pattern |
| AddUserForm.Form.constructor | components/add-user-form.jsx:6-20 | the form starts with every input "" and no errors |
| AddUserForm.Form.ValidateForm | components/add-user-form.jsx:22-44 | the errors object is replaced by the validation errors of the unchanged inputs, and the answer is true exactly when there are none |
| AddUserForm.Form.HandleSubmit | components/add-user-form.jsx:46-94 | on failed validation nothing is submitted and the inputs stay as typed. Otherwise the built record of the previous inputs is submitted, all twelve inputs are reset to "" and the errors are cleared |
| AddUserForm.Form.HandleChange | components/add-user-form.jsx:96-102 | only the changed input takes the new value; only that field's error is cleared, and only if one was recorded |
| DirectoryPage.SelectCount | app/page.jsx:51 | filtering keeps each accepted record as often as it occurs and drops the others, so the result is no longer than the input |
| DirectoryPage.SelectSpec | app/page.jsx:51 | filtering keeps exactly the accepted records, each as often as it occurs |
| DirectoryPage.SelectAppend | app/page.jsx:75 | filtering a concatenation filters each part |
| DirectoryPage.SearchResults | app/page.jsx:51-54 | the search: the users whose lower-cased name or email includes the lower-cased query, in list order. What it keeps is stated by `SelectSpec`, `ViewMembers` and `EmptyQueryKeepsAll` |
| DirectoryPage.EmptyQueryKeepsAll | app/page.jsx:51-54 | the empty query keeps every user, in order |
| DirectoryPage.SortByName | app/page.jsx:57-60 | the sort by name in either direction. What it gives is stated by `SortByNamePermutes`, `SortByNameSorted` and `SortByNameStable` |
| DirectoryPage.SortByNamePermutes | app/page.jsx:57-60 | sorting neither adds nor drops records (multiset equality) |
| DirectoryPage.SortByNameSorted | app/page.jsx:57-60 | after sorting, neighbours are in comparator order |
| DirectoryPage.SortByNameStable | app/page.jsx:57-60 | sorting keeps the relative order of the records of each name |
| DirectoryPage.StableSkip | app/page.jsx:57-60 | inserting a record of another name does not change the records of a given name or their order |
| DirectoryPage.View | app/page.jsx:50-63 | `filteredUsers`: the search results sorted by name in the chosen direction. What it gives is stated by `ViewMembers`, `ViewOrdered` and `ViewStable` |
| DirectoryPage.ViewMembers | app/page.jsx:50-63 | a user is in the view exactly when it is in the list and its lower-cased name or email includes the lower-cased query; the view is a permutation of the filtered list |
| DirectoryPage.ViewOrdered | app/page.jsx:57-60 | neighbours in the view are non-decreasing by name when ascending and non-increasing when descending |
| DirectoryPage.ViewStable | app/page.jsx:57-60 | in either direction, records of the same name keep their order from the list |
| DirectoryPage.InsertAt | app/page.jsx:57 | one insertion step of the in-place sort inserts the next element into the sorted run and leaves the rest of the array alone |
| DirectoryPage.SortInPlace | app/page.jsx:57-60 | the array sorted in place holds the stable name-sort of its previous contents |
| DirectoryPage.ErrorMessage | app/page.jsx:40 | an `Error` shows its own message; any other thrown value shows "An error occurred while fetching users" |
| DirectoryPage.LoadResult | app/page.jsx:22-47 | the load succeeds exactly when the response is ok and the stored value is readable, and then gives the remote records followed by the stored ones. A non-ok response gives "Failed to fetch users". A throw gives its message. An unreadable stored value gives the parse error |
| DirectoryPage.CustomUsers | app/page.jsx:75 | the records that get stored: those with an id above 100, in list order. Stated by `CustomUsersAppend` and `CustomUsersOfMerge` |
| DirectoryPage.CustomUsersAppend | app/page.jsx:71-75 | appending a record extends the persisted projection exactly when its id is above 100 |
| DirectoryPage.CustomUsersOfMerge | app/page.jsx:36-38 | with remote ids at most 100 and local ids above 100, the projection of the merged list is the local list |
| DirectoryPage.ReloadRestoresCollection | app/page.jsx:36-38 | under the same id ranges, loading again after persisting gives back the same collection |
| DirectoryPage.AddExtendsStore | app/page.jsx:65-76 | under the same id ranges, an add stores the previous local records plus the new one when its clock id is above 100, and leaves the new one out otherwise |
| DirectoryPage.FailedLoadThenAdd | app/page.jsx:22-79 | after a failed load, an add stores only the new record, or nothing when its clock id is 100 or less. Records stored before are replaced, because the add persists the list left empty by the failed load |
| DirectoryPage.UserDirectoryPage.constructor | app/page.jsx:13-19 | the page starts with no users, an empty query, loading, no error, the form hidden and ascending order |
| DirectoryPage.UserDirectoryPage.FetchUsers | app/page.jsx:22-47 | loading ends false. On success, `users` is the merged list and `error` is cleared. On failure, `users` is kept and `error` holds the message. Nothing else changes |
| DirectoryPage.UserDirectoryPage.FilteredUsers | app/page.jsx:50-63 | returns the view of the current state and changes nothing: only a fresh copy is sorted |
| DirectoryPage.UserDirectoryPage.HandleAddUser | app/page.jsx:65-79 | `users` gains exactly the submitted record stamped with the clock value, at the end. The stored list becomes exactly its records with id above 100, in order. The form is hidden |
| DirectoryPage.UserDirectoryPage.ToggleSort | app/page.jsx:81-83 | only the sort direction flips |
| DirectoryPage.UserDirectoryPage.SetSearchQuery | app/page.jsx:123 | only the search text changes |
| DirectoryPage.UserDirectoryPage.ToggleAddForm | app/page.jsx:102 | only the form's visibility flips |
| DirectoryPage.UserDirectoryPage.CancelAddForm | app/page.jsx:116 | only the form is hidden |

## Left out

- The network request, its asynchrony and the intermediate renders are left out. The request's outcome is an input (`FetchOutcome`), and a load is one step that ends with `isLoading` false.
- Browser storage and JSON are abstract:
  - the stored value is a `Stored` input and a field of the page;
  - the model does not capture `JSON.stringify`/`JSON.parse` round-tripping;
  - a stored text that does not parse or spread is `Unreadable` with the thrown message.
  - A failing `localStorage.setItem` (a full quota) is not modelled.
- Unreadable stored data is an error. The code reads the stored list inside the load's `try`, so a parse failure lands in the `catch`: `error` is set and the remote records are not shown either. The model follows the code here. It does not treat such data as an empty list.
- The clock is the parameter `now` of `HandleAddUser`. The code does not guarantee distinct ids or ids above 100, and the model does not claim either. `AddExtendsStore` shows what happens to a record whose clock id is 100 or less.
- Text handling is ASCII only:
  - `trim` and the `\s` of the two patterns only cover space, tab, line feed, vertical tab, form feed and carriage return;
  - `toLowerCase` only maps 'A'..'Z';
  - Unicode white space and case mapping are not modelled.
- Text.Compare: it orders names by code points, not by the locale rules of `localeCompare`. It is still a total order, which is all the sorting properties use.
- Regular-expression matching in general is left out. Only the email pattern is stated, as `MatchesEmailPattern`, and proved equal to the executable check `EmailShape`.
- `Array.prototype.sort` is modelled as a stable insertion sort over an array. The language guarantees stability but no particular algorithm.
- The errors object of the form clears an error by setting the key to `undefined`. The model removes the key instead, which is the same under the code's truthiness checks.
- The record handed from the form to the page is a `Profile`. `handleAddUser` does not check required fields itself and the model does not either.
- The selected user and the details modal, all markup, styling and icons, the footer year and `e.preventDefault()` are left out.
- The render conditions are not modelled: for example, no list is shown while loading or when there is an error.
