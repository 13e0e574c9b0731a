# Markdown notes store: a verified model

This project models the core of a small in-memory note-taking program
written in JavaScript (`src/app.js`). It has two parts:

- **Title and excerpt derivation.** `deriveTitle` takes the first line of the
  trimmed content. It cuts that line to 50 characters followed by `"..."`
  when it is longer, and answers `"Sin título"` when there is nothing to take.
  `deriveExcerpt` trims the content and cuts it to `maxLen` characters
  (default 100) followed by `"..."` when it is longer.
- **The notes store** (`createNotesStore`). A closure owns a private array of
  notes and offers these operations: add, get all, get by id, update, delete,
  search, order by date, favourites and count. Validation failures come back
  as `{ success: false, message }` objects, never as exceptions.

The Dafny modules follow that structure:

| file | module | models |
|---|---|---|
| `wrappers.dfy` | `Wrappers` | `Option` for absent arguments and `null`; `Result` for the `{ success, ... }` objects |
| `text.dfy` | `Text` | `trim`, `toLowerCase`, `includes`, and the first line of a text |
| `seqs.dfy` | `Seqs` | `Array.prototype.filter` as an order-preserving selection |
| `derive.dfy` | `Derive` | `deriveTitle` (a method with the source's scanning loop, proved against the function `Title`) and `deriveExcerpt` |
| `notes.dfy` | `Notes` | the note record, `createNote`, the field updates of `updateNote`, `find` by id, and the stable sort by date |
| `store.dfy` | `Store` | the store as a class `NotesStore` whose field `notes: seq<Note>` is the closure's array |

The store's methods that change state (`AddNote`, `UpdateNote`, `DeleteNote`)
keep the object invariant `Valid()`. It says that every stored note has
non-blank content, a non-empty title, and the excerpt of its current content.
So the derived fields are never stale.

The read-only operations are functions of the stored sequence.
`GetNoteById` and `UpdateNote` act on the **first** note with the id, because
the source uses `find`. `DeleteNote` removes **every** note with the id,
because the source uses `filter`.

Ids are clock readings (`generateId`, src/app.js:79-86). Its comment promises
a unique id, but two notes added in the same millisecond get the same one, so
the model does not assume that ids are unique.

The "first line is blank" test of `deriveTitle` (src/app.js:36-38) can never
succeed, because the content was trimmed first; `Derive.FirstLineNotBlank`
proves it.

## Model

| member | source | states |
|---|---|---|
| `Text.Trim` | src/app.js:16 | `trim()` is empty exactly when the text is blank; otherwise it starts and ends with non-whitespace |
| `Text.TrimInfix` | src/app.js:63 | `trim()` removes only whitespace: the result is the infix of the text right after its leading whitespace, followed by whitespace only |
| `Text.LowerBlank` | src/app.js:231-235 | lower-casing neither adds nor removes whitespace, so a query is blank exactly when its lower-cased form is |
| `Text.LowerChar` | src/app.js:235 | lower-casing a character keeps it whitespace exactly when it was whitespace |
| `Text.Lower` | src/app.js:235-239 | `toLowerCase` keeps the length and lower-cases each character on its own |
| `Text.Contains` | src/app.js:241-242 | `includes` holds exactly when the searched text occurs at some index |
| `Text.FirstLine` | src/app.js:22-34 | the first line is a prefix without a newline that stops at the end or just before a newline |
| `Text.FirstLineUnique` | src/app.js:22-34 | those three properties determine the first line |
| `Derive.ScanFirstLine` | src/app.js:22-34 | the character-by-character loop that stops at the first newline yields exactly `FirstLine` |
| `Derive.DeriveTitle` | src/app.js:11-45 | the imperative `deriveTitle` computes `Title(content)` |
| `Derive.TitleOfBlank` | src/app.js:12-20 | empty or whitespace-only content gets the title `"Sin título"` |
| `Derive.FirstLineNotBlank` | src/app.js:36-38 | the "first line is blank" test never succeeds, since the content was trimmed first |
| `Derive.LineTitleOfText` | src/app.js:36-44 | a first line starting with non-whitespace becomes its first 50 characters plus `"..."` when longer, else itself without trailing whitespace; the result has 1 to 53 characters |
| `Derive.TitleOfText` | src/app.js:16-44 | for non-blank content the title is the first line of the trimmed content, cut to 50 characters plus `"..."` when longer, else trimmed |
| `Derive.Title` | src/app.js:11-45 | `deriveTitle` as a value, used by `createNote` and `updateNote`: every title is non-empty and has at most 53 characters |
| `Derive.TitleOfFirstLine` | src/app.js:22-44 | when the content's first line is non-empty and starts and ends with non-whitespace, that line is the title, cut to 50 characters plus `"..."` when longer, and whatever follows the newline does not affect it |
| `Derive.DeriveExcerpt` | src/app.js:53-72 | the excerpt is the trimmed content when it fits in `maxLen` (default 100), else its first `maxLen` characters plus `"..."`; length at most `maxLen + 3`; empty exactly for blank content |
| `Notes.CreateNote` | src/app.js:99-125 | fails exactly on blank content; otherwise the note keeps the content as given, has the supplied title unless that is absent or empty (then the derived title), the derived excerpt, equal timestamps and `favorite = false`, and satisfies the store invariant |
| `Notes.ApplyUpdates` | src/app.js:188-207 | new content re-derives title and excerpt; a non-empty title then overrides; `favorite` changes only when supplied; `updatedAt` is always the new clock reading; `id` and `createdAt` never change |
| `Notes.ApplyUpdatesWellFormed` | src/app.js:188-198 | because blank new content is rejected before any field is written, an update keeps the store invariant |
| `Notes.FavoriteOnlyKeepsText` | src/app.js:204-207 | an update that only sets `favorite` leaves content, title and excerpt unchanged |
| `Notes.FindIndex` | src/app.js:164-166 | `find` gives the first note with the id, or nothing when no note has it |
| `Notes.WithoutId` | src/app.js:219-221 | the filter of `deleteNote` never grows the array and keeps exactly the notes whose id differs |
| `Notes.WithoutUniqueId` | src/app.js:217-223 | when exactly one note has the id, deleting it shortens the array by exactly one |
| `Notes.Favorites` | src/app.js:265-267 | the filter of `getFavoriteNotes` never grows the array and keeps exactly the favourite notes |
| `Notes.SearchKey` | src/app.js:231-235 | the lower-cased, trimmed query is no longer than the query and is empty exactly when the query is blank |
| `Notes.Matches` | src/app.js:237-244 | the empty key would match every note, which is why a blank query is answered before the filter runs |
| `Notes.Matching` | src/app.js:237-245 | the filter of `searchNotes` never grows the array and keeps exactly the notes whose lower-cased title or content contains the key |
| `Notes.WellFormed` | src/app.js:99-125 | a note that satisfies the store invariant has a non-empty excerpt of at most 103 characters |
| `Notes.Insert` | src/app.js:257-259 | one step of the sort adds exactly the inserted note to the notes (as multisets) |
| `Notes.SortByDate` | src/app.js:252-262 | the sorted copy holds exactly the notes of the store (as multisets) |
| `Notes.SortByDateCorrect` | src/app.js:252-262 | the ordered copy is a permutation of the notes, sorted by `updatedAt` from most to least recent, with ties in store order (a stable sort) |
| `Notes.InsertUpdatedAt` | src/app.js:257-259 | inserting a note keeps it ahead of the notes it ties with, and keeps their order |
| `Seqs.Filter` | src/app.js:219-221 | `filter` keeps only elements that pass the test and never grows the array |
| `Seqs.FilterSelects` | src/app.js:237-245 | `filter` keeps every passing element as many times as it occurs and nothing else, in the original order |
| `Seqs.FilterMembers` | src/app.js:265-267 | an element is in the filtered array exactly when it is in the array and passes the test |
| `Seqs.FilterAll` | src/app.js:219-225 | when every element passes, `filter` returns the same array, so a failed delete changes nothing |
| `Seqs.FilterShorter` | src/app.js:217-225 | `filter` drops something exactly when some element fails the test, which is what the length comparison detects |
| `Store.NotesStore.Valid` | src/app.js:136-228 | the object invariant the store's operations keep: every stored note shows a non-empty title and a non-empty excerpt |
| `Store.NotesStore.constructor` | src/app.js:136-137 | a new store is empty and valid |
| `Store.NotesStore.AddNote` | src/app.js:139-153 | missing or blank content fails with the store unchanged; otherwise exactly the note `CreateNote` builds is appended and returned, and the invariant holds |
| `Store.NotesStore.GetAllNotes` | src/app.js:155-161 | all stored notes, in store order |
| `Store.NotesStore.GetNotesCount` | src/app.js:274-276 | the count is the length of `getAllNotes()` |
| `Store.NotesStore.GetNoteById` | src/app.js:163-173 | nothing exactly when the id is missing or no note has it; otherwise the first note with that id |
| `Store.NotesStore.UpdateNote` | src/app.js:175-210 | a missing id, an unknown id or blank new content fails with nothing changed; otherwise only the first note with the id becomes `ApplyUpdates` of itself and is returned; the invariant holds |
| `Store.NotesStore.DeleteNote` | src/app.js:212-228 | a missing id fails with nothing changed; otherwise every note with the id is removed and the rest keep their order; it succeeds exactly when some note had the id, and on failure the notes are unchanged |
| `Store.NotesStore.SearchNotes` | src/app.js:230-250 | a missing or blank query gives nothing; otherwise exactly the notes whose lower-cased title or content contains the non-empty, lower-cased, trimmed query, in store order |
| `Store.NotesStore.GetNotesOrderedByDate` | src/app.js:252-262 | a permutation of the notes, most recently updated first, with ties in store order |
| `Store.NotesStore.GetFavoriteNotes` | src/app.js:264-272 | exactly the notes with `favorite` set, each as often as stored, in store order |

## Left out

- The console demo (src/app.js:291-392) only prints example calls.
- `generateId` and `Date.now()` read the wall clock. `AddNote` takes its two readings (`id` and `now`) as parameters, and `UpdateNote` takes `now`.
- The clock is not assumed to be monotonic. So `updatedAt >= createdAt` is not an invariant of the model; it holds only when the caller's clock does not go backwards.
- Id uniqueness is not an invariant, because the source does not ensure it. `Notes.WithoutUniqueId` states the "one fewer note" property only for an id that occurs once.
- JavaScript's `null`/`undefined` arguments are modelled as `Option`, except where the source writes `null` through as noted below. Arguments of other types and those `null` values are not modelled:
  - a non-string content or query would make `trim` throw;
  - `updates.content === null` throws at src/app.js:189;
  - a missing `updates` object throws at src/app.js:188;
  - `updates.title === null` is written through;
  - `updates.favorite === null` is written through (src/app.js:204-205). Such a note then drops out of `getFavoriteNotes`, which tests `=== true` (src/app.js:265-267). In the model `favorite` is a boolean, and an absent `favorite` leaves the flag unchanged.
- `Derive.Title` and `Derive.DeriveExcerpt` take a string. The source's `null`/`undefined` content takes the same branch as `""`.
- `Derive.DeriveExcerpt` takes `maxLen` as a natural number or `None`. A negative `maxLen`, which `slice` would count from the end, is not modelled; the store always passes 100.
- Strings are sequences of Unicode scalar values. JavaScript counts UTF-16 code units, so for characters outside the Basic Multilingual Plane the 50- and 100-character limits count differently, and `slice` could split a surrogate pair.
- `toLowerCase` is modelled on ASCII letters only. `trim` uses the full ECMAScript whitespace set.
- Object identity and aliasing are not modelled. `addNote` returns the stored object itself, so a caller could change the store through it; here notes are values.
- The order in which the built-in sort compares elements is not modelled. The sort is an insertion sort whose result is specified: sorted, a permutation, and stable.
- The "Error al crear la nota" failure of `addNote` (src/app.js:146-148) cannot occur. `CreateNote` fails only on blank content, which `addNote` has already rejected, so the model leaves that case out of the `match` and the verifier proves it unreachable.
- The `notes` array is private to the closure in the source. Dafny has no private fields, so `NotesStore.notes` is an ordinary field.
