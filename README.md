# Story grid: a Dafny model

This project models the core of a small story-planning application. The
story is a grid: characters are the rows, chapters are the columns, and a
cell may hold a card with some content and a tag.

The model covers five parts of the application:

- **Record shapes** (`Schema`). The three tables, chapters, characters and
  cards, become datatypes. The insert schemas become parsers of a JSON-like
  body. Each parser accepts a body exactly when the required members are
  strings and the nullable ones are missing, null or strings. Partial
  updates become patch records.
- **The server's storage** (`Storage`). `DatabaseStorage` is a class whose
  three fields are sequences of rows. Its methods are the SQL statements the
  original issues: create, list, update and delete, the cascading deletes,
  and the card lookup by cell. The statements are built on `Tables`, which
  holds a generic filtering DELETE, an UPDATE by key, a first-match SELECT
  and an ORDER BY on a text column.
- **The grid** (`Grid`). This covers the cell lookup, the cell and row
  views, the avatar initials and colour, the tag colour and the tag label.
  It also has lemmas about moving a card, which the application does by
  updating the card's two coordinates.
- **The dialogs** (`CardEditor`, `AddChapter`, `AddCharacter`) and their
  shared order computation (`Forms`). Each dialog has its form state, as a
  class whose methods are the state updates. AddChapter and AddCharacter
  have a save function that turns the form into one request or an error
  toast. CardEditor's SaveRequest turns it into one request, or none when no
  cell is open.
- **An end-to-end story** (`Scenario`). Two chapters and one character are
  stored from the records that ChapterBodies and CharacterDialogBody show the
  dialogs send, and one card from the editor's save request. The story then looks
  the card up, deletes a chapter, and moves a card.

`Strings` models the JavaScript string operations this code relies on:

- `trim` over ECMAScript white space;
- `split` and `join` on a space;
- `toUpperCase` on ASCII letters;
- `slice(0, n)`;
- `toString` on non-negative integers;
- the code-point order used to sort the `order` column.

The SQL statements have two inputs the model takes as parameters:

- **Fresh ids.** The id the database would generate (`gen_random_uuid()`) is
  a parameter of each create. The create requires that no row already has
  that id.
- **Row order.** Rows are kept in insertion order. A SELECT without ORDER BY
  is only promised to return the same rows. The model does not promise any
  particular order for it.

## Model

| member | source | states |
|---|---|---|
| Schema.IdRoundTrip | shared/schema.ts:6-28 | Adding an id to an insert record and dropping it again gives back the insert record. Every stored row is its insert record plus its id. |
| Schema.ParseChapterInsert | shared/schema.ts:30-32 | A chapter body is accepted iff `title` and `order` are strings and `description` is missing, null or a string. The accepted record carries exactly those values, with a missing description read as null. |
| Schema.ParseCharacterInsert | shared/schema.ts:34-36 | A character body is accepted iff `name` and `order` are strings and `role` and `color` are missing, null or strings. The record carries those values. |
| Schema.ParseCardInsert | shared/schema.ts:38-40 | A card body is accepted iff `characterId` and `chapterId` are strings and `content`, `tag` and `color` are missing, null or strings. The record carries those values. |
| Schema.NullableValue | shared/schema.ts:9 | A nullable column stores a value exactly when the body supplied a string, and then stores that string. |
| Schema.InsertsIgnoreId | shared/schema.ts:30-40 | No insert schema reads `id`: two bodies that differ only in `id` parse alike. |
| Schema.PresenceIsTheOnlyRule | shared/schema.ts:8-10 | An empty title, name or order and an arbitrary tag string are all accepted. |
| Schema.ChapterMissingRequiredRefused | shared/schema.ts:8-11 | A chapter body whose title or order is missing or null is refused. |
| Schema.CharacterMissingRequiredRefused | shared/schema.ts:13-19 | A character body whose name or order is missing or null is refused. |
| Schema.CardMissingRequiredRefused | shared/schema.ts:21-28 | A card body whose characterId or chapterId is missing or null is refused. |
| Schema.PatchChapter | server/storage.ts:44-49 | Every supplied column takes the supplied value. Every other column and the id keep their old value. |
| Schema.PatchCharacter | server/storage.ts:75-80 | Every supplied column takes the supplied value. Every other column and the id keep their old value. |
| Schema.PatchCard | server/storage.ts:116-121 | Every supplied column takes the supplied value. Every other column and the id keep their old value. A supplied characterId/chapterId relocates the card. |
| Schema.ParseCardPatch | server/routes.ts:126 | `insertCardSchema.partial()`: a partial card body is accepted iff every supplied member obeys the insert rule of its column. A patch member is present exactly when the body supplied it, and then carries the supplied text, or NULL for a supplied null. |
| Schema.InsertBodyAsPatch | shared/schema.ts:38-40 | Every valid card insert body is a valid partial update. A member the body leaves out keeps its stored value. A body that supplies every member rewrites every column except the id, to what the insert would store. |
| Schema.PatchCardIdempotent | server/storage.ts:116-121 | Applying the same patch twice equals applying it once, and the empty patch changes nothing. |
| Tables.FindFirst | client/src/components/story-grid/grid.tsx:68 | The position of the first row meeting the condition. The result is none exactly when no row meets it. |
| Tables.KeyIndexUnique | shared/schema.ts:7 | Under a unique primary key, the lookup by key finds each row at its own position. |
| Tables.Filter | server/storage.ts:129 | The rows a DELETE ... WHERE leaves all fail its condition, and there are never more of them than before. |
| Tables.FilterCounts | server/storage.ts:129 | A DELETE ... WHERE keeps every row that does not match, with its multiplicity, and no other row. |
| Tables.FilterAbsentKey | server/storage.ts:129 | Deleting by a key that no row carries leaves the table as it was. |
| Tables.WithoutKey | server/storage.ts:129 | Deleting by primary key removes every row with that key and keeps every other row with its multiplicity; an absent key changes nothing, and unique keys stay unique. |
| Tables.FilterAppend | server/storage.ts:108-114 | Filtering a table with an appended row is filtering the table and then the new row. |
| Tables.FilterKeepsUniqueKeys | server/storage.ts:128-138 | Deleting rows keeps the primary key unique. |
| Tables.UpdateByKey | server/storage.ts:116-121 | An UPDATE ... WHERE id = k keeps the row count, rewrites every row whose key is k, and leaves every other row as it was. |
| Tables.UpdateByKeyTouchesOneRow | server/storage.ts:116-121 | Under a unique key, an UPDATE ... WHERE id = k rewrites exactly the row with key k. It leaves every other row as it was and keeps the key unique. |
| Tables.UpdateAbsentKey | server/storage.ts:116-125 | An UPDATE of a key no row has changes nothing. |
| Tables.InsertByRank | server/storage.ts:32 | Inserting a row into a sorted sequence keeps it sorted, with one more occurrence of that row. |
| Tables.SortBy | server/storage.ts:32 | ORDER BY a text column returns a permutation of the rows, sorted non-decreasingly by that column. |
| Storage.CardsInCell | server/storage.ts:103 | The cards of one cell are exactly the cards with that characterId and chapterId, with their multiplicities. |
| Storage.CardsOutside | server/storage.ts:132-138 | Deleting the cards of one character, or of one chapter, leaves every card of another character, or chapter, with its multiplicity and no other card; card ids stay unique. |
| Storage.CreateCardStacksInCell | server/storage.ts:108-114 | Creating a card in an occupied cell adds a second card to that cell. The store checks no uniqueness of a card's cell. |
| Tables.FilterKeepsAll | server/storage.ts:136-138 | Deleting with a condition that no row meets changes nothing. |
| Storage.DatabaseStorage.constructor | server/storage.ts:29 | The store starts with three empty tables and unique keys. |
| Storage.DatabaseStorage.GetChapters | server/storage.ts:31-34 | The result is a permutation of the chapters, sorted by `order` text. |
| Storage.DatabaseStorage.CreateChapter | server/storage.ts:36-42 | Appends one chapter and returns it. The new chapter has the fresh id and otherwise equals the input. Every other row of every table is unchanged and keys stay unique. |
| Storage.DatabaseStorage.UpdateChapter | server/storage.ts:44-54 | For an absent id, the result is "Chapter not found" and nothing changes. Otherwise the result is the patched row. Exactly the row with that id is patched, and the other tables are unchanged. |
| Storage.DatabaseStorage.DeleteChapter | server/storage.ts:56-59 | The new card table is the old one without that chapter's cards. The new chapter table is the old one without that chapter. Characters are unchanged, and the invariant holds. |
| Storage.DatabaseStorage.GetCharacters | server/storage.ts:62-65 | The result is a permutation of the characters, sorted by `order` text. |
| Storage.DatabaseStorage.CreateCharacter | server/storage.ts:67-73 | Appends one character with the fresh id that otherwise equals the input. Nothing else changes. |
| Storage.DatabaseStorage.UpdateCharacter | server/storage.ts:75-85 | For an absent id, the result is "Character not found" and nothing changes. Otherwise the result is the patched row. Exactly the row with that id is patched. |
| Storage.DatabaseStorage.DeleteCharacter | server/storage.ts:87-90 | The new card table is the old one without that character's cards. The new character table is the old one without that character. Chapters are unchanged, and the invariant holds. |
| Storage.DatabaseStorage.GetCards | server/storage.ts:93-96 | Returns every card, each as often as stored. |
| Storage.DatabaseStorage.GetCard | server/storage.ts:98-106 | A returned card is a stored card in the requested cell. The result is undefined exactly when no stored card is in that cell. |
| Storage.DatabaseStorage.CreateCard | server/storage.ts:108-114 | Appends one card with the fresh id that otherwise equals the input, whatever the cell already holds. Nothing else changes. |
| Storage.DatabaseStorage.UpdateCard | server/storage.ts:116-126 | For an absent id, the result is "Card not found" and nothing changes. Otherwise the result is the patched row. Exactly the row with that id is patched. |
| Storage.DatabaseStorage.DeleteCard | server/storage.ts:128-130 | The new card table is the old one without the card with that id, as Tables.WithoutKey describes. |
| Storage.DatabaseStorage.DeleteCardsByCharacter | server/storage.ts:132-134 | The new card table is the old one without the cards whose characterId matches, as Storage.CardsOutside describes for the character column. |
| Storage.DatabaseStorage.DeleteCardsByChapter | server/storage.ts:136-138 | The new card table is the old one without the cards whose chapterId matches, as Storage.CardsOutside describes for the chapter column. |
| Grid.GetCard | client/src/components/story-grid/grid.tsx:67-69 | Returns a card in the requested cell that comes no later than any other card there, so it is the first in list order. The result is undefined exactly when no card is in the cell. |
| Grid.ViewOfCard | client/src/components/story-grid/grid.tsx:196-210 | A filled cell shows a badge exactly when the tag is non-empty. The badge carries the capitalised tag and its colour class. The cell shows text exactly when the content is non-empty. |
| Grid.Cell | client/src/components/story-grid/grid.tsx:181-218 | A cell shows the placeholder exactly when the lookup finds no card; otherwise it shows the card found. |
| Grid.Header | client/src/components/story-grid/grid.tsx:132-135 | A column header shows the title, and the description exactly when it is non-empty. |
| Grid.Rows | client/src/components/story-grid/grid.tsx:151-223 | One row per character, each with one cell per chapter, the character's initials and the colour of its index. The role is shown only when it is not empty. A cell is a placeholder exactly when no card has that character and chapter. Otherwise it is Grid.Cell: the view of the first card of that cell in list order, a stored card of the cell. |
| Grid.MovePatch | server/routes.ts:134-139 | The move body `{characterId, chapterId}` passes the card update schema as this patch, and applying it to any card changes its cell and nothing else. |
| Grid.MoveToEmptyCell | client/src/components/story-grid/grid.tsx:67-69 | After the storage update that moves the only card of a cell to an empty cell, the old cell is empty. The new cell shows the card with its id, content and tag. |
| Grid.MoveOntoOccupiedCell | client/src/components/story-grid/grid.tsx:67-69 | Moving a card onto an occupied cell leaves two cards there. If the occupant comes first in the list, the moved card is no longer shown. |
| Grid.Initials | client/src/components/story-grid/grid.tsx:71-73 | At most two characters: the upper-cased first characters of the first two space-separated words. Empty words contribute nothing. |
| Grid.FirstCharsOfSplit | client/src/components/story-grid/grid.tsx:72 | The first characters of the parts of `split(' ')` are the characters that start a word. |
| Grid.AvatarColor | client/src/components/story-grid/grid.tsx:75-85 | The colour of row `i` is palette entry `i % 6`, one of the six palette classes. |
| Grid.AvatarColorCycles | client/src/components/story-grid/grid.tsx:84 | Rows `i` and `i + 6` share a colour; rows `i` and `i + 1` never do. |
| Grid.TagColor | client/src/components/story-grid/grid.tsx:87-106 | Each of the 15 recognised tags gets its listed class, and every other string gets the gray default. |
| Grid.TagColorAsWritten | client/src/components/story-grid/grid.tsx:105 | Indexing the plain object returns the listed class for a recognised tag and the default for an ordinary string. For a name inherited from `Object.prototype`, it returns the inherited member instead. |
| Grid.ConstructorTagMissesDefault | client/src/components/story-grid/grid.tsx:105 | The tag "constructor" gets the inherited member as written, where the gray default is intended. |
| Grid.TagColorAgreesAsWritten | client/src/components/story-grid/grid.tsx:87-106 | Away from the inherited names, the lookup as written agrees with `TagColor`. |
| Grid.TagLabel | client/src/components/story-grid/grid.tsx:201 | The label has the tag's length. Its first character is upper-cased and the rest is the tag unchanged. |
| Grid.TagLabelIdempotent | client/src/components/story-grid/grid.tsx:201 | Capitalising a label again changes nothing. |
| CardEditor.TagOptionsAreTheColouredTags | client/src/components/story-grid/card-editor-modal.tsx:125-139 | The editor offers 15 distinct tags, and they are exactly the tags the grid has a colour for. |
| CardEditor.OpenEditor | client/src/components/story-grid/grid.tsx:188-194 | Clicking a cell opens the editor on that character and chapter. The existing card is the one the cell shows, and none for a placeholder. |
| CardEditor.OrEmpty | client/src/components/story-grid/card-editor-modal.tsx:34-35 | A null column reads as the empty string; a present one as itself. |
| CardEditor.SeededFields | client/src/components/story-grid/card-editor-modal.tsx:32-40 | The form opens with the existing card's tag and content, null read as empty. It opens with both empty when there is no existing card. |
| CardEditor.EditorState.constructor | client/src/components/story-grid/card-editor-modal.tsx:28-29 | The form starts with an empty tag and empty content. |
| CardEditor.EditorState.Seed | client/src/components/story-grid/card-editor-modal.tsx:32-40 | After the effect, the form's tag and content are the seeded fields. |
| CardEditor.EditorState.ChooseTag | client/src/components/story-grid/card-editor-modal.tsx:120 | Choosing a menu entry sets the tag to that option and keeps the content. |
| CardEditor.EditorState.EditContent | client/src/components/story-grid/card-editor-modal.tsx:150 | Typing sets the content and keeps the tag. |
| CardEditor.SaveRequest | client/src/components/story-grid/card-editor-modal.tsx:68-88 | No request without a cell. With an existing card, one update of that card's id whose body parses to a patch of exactly content and tag. Otherwise one create for the cell's character and chapter with that content and tag and no colour. |
| CardEditor.SaveFromCellTargetsThatCell | client/src/components/story-grid/card-editor-modal.tsx:76-86 | Saving from a cell updates the card the cell shows when there is one. Otherwise it creates a card in exactly that cell. |
| CardEditor.SaveKeepsCellAndColor | client/src/components/story-grid/card-editor-modal.tsx:71-80 | An update from the editor rewrites the content and tag. The card keeps its id, its cell and its colour. |
| CardEditor.SaveUneditedCard | client/src/components/story-grid/card-editor-modal.tsx:32-40 | Opening a card and saving without edits turns null content or tag into "". The grid still shows the same badge and text. |
| CardEditor.UntaggedSaveShowsNoBadge | client/src/components/story-grid/card-editor-modal.tsx:81-86 | A card created with no tag chosen stores "" as its tag and shows no badge. |
| CardEditor.SaveFillsEmptyCell | client/src/components/story-grid/card-editor-modal.tsx:81-86 | Creating the card of an empty cell makes the grid show the new card there. |
| Forms.NextOrder | client/src/components/story-grid/add-chapter-modal.tsx:47 | The next order is a string of digits without a leading zero that reads back as count + 1. |
| Forms.NextOrderInjective | client/src/components/story-grid/add-character-modal.tsx:49 | Different counts give different orders. |
| AddChapter.SaveChapter | client/src/components/story-grid/add-chapter-modal.tsx:41-54 | Refused with "El título es requerido" exactly when the title is all white space. Otherwise the body parses to the trimmed title and description with order count + 1, and the title is non-empty. |
| AddChapter.SaveChapterStable | client/src/components/story-grid/add-chapter-modal.tsx:49-53 | Saving the trimmed text again sends the same body. |
| AddChapter.NextOrderAfterDeleteRepeats | client/src/components/story-grid/add-chapter-modal.tsx:47 | Take two chapters with orders "1" and "2" and delete the first. The next new chapter then gets order "2" again, because the order counts rows. |
| AddChapter.ChapterForm.constructor | client/src/components/story-grid/add-chapter-modal.tsx:18-19 | The form starts with an empty title and description. |
| AddChapter.ChapterForm.EditTitle | client/src/components/story-grid/add-chapter-modal.tsx:18 | Typing sets the title and keeps the description. |
| AddChapter.ChapterForm.EditDescription | client/src/components/story-grid/add-chapter-modal.tsx:19 | Typing sets the description and keeps the title. |
| AddChapter.ChapterForm.OnCreated | client/src/components/story-grid/add-chapter-modal.tsx:29-34 | After a successful create, the title and description are empty. |
| AddChapter.ChapterForm.Close | client/src/components/story-grid/add-chapter-modal.tsx:56-60 | Closing empties the title and description. |
| AddCharacter.ColorField | client/src/components/story-grid/add-character-modal.tsx:55 | The colour is sent as chosen, and null when none was chosen. It reads back as the chosen colour. |
| AddCharacter.SaveCharacter | client/src/components/story-grid/add-character-modal.tsx:43-57 | Refused with "El nombre es requerido" exactly when the name is all white space. Otherwise the body parses to the trimmed name and role, order count + 1 and the colour as chosen. |
| AddCharacter.SaveCharacterStable | client/src/components/story-grid/add-character-modal.tsx:51-56 | Saving the trimmed text again sends the same body. |
| AddCharacter.CharacterForm.constructor | client/src/components/story-grid/add-character-modal.tsx:18-20 | The form starts with an empty name and role and a null colour. |
| AddCharacter.CharacterForm.EditName | client/src/components/story-grid/add-character-modal.tsx:18 | Typing sets the name and keeps the role and colour. |
| AddCharacter.CharacterForm.EditRole | client/src/components/story-grid/add-character-modal.tsx:19 | Typing sets the role and keeps the name and colour. |
| AddCharacter.CharacterForm.ChooseColor | client/src/components/story-grid/add-character-modal.tsx:20 | Choosing sets the colour and keeps the name and role. |
| AddCharacter.CharacterForm.OnCreated | client/src/components/story-grid/add-character-modal.tsx:30-36 | After a successful create, the name and role are empty and the colour is null. |
| AddCharacter.CharacterForm.Close | client/src/components/story-grid/add-character-modal.tsx:59-64 | Closing empties the name and role and nulls the colour. |
| Strings.Trim | client/src/components/story-grid/add-chapter-modal.tsx:42 | The trimmed text is the slice left between white-space-only ends. It neither starts nor ends with white space, and it is empty exactly when the text is all white space. |
| Strings.TrimIdempotent | client/src/components/story-grid/add-chapter-modal.tsx:50 | Trimming twice is trimming once. |
| Strings.TrimUnpadded | client/src/components/story-grid/add-character-modal.tsx:52 | Text that neither starts nor ends with white space trims to itself. |
| Strings.ToUpper | client/src/components/story-grid/grid.tsx:72 | Upper-casing keeps the length and maps every character by the ASCII upper-case map. |
| Strings.Prefix | client/src/components/story-grid/grid.tsx:72 | `slice(0, n)` is a prefix of at most n characters, and the whole text when it is that short. |
| Strings.Split | client/src/components/story-grid/grid.tsx:72 | `split` yields at least one part, and no part contains the separator. |
| Strings.JoinSplit | client/src/components/story-grid/grid.tsx:72 | Joining the parts of a split with the separator gives back the text. |
| Strings.SplitJoin | client/src/components/story-grid/grid.tsx:72 | Splitting a join of separator-free parts gives back the parts. |
| Strings.DecimalString | client/src/components/story-grid/add-chapter-modal.tsx:47 | `toString` of a number is a non-empty string of digits without a leading zero, except for 0 itself. |
| Strings.ParseDecimalString | client/src/components/story-grid/add-chapter-modal.tsx:47 | Reading back the decimal text of a number gives the number. |
| Strings.DecimalStringInjective | client/src/components/story-grid/add-chapter-modal.tsx:47 | Different numbers have different decimal texts. |
| Strings.LexReflexive | server/storage.ts:32 | Text order is reflexive. |
| Strings.LexTotal | server/storage.ts:32 | Text order is total. |
| Strings.LexTransitive | server/storage.ts:32 | Text order is transitive. |
| Strings.LexAntisymmetric | server/storage.ts:32 | Text order is antisymmetric. |
| Strings.TenSortsBeforeTwo | server/storage.ts:32 | "10" sorts strictly before "2". |
| Scenario.ChapterBodies | client/src/components/story-grid/add-chapter-modal.tsx:47-53 | The chapter dialog's bodies for "Ch1" and "Ch2" parse to those titles with orders "1" and "2". |
| Scenario.CharacterDialogBody | client/src/components/story-grid/add-character-modal.tsx:49-55 | The character dialog's body for "Ana" parses to that name with an empty role, order "1" and a null colour. |
| AddChapter.SaveUnpaddedTitle | client/src/components/story-grid/add-chapter-modal.tsx:50-51 | A title and description with no white space at either end are sent exactly as typed. |
| AddCharacter.SaveUnpaddedName | client/src/components/story-grid/add-character-modal.tsx:52-53 | A name and role with no white space at either end are sent exactly as typed. |
| Scenario.BuildStory | server/storage.ts:36-42 | Creating two chapters and a character from the records that Scenario.ChapterBodies and Scenario.CharacterDialogBody show the dialogs send, and a card from the editor's save request, yields chapters with orders "1" and "2". Ana's card sits in the first chapter's cell. |
| Scenario.LookUp | server/storage.ts:98-107 | Ana's card is found in its cell, with its content and tag, and no card is found in the second chapter's cell. |
| Scenario.DeleteFirstChapter | server/storage.ts:56-59 | Deleting the first chapter removes its card and leaves only "Ch2", with order "2", listed. |
| Scenario.MoveCard | server/storage.ts:116-126 | Moving Ana's card to the empty second chapter by updating its coordinates empties the old cell, and the new cell holds a card with the same content and tag. |

## Left out

- HTTP routes, JSON status codes, the partial schemas of the chapter and character update endpoints (server/routes.ts:30 and 71), react-query caching, toasts and button disabling while pending are not modelled. Each request is a value of the model, and the storage methods are called directly.
- PostgreSQL, the ORM, SQL collation, and the row order of a SELECT without ORDER BY are replaced as follows. Tables are sequences in insertion order. ORDER BY on `order` is code-point order, under which "10" sorts before "2" (`Strings.TenSortsBeforeTwo`). A database collation may order text differently.
- Storage.DatabaseStorage.GetCard: the SQL has no ORDER BY. The contract therefore promises some card of the cell, not the first one; the body returns the first in table order.
- Storage.DatabaseStorage.UpdateChapter: an empty patch is treated as a no-op that returns the row. The ORM may instead reject an UPDATE with no columns to set.
- Storage.DatabaseStorage.UpdateCharacter: an empty patch is treated as a no-op that returns the row. The ORM may instead reject an UPDATE with no columns to set.
- Storage.DatabaseStorage.UpdateCard: an empty patch is treated as a no-op that returns the row. The ORM may instead reject an UPDATE with no columns to set.
- Fresh ids: the generated uuid is a parameter, required to be unused in its table. Uuid collisions are not modelled.
- The cascading deletes run as one step each. The two statements are not atomic in the original, and a crash or an interleaving between them is not modelled.
- Concurrent requests and double submission are not modelled; every operation is sequential.
- `toUpperCase` is modelled on ASCII letters only. Non-ASCII letters, such as an initial "á" or "ñ", are left as they are, where JavaScript would upper-case them.
- Grid.ViewOfCard: the badge colour uses the corrected lookup Grid.TagColor. For the twelve inherited `Object.prototype` names the grid as written would put the inherited member's text in the class instead; that behaviour is modelled only by Grid.TagColorAsWritten (see Findings).
- Grid.Initials: strings are sequences of code points, whereas JavaScript indexes UTF-16 code units. For a word that starts with a character outside the Basic Multilingual Plane, such as an emoji, the original takes a lone high surrogate and the model takes the whole character.
- Drag and drop: the shown client code has no drag handlers. A move is modelled only as a card update that changes `characterId` and `chapterId`.
- The colour picker, the page layout, the grid's column template, and the character's `color` column (which the grid does not display) are presentation and are not modelled.
- The referential checks that the original lacks (a card naming a missing chapter or character) are not added. The storage accepts dangling ids, as the original does.

## Findings

| source | as written | input that shows it | evidently intended | confidence | as-written member | corrected member |
|---|---|---|---|---|---|---|
| client/src/components/story-grid/grid.tsx:105 | `tagColors[tag] \|\| 'bg-gray-100 text-gray-800'` indexes a plain object literal, so inherited `Object.prototype` names resolve to truthy members | a card whose tag is "constructor", which the insert schema accepts because tags are free text | every unrecognised tag gets the gray default class | not executed; follows from JavaScript property lookup | Grid.TagColorAsWritten, Grid.ConstructorTagMissesDefault | Grid.TagColor |
