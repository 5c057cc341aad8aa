/**
 * The server's storage layer: the chapters, characters and cards tables,
 * each a sequence of rows, and the operations of DatabaseStorage on them.
 * Every operation runs as one step. A create appends one row under a fresh id,
 * an update rewrites the supplied columns of the row with that id or reports
 * "not found", and a delete removes the matching rows, silently when there
 * are none. Deleting a chapter or a character first deletes the cards in its
 * column or row. Nothing stops two cards from sharing one cell, and nothing
 * checks that a card's ids name an existing character and chapter.
 */
module Storage {
  import opened Wrappers
  import opened Schema
  import opened Tables

  /** The outcome of an update: the updated row, or the error it throws. */
  datatype Result<T> = Ok(value: T) | NotFound(message: string)

  /** The cards in one grid cell, in table order. */
  function CardsInCell(cards: seq<Card>, characterId: string, chapterId: string): (r: seq<Card>)
    ensures forall d :: multiset(r)[d] == if InCell(d, characterId, chapterId) then multiset(cards)[d] else 0
  {
    FilterCounts(cards, (d: Card) => InCell(d, characterId, chapterId));
    Filter(cards, (d: Card) => InCell(d, characterId, chapterId))
  }

  /** The two reference columns of a card. */
  datatype CardColumn = CharacterColumn | ChapterColumn

  function ColumnValue(d: Card, column: CardColumn): string {
    match column
    case CharacterColumn => d.characterId
    case ChapterColumn => d.chapterId
  }

  /** DELETE FROM cards WHERE <column> = v: exactly the cards of that
      character's row or that chapter's column go, and the card ids stay
      unique. */
  function CardsOutside(cards: seq<Card>, column: CardColumn, v: string): (r: seq<Card>)
    ensures forall d :: multiset(r)[d] == if ColumnValue(d, column) == v then 0 else multiset(cards)[d]
    ensures UniqueKeys(cards, CardKey) ==> UniqueKeys(r, CardKey)
  {
    var keep := (d: Card) => ColumnValue(d, column) != v;
    FilterCounts(cards, keep);
    FilterKeepsUniqueKeys(cards, keep, CardKey);
    Filter(cards, keep)
  }

  /** Creating a card in an occupied cell stacks a second card there: the
      store performs no uniqueness check on a card's cell. */
  lemma CreateCardStacksInCell(cards: seq<Card>, input: InsertCard, newId: string)
    ensures var after := cards + [CardWithId(input, newId)];
      |CardsInCell(after, input.characterId, input.chapterId)|
        == |CardsInCell(cards, input.characterId, input.chapterId)| + 1
  {
    FilterAppend(cards, CardWithId(input, newId), (d: Card) => InCell(d, input.characterId, input.chapterId));
  }

  class DatabaseStorage {
    var chapters: seq<Chapter>
    var characters: seq<Character>
    var cards: seq<Card>

    /** The primary key of each table is unique. */
    ghost predicate Valid()
      reads this
    {
      UniqueKeys(chapters, ChapterKey) && UniqueKeys(characters, CharacterKey) && UniqueKeys(cards, CardKey)
    }

    constructor ()
      ensures Valid()
      ensures chapters == [] && characters == [] && cards == []
    {
      chapters, characters, cards := [], [], [];
    }

    // -------------------------------------------------------------------
    // Chapters
    // -------------------------------------------------------------------

    /** Every chapter, sorted by its `order` text. */
    method GetChapters() returns (r: seq<Chapter>)
      ensures multiset(r) == multiset(chapters)
      ensures SortedBy(r, ChapterRank)
    {
      r := SortBy(chapters, ChapterRank);
    }

    /** Inserts the chapter under the id the database generated. */
    method CreateChapter(input: InsertChapter, newId: string) returns (c: Chapter)
      requires Valid()
      requires !HasKey(chapters, ChapterKey, newId)
      modifies this
      ensures Valid()
      ensures c.id == newId && ChapterInsertOf(c) == input
      ensures chapters == old(chapters) + [c]
      ensures characters == old(characters) && cards == old(cards)
    {
      c := ChapterWithId(input, newId);
      chapters := chapters + [c];
    }

    /** Overwrites the supplied columns of the chapter with this id. */
    method UpdateChapter(id: string, patch: ChapterPatch) returns (r: Result<Chapter>)
      requires Valid()
      modifies this
      ensures Valid()
      ensures characters == old(characters) && cards == old(cards)
      ensures !HasKey(old(chapters), ChapterKey, id) ==>
                r == NotFound("Chapter not found") && chapters == old(chapters)
      ensures HasKey(old(chapters), ChapterKey, id) ==>
                r == Ok(PatchChapter(RowWithKey(old(chapters), ChapterKey, id), patch))
      ensures |chapters| == |old(chapters)|
      ensures forall i :: 0 <= i < |chapters| ==>
                chapters[i] == if old(chapters)[i].id == id then PatchChapter(old(chapters)[i], patch) else old(chapters)[i]
    {
      var f := (c: Chapter) => PatchChapter(c, patch);
      var rows := UpdateByKey(chapters, ChapterKey, id, f);
      var k := KeyIndex(chapters, ChapterKey, id);
      if k.None? {
        UpdateAbsentKey(chapters, ChapterKey, id, f);
        r := NotFound("Chapter not found");
      } else {
        UpdateByKeyTouchesOneRow(chapters, ChapterKey, k.value, f);
        KeyIndexUnique(rows, ChapterKey, k.value);
        chapters := rows;
        r := Ok(rows[KeyIndex(rows, ChapterKey, id).value]);
      }
    }

    /** Deletes the cards of the chapter's column, then the chapter. */
    method DeleteChapter(id: string)
      requires Valid()
      modifies this
      ensures Valid()
      ensures cards == CardsOutside(old(cards), ChapterColumn, id)
      ensures chapters == WithoutKey(old(chapters), ChapterKey, id)
      ensures characters == old(characters)
    {
      DeleteCardsByChapter(id);
      chapters := WithoutKey(chapters, ChapterKey, id);
    }

    // -------------------------------------------------------------------
    // Characters
    // -------------------------------------------------------------------

    /** Every character, sorted by its `order` text. */
    method GetCharacters() returns (r: seq<Character>)
      ensures multiset(r) == multiset(characters)
      ensures SortedBy(r, CharacterRank)
    {
      r := SortBy(characters, CharacterRank);
    }

    method CreateCharacter(input: InsertCharacter, newId: string) returns (c: Character)
      requires Valid()
      requires !HasKey(characters, CharacterKey, newId)
      modifies this
      ensures Valid()
      ensures c.id == newId && CharacterInsertOf(c) == input
      ensures characters == old(characters) + [c]
      ensures chapters == old(chapters) && cards == old(cards)
    {
      c := CharacterWithId(input, newId);
      characters := characters + [c];
    }

    method UpdateCharacter(id: string, patch: CharacterPatch) returns (r: Result<Character>)
      requires Valid()
      modifies this
      ensures Valid()
      ensures chapters == old(chapters) && cards == old(cards)
      ensures !HasKey(old(characters), CharacterKey, id) ==>
                r == NotFound("Character not found") && characters == old(characters)
      ensures HasKey(old(characters), CharacterKey, id) ==>
                r == Ok(PatchCharacter(RowWithKey(old(characters), CharacterKey, id), patch))
      ensures |characters| == |old(characters)|
      ensures forall i :: 0 <= i < |characters| ==>
                characters[i] == if old(characters)[i].id == id then PatchCharacter(old(characters)[i], patch) else old(characters)[i]
    {
      var f := (c: Character) => PatchCharacter(c, patch);
      var rows := UpdateByKey(characters, CharacterKey, id, f);
      var k := KeyIndex(characters, CharacterKey, id);
      if k.None? {
        UpdateAbsentKey(characters, CharacterKey, id, f);
        r := NotFound("Character not found");
      } else {
        UpdateByKeyTouchesOneRow(characters, CharacterKey, k.value, f);
        KeyIndexUnique(rows, CharacterKey, k.value);
        characters := rows;
        r := Ok(rows[KeyIndex(rows, CharacterKey, id).value]);
      }
    }

    /** Deletes the cards of the character's row, then the character. */
    method DeleteCharacter(id: string)
      requires Valid()
      modifies this
      ensures Valid()
      ensures cards == CardsOutside(old(cards), CharacterColumn, id)
      ensures characters == WithoutKey(old(characters), CharacterKey, id)
      ensures chapters == old(chapters)
    {
      DeleteCardsByCharacter(id);
      characters := WithoutKey(characters, CharacterKey, id);
    }

    // -------------------------------------------------------------------
    // Cards
    // -------------------------------------------------------------------

    /** Every card, in no particular order. */
    method GetCards() returns (r: seq<Card>)
      ensures multiset(r) == multiset(cards)
    {
      r := cards;
    }

    /** Some card in the cell of `characterId` and `chapterId`, or none
        exactly when that cell holds no card. */
    method GetCard(characterId: string, chapterId: string) returns (r: Option<Card>)
      ensures r.Some? ==> r.value in cards && InCell(r.value, characterId, chapterId)
      ensures r.None? <==> forall d :: d in cards ==> !InCell(d, characterId, chapterId)
    {
      var k := FindFirst(cards, (d: Card) => InCell(d, characterId, chapterId));
      r := if k.Some? then Some(cards[k.value]) else None;
    }

    /** Inserts the card under the id the database generated, with no check
        of its cell or of the ids it names. */
    method CreateCard(input: InsertCard, newId: string) returns (c: Card)
      requires Valid()
      requires !HasKey(cards, CardKey, newId)
      modifies this
      ensures Valid()
      ensures c.id == newId && CardInsertOf(c) == input
      ensures cards == old(cards) + [c]
      ensures chapters == old(chapters) && characters == old(characters)
    {
      c := CardWithId(input, newId);
      cards := cards + [c];
    }

    /** Overwrites the supplied columns of the card with this id; supplying
        `characterId` or `chapterId` moves it to another cell. */
    method UpdateCard(id: string, patch: CardPatch) returns (r: Result<Card>)
      requires Valid()
      modifies this
      ensures Valid()
      ensures chapters == old(chapters) && characters == old(characters)
      ensures !HasKey(old(cards), CardKey, id) ==>
                r == NotFound("Card not found") && cards == old(cards)
      ensures HasKey(old(cards), CardKey, id) ==>
                r == Ok(PatchCard(RowWithKey(old(cards), CardKey, id), patch))
      ensures |cards| == |old(cards)|
      ensures forall i :: 0 <= i < |cards| ==>
                cards[i] == if old(cards)[i].id == id then PatchCard(old(cards)[i], patch) else old(cards)[i]
    {
      var f := (c: Card) => PatchCard(c, patch);
      var rows := UpdateByKey(cards, CardKey, id, f);
      var k := KeyIndex(cards, CardKey, id);
      if k.None? {
        UpdateAbsentKey(cards, CardKey, id, f);
        r := NotFound("Card not found");
      } else {
        UpdateByKeyTouchesOneRow(cards, CardKey, k.value, f);
        KeyIndexUnique(rows, CardKey, k.value);
        cards := rows;
        r := Ok(rows[KeyIndex(rows, CardKey, id).value]);
      }
    }

    /** Deletes the card with this id, if there is one. */
    method DeleteCard(id: string)
      requires Valid()
      modifies this
      ensures Valid()
      ensures cards == WithoutKey(old(cards), CardKey, id)
      ensures chapters == old(chapters) && characters == old(characters)
    {
      cards := WithoutKey(cards, CardKey, id);
    }

    /** Deletes every card in the character's row. */
    method DeleteCardsByCharacter(characterId: string)
      requires Valid()
      modifies this
      ensures Valid()
      ensures cards == CardsOutside(old(cards), CharacterColumn, characterId)
      ensures chapters == old(chapters) && characters == old(characters)
    {
      cards := CardsOutside(cards, CharacterColumn, characterId);
    }

    /** Deletes every card in the chapter's column. */
    method DeleteCardsByChapter(chapterId: string)
      requires Valid()
      modifies this
      ensures Valid()
      ensures cards == CardsOutside(old(cards), ChapterColumn, chapterId)
      ensures chapters == old(chapters) && characters == old(characters)
    {
      cards := CardsOutside(cards, ChapterColumn, chapterId);
    }
  }
}
