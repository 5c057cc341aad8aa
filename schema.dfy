/**
 * The three tables of the story grid (chapters are columns, characters are
 * rows, cards fill the cells), their insert records, which carry no id, and
 * the presence rules an insert body must satisfy. A column declared NOT NULL
 * must be present as text; a nullable column may be absent, null or text.
 * Nothing else is checked: no non-empty rule, no format, no enumeration, no
 * uniqueness of a card's cell and no reference from a card to the other
 * tables.
 */
module Schema {
  import opened Wrappers

  // ---------------------------------------------------------------------
  // Stored rows
  // ---------------------------------------------------------------------

  datatype Chapter = Chapter(id: string, title: string, description: Option<string>, order: string)

  datatype Character = Character(id: string, name: string, role: Option<string>, order: string, color: Option<string>)

  datatype Card = Card(
    id: string, characterId: string, chapterId: string,
    content: Option<string>, tag: Option<string>, color: Option<string>)

  function ChapterKey(c: Chapter): string { c.id }
  function CharacterKey(c: Character): string { c.id }
  function CardKey(c: Card): string { c.id }
  function ChapterRank(c: Chapter): string { c.order }
  function CharacterRank(c: Character): string { c.order }

  /** The card sits in the grid cell of that character row and chapter column. */
  predicate InCell(c: Card, characterId: string, chapterId: string) {
    c.characterId == characterId && c.chapterId == chapterId
  }

  // ---------------------------------------------------------------------
  // Insert records: every column but the id
  // ---------------------------------------------------------------------

  datatype InsertChapter = InsertChapter(title: string, description: Option<string>, order: string)

  datatype InsertCharacter = InsertCharacter(name: string, role: Option<string>, order: string, color: Option<string>)

  datatype InsertCard = InsertCard(
    characterId: string, chapterId: string,
    content: Option<string>, tag: Option<string>, color: Option<string>)

  /** The row the database stores for an insert, with the id it generated. */
  function ChapterWithId(ins: InsertChapter, id: string): Chapter {
    Chapter(id, ins.title, ins.description, ins.order)
  }

  /** A row without its id. */
  function ChapterInsertOf(c: Chapter): InsertChapter {
    InsertChapter(c.title, c.description, c.order)
  }

  function CharacterWithId(ins: InsertCharacter, id: string): Character {
    Character(id, ins.name, ins.role, ins.order, ins.color)
  }

  function CharacterInsertOf(c: Character): InsertCharacter {
    InsertCharacter(c.name, c.role, c.order, c.color)
  }

  function CardWithId(ins: InsertCard, id: string): Card {
    Card(id, ins.characterId, ins.chapterId, ins.content, ins.tag, ins.color)
  }

  function CardInsertOf(c: Card): InsertCard {
    InsertCard(c.characterId, c.chapterId, c.content, c.tag, c.color)
  }

  /** A stored row is exactly its insert record plus the generated id:
      adding an id and dropping it again are inverse. */
  lemma IdRoundTrip(ic: InsertChapter, ih: InsertCharacter, id: InsertCard, k: string, c: Chapter, h: Character, d: Card)
    ensures ChapterWithId(ic, k).id == k && ChapterInsertOf(ChapterWithId(ic, k)) == ic
    ensures CharacterWithId(ih, k).id == k && CharacterInsertOf(CharacterWithId(ih, k)) == ih
    ensures CardWithId(id, k).id == k && CardInsertOf(CardWithId(id, k)) == id
    ensures ChapterWithId(ChapterInsertOf(c), c.id) == c
    ensures CharacterWithId(CharacterInsertOf(h), h.id) == h
    ensures CardWithId(CardInsertOf(d), d.id) == d
  {
  }

  // ---------------------------------------------------------------------
  // Request bodies and the presence rules
  // ---------------------------------------------------------------------

  /** One member of a JSON request body: missing, null, a string, or some
      other JSON value. */
  datatype Field = Absent | Null | Text(value: string) | OtherJson

  /** A NOT NULL text column: the member must be a string. */
  predicate Required(f: Field) { f.Text? }

  /** A nullable text column: the member may be missing, null or a string. */
  predicate Nullable(f: Field) { !f.OtherJson? }

  /** The stored value of a nullable column: missing and null both store NULL. */
  function NullableValue(f: Field): (v: Option<string>)
    requires Nullable(f)
    ensures v.Some? <==> f.Text?
    ensures v.Some? ==> v.value == f.value
  {
    if f.Text? then Some(f.value) else None
  }

  /** A body may carry any `id` member: the insert rules omit the id, so it is
      dropped, and the database generates one. */
  datatype ChapterBody = ChapterBody(id: Field, title: Field, description: Field, order: Field)

  datatype CharacterBody = CharacterBody(id: Field, name: Field, role: Field, order: Field, color: Field)

  datatype CardBody = CardBody(
    id: Field, characterId: Field, chapterId: Field,
    content: Field, tag: Field, color: Field)

  ghost predicate ValidChapterInsert(b: ChapterBody) {
    Required(b.title) && Nullable(b.description) && Required(b.order)
  }

  ghost predicate ValidCharacterInsert(b: CharacterBody) {
    Required(b.name) && Nullable(b.role) && Required(b.order) && Nullable(b.color)
  }

  ghost predicate ValidCardInsert(b: CardBody) {
    Required(b.characterId) && Required(b.chapterId)
    && Nullable(b.content) && Nullable(b.tag) && Nullable(b.color)
  }

  /** The insert schema for chapters: accepted exactly when `title` and
      `order` are strings and `description` is missing, null or a string. */
  function ParseChapterInsert(b: ChapterBody): (r: Option<InsertChapter>)
    ensures r.Some? <==> ValidChapterInsert(b)
    ensures r.Some? ==> r.value.title == b.title.value && r.value.order == b.order.value
                        && r.value.description == NullableValue(b.description)
  {
    if Required(b.title) && Nullable(b.description) && Required(b.order)
    then Some(InsertChapter(b.title.value, NullableValue(b.description), b.order.value))
    else None
  }

  /** The insert schema for characters: `name` and `order` must be strings. */
  function ParseCharacterInsert(b: CharacterBody): (r: Option<InsertCharacter>)
    ensures r.Some? <==> ValidCharacterInsert(b)
    ensures r.Some? ==> r.value.name == b.name.value && r.value.order == b.order.value
                        && r.value.role == NullableValue(b.role) && r.value.color == NullableValue(b.color)
  {
    if Required(b.name) && Nullable(b.role) && Required(b.order) && Nullable(b.color)
    then Some(InsertCharacter(b.name.value, NullableValue(b.role), b.order.value, NullableValue(b.color)))
    else None
  }

  /** The insert schema for cards: `characterId` and `chapterId` must be strings. */
  function ParseCardInsert(b: CardBody): (r: Option<InsertCard>)
    ensures r.Some? <==> ValidCardInsert(b)
    ensures r.Some? ==> r.value.characterId == b.characterId.value && r.value.chapterId == b.chapterId.value
                        && r.value.content == NullableValue(b.content) && r.value.tag == NullableValue(b.tag)
                        && r.value.color == NullableValue(b.color)
  {
    if Required(b.characterId) && Required(b.chapterId)
       && Nullable(b.content) && Nullable(b.tag) && Nullable(b.color)
    then Some(InsertCard(b.characterId.value, b.chapterId.value,
                         NullableValue(b.content), NullableValue(b.tag), NullableValue(b.color)))
    else None
  }

  /** No insert reads the body's `id`: two bodies that differ only there parse alike. */
  lemma InsertsIgnoreId(c: ChapterBody, h: CharacterBody, d: CardBody, id: Field)
    ensures ParseChapterInsert(c.(id := id)) == ParseChapterInsert(c)
    ensures ParseCharacterInsert(h.(id := id)) == ParseCharacterInsert(h)
    ensures ParseCardInsert(d.(id := id)) == ParseCardInsert(d)
  {
  }

  /** Presence is the only rule: empty text and an arbitrary tag are accepted,
      and a card may name any character and chapter ids. */
  lemma PresenceIsTheOnlyRule(tag: string, characterId: string, chapterId: string)
    ensures ParseChapterInsert(ChapterBody(Absent, Text(""), Absent, Text(""))) == Some(InsertChapter("", None, ""))
    ensures ParseCharacterInsert(CharacterBody(Absent, Text(""), Null, Text(""), Absent))
            == Some(InsertCharacter("", None, "", None))
    ensures ParseCardInsert(CardBody(Absent, Text(characterId), Text(chapterId), Absent, Text(tag), Null))
            == Some(InsertCard(characterId, chapterId, None, Some(tag), None))
  {
  }

  /** A chapter body whose title or order is missing or null is refused. */
  lemma ChapterMissingRequiredRefused(b: ChapterBody)
    requires !b.title.Text? || !b.order.Text?
    ensures ParseChapterInsert(b).None?
  {
  }

  /** A character body whose name or order is missing or null is refused. */
  lemma CharacterMissingRequiredRefused(h: CharacterBody)
    requires !h.name.Text? || !h.order.Text?
    ensures ParseCharacterInsert(h).None?
  {
  }

  /** A card body whose characterId or chapterId is missing or null is refused. */
  lemma CardMissingRequiredRefused(d: CardBody)
    requires !d.characterId.Text? || !d.chapterId.Text?
    ensures ParseCardInsert(d).None?
  {
  }

  // ---------------------------------------------------------------------
  // Partial updates: any subset of the insert columns
  // ---------------------------------------------------------------------

  /** A supplied member of a partial update; for a nullable column the
      supplied value may itself be null. */
  datatype ChapterPatch = ChapterPatch(title: Option<string>, description: Option<Option<string>>, order: Option<string>)

  datatype CharacterPatch = CharacterPatch(
    name: Option<string>, role: Option<Option<string>>, order: Option<string>, color: Option<Option<string>>)

  datatype CardPatch = CardPatch(
    characterId: Option<string>, chapterId: Option<string>,
    content: Option<Option<string>>, tag: Option<Option<string>>, color: Option<Option<string>>)

  function Pick<V>(supplied: Option<V>, current: V): V {
    if supplied.Some? then supplied.value else current
  }

  /** The chapter with the supplied members overwritten; the id and the
      members not supplied stay as they were. */
  function PatchChapter(c: Chapter, p: ChapterPatch): (r: Chapter)
    ensures r.id == c.id
    ensures p.title.Some? ==> r.title == p.title.value
    ensures p.title.None? ==> r.title == c.title
    ensures p.description.Some? ==> r.description == p.description.value
    ensures p.description.None? ==> r.description == c.description
    ensures p.order.Some? ==> r.order == p.order.value
    ensures p.order.None? ==> r.order == c.order
  {
    Chapter(c.id, Pick(p.title, c.title), Pick(p.description, c.description), Pick(p.order, c.order))
  }

  function PatchCharacter(c: Character, p: CharacterPatch): (r: Character)
    ensures r.id == c.id
    ensures p.name.Some? ==> r.name == p.name.value
    ensures p.name.None? ==> r.name == c.name
    ensures p.role.Some? ==> r.role == p.role.value
    ensures p.role.None? ==> r.role == c.role
    ensures p.order.Some? ==> r.order == p.order.value
    ensures p.order.None? ==> r.order == c.order
    ensures p.color.Some? ==> r.color == p.color.value
    ensures p.color.None? ==> r.color == c.color
  {
    Character(c.id, Pick(p.name, c.name), Pick(p.role, c.role), Pick(p.order, c.order), Pick(p.color, c.color))
  }

  /** The card with the supplied members overwritten. Supplying
      `characterId` or `chapterId` moves the card to another cell. */
  function PatchCard(c: Card, p: CardPatch): (r: Card)
    ensures r.id == c.id
    ensures p.characterId.Some? ==> r.characterId == p.characterId.value
    ensures p.characterId.None? ==> r.characterId == c.characterId
    ensures p.chapterId.Some? ==> r.chapterId == p.chapterId.value
    ensures p.chapterId.None? ==> r.chapterId == c.chapterId
    ensures p.content.Some? ==> r.content == p.content.value
    ensures p.content.None? ==> r.content == c.content
    ensures p.tag.Some? ==> r.tag == p.tag.value
    ensures p.tag.None? ==> r.tag == c.tag
    ensures p.color.Some? ==> r.color == p.color.value
    ensures p.color.None? ==> r.color == c.color
  {
    Card(c.id, Pick(p.characterId, c.characterId), Pick(p.chapterId, c.chapterId),
         Pick(p.content, c.content), Pick(p.tag, c.tag), Pick(p.color, c.color))
  }

  /** The partial-update schema: every member may be missing; a supplied
      member obeys the insert rule of its column. */
  function ParseCardPatch(b: CardBody): (r: Option<CardPatch>)
    ensures r.Some? <==> (forall f :: f in [b.characterId, b.chapterId] ==> f.Absent? || f.Text?)
                         && Nullable(b.content) && Nullable(b.tag) && Nullable(b.color)
    ensures r.Some? ==> (r.value.characterId.Some? <==> b.characterId.Text?)
                        && (r.value.chapterId.Some? <==> b.chapterId.Text?)
                        && (r.value.content.Some? <==> !b.content.Absent?)
                        && (r.value.tag.Some? <==> !b.tag.Absent?)
                        && (r.value.color.Some? <==> !b.color.Absent?)
    ensures r.Some? ==> (b.characterId.Text? ==> r.value.characterId == Some(b.characterId.value))
                        && (b.chapterId.Text? ==> r.value.chapterId == Some(b.chapterId.value))
                        && (!b.content.Absent? ==> r.value.content == Some(NullableValue(b.content)))
                        && (!b.tag.Absent? ==> r.value.tag == Some(NullableValue(b.tag)))
                        && (!b.color.Absent? ==> r.value.color == Some(NullableValue(b.color)))
  {
    if (b.characterId.Absent? || b.characterId.Text?) && (b.chapterId.Absent? || b.chapterId.Text?)
       && Nullable(b.content) && Nullable(b.tag) && Nullable(b.color)
    then Some(CardPatch(
      RequiredPatch(b.characterId), RequiredPatch(b.chapterId),
      NullablePatch(b.content), NullablePatch(b.tag), NullablePatch(b.color)))
    else None
  }

  function RequiredPatch(f: Field): Option<string>
    requires f.Absent? || f.Text?
  {
    if f.Text? then Some(f.value) else None
  }

  function NullablePatch(f: Field): Option<Option<string>>
    requires Nullable(f)
  {
    if f.Absent? then None else Some(NullableValue(f))
  }

  /** Every valid card insert body is also a valid partial update. A member
      the body leaves out keeps its stored value under the update, where an
      insert would store NULL; when the body supplies every member, the update
      rewrites every column except the id to what the insert would store. */
  lemma InsertBodyAsPatch(b: CardBody, c: Card)
    requires ValidCardInsert(b)
    ensures ParseCardPatch(b).Some?
    ensures b.content.Absent? ==> PatchCard(c, ParseCardPatch(b).value).content == c.content
    ensures b.tag.Absent? ==> PatchCard(c, ParseCardPatch(b).value).tag == c.tag
    ensures b.color.Absent? ==> PatchCard(c, ParseCardPatch(b).value).color == c.color
    ensures !b.content.Absent? && !b.tag.Absent? && !b.color.Absent? ==>
              CardInsertOf(PatchCard(c, ParseCardPatch(b).value)) == ParseCardInsert(b).value
  {
    var p := ParseCardPatch(b).value;
    assert p.characterId == Some(b.characterId.value) && p.chapterId == Some(b.chapterId.value);
    if !b.content.Absent? && !b.tag.Absent? && !b.color.Absent? {
      assert p.content == Some(NullableValue(b.content)) && p.tag == Some(NullableValue(b.tag));
      assert p.color == Some(NullableValue(b.color));
    }
  }

  /** Applying the same patch twice is applying it once; the empty patch
      changes nothing. */
  lemma PatchCardIdempotent(c: Card, p: CardPatch)
    ensures PatchCard(PatchCard(c, p), p) == PatchCard(c, p)
    ensures PatchCard(c, CardPatch(None, None, None, None, None)) == c
  {
  }
}
