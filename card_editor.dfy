/**
 * The card editor dialog: the form state it seeds from the clicked cell, the
 * fifteen tags it offers, and the request its save button sends, a creation
 * for an empty cell or a partial update of the card already there.
 */
module CardEditor {
  import opened Wrappers
  import opened Schema
  import opened Grid

  /** The tag values the editor's select offers, in menu order. */
  const TagOptions: seq<string> := [
    "introducción", "conflicto", "desarrollo", "clímax", "resolución",
    "apoyo", "revelación", "sacrificio", "legado", "sombra",
    "manipulación", "confrontación", "derrota", "guía", "apoyo-técnico"
  ]

  /** The editor offers exactly the tags the grid has a colour for, each once. */
  lemma TagOptionsAreTheColouredTags()
    ensures |TagOptions| == 15
    ensures forall i, j :: 0 <= i < j < |TagOptions| ==> TagOptions[i] != TagOptions[j]
    ensures (set t | t in TagOptions) == TagColors.Keys
  {
    var s := set t | t in TagOptions;
    forall t | t in TagColors.Keys ensures t in s {
    }
    forall t | t in s ensures t in TagColors.Keys {
    }
  }

  /** The cell the editor was opened on, with the card shown there if any. */
  datatype CardData = CardData(
    characterId: string, chapterId: string,
    characterName: string, chapterTitle: string,
    existingCard: Option<Card>)

  /** Clicking a cell of the grid opens the editor on that cell, with the
      card the cell shows. */
  function OpenEditor(cards: seq<Card>, character: Character, chapter: Chapter): (d: CardData)
    ensures d.characterId == character.id && d.chapterId == chapter.id
    ensures d.characterName == character.name && d.chapterTitle == chapter.title
    ensures d.existingCard.None? <==> Cell(cards, character, chapter).AddContentPlaceholder?
    ensures d.existingCard.Some? ==> Cell(cards, character, chapter) == ViewOfCard(d.existingCard.value)
  {
    CardData(character.id, chapter.id, character.name, chapter.title, GetCard(cards, character.id, chapter.id))
  }

  /** `value || ""` on a nullable text column. */
  function OrEmpty(v: Option<string>): (r: string)
    ensures v.Some? ==> r == v.value
    ensures v.None? ==> r == ""
  {
    if v.Some? then v.value else ""
  }

  /** The tag and content the form shows when it opens: those of the existing
      card, with null read as empty, or empty for an empty cell. */
  function SeededFields(cardData: Option<CardData>): (r: (string, string))
    ensures cardData.Some? && cardData.value.existingCard.Some? ==>
              r == (OrEmpty(cardData.value.existingCard.value.tag), OrEmpty(cardData.value.existingCard.value.content))
    ensures cardData.None? || cardData.value.existingCard.None? ==> r == ("", "")
  {
    if cardData.Some? && cardData.value.existingCard.Some? then
      var card := cardData.value.existingCard.value;
      (OrEmpty(card.tag), OrEmpty(card.content))
    else ("", "")
  }

  /** The form state of the editor. */
  class EditorState {
    var tag: string
    var content: string

    constructor()
      ensures tag == "" && content == ""
    {
      tag := "";
      content := "";
    }

    /** The effect that runs whenever the edited cell changes. */
    method Seed(cardData: Option<CardData>)
      modifies this
      ensures (tag, content) == SeededFields(cardData)
    {
      if cardData.Some? && cardData.value.existingCard.Some? {
        tag := OrEmpty(cardData.value.existingCard.value.tag);
        content := OrEmpty(cardData.value.existingCard.value.content);
      } else {
        tag := "";
        content := "";
      }
    }

    /** Choosing an entry of the tag menu. */
    method ChooseTag(i: nat)
      requires i < |TagOptions|
      modifies this
      ensures tag == TagOptions[i] && content == old(content)
    {
      tag := TagOptions[i];
    }

    /** Typing into the content area. */
    method EditContent(text: string)
      modifies this
      ensures content == text && tag == old(tag)
    {
      content := text;
    }
  }

  /** A request to the card endpoints: a creation or an update of card `id`. */
  datatype CardRequest = PostCard(body: CardBody) | PutCard(id: string, body: CardBody)

  /** The save button: nothing without a cell; the tag and content as a
      partial update of the existing card; otherwise a new card for the cell
      with that tag and content and no colour. */
  function SaveRequest(cardData: Option<CardData>, tag: string, content: string): (r: Option<CardRequest>)
    ensures r.None? <==> cardData.None?
    ensures r.Some? && r.value.PutCard? ==>
              cardData.value.existingCard.Some? && r.value.id == cardData.value.existingCard.value.id
              && ParseCardPatch(r.value.body) == Some(CardPatch(None, None, Some(Some(content)), Some(Some(tag)), None))
    ensures r.Some? && r.value.PostCard? ==>
              cardData.value.existingCard.None?
              && ParseCardInsert(r.value.body)
                 == Some(InsertCard(cardData.value.characterId, cardData.value.chapterId, Some(content), Some(tag), None))
  {
    if cardData.None? then None
    else if cardData.value.existingCard.Some? then
      Some(PutCard(cardData.value.existingCard.value.id,
                   CardBody(Absent, Absent, Absent, Text(content), Text(tag), Absent)))
    else
      Some(PostCard(CardBody(Absent, Text(cardData.value.characterId), Text(cardData.value.chapterId),
                             Text(content), Text(tag), Absent)))
  }

  /** Saving from a cell of the grid updates the card the cell shows when it
      shows one, and otherwise creates a card in exactly that cell. */
  lemma SaveFromCellTargetsThatCell(cards: seq<Card>, character: Character, chapter: Chapter, tag: string, content: string)
    ensures var r := SaveRequest(Some(OpenEditor(cards, character, chapter)), tag, content).value;
      var shown := GetCard(cards, character.id, chapter.id);
      (r.PutCard? <==> shown.Some?)
      && (r.PutCard? ==> r.id == shown.value.id && shown.value in cards && InCell(shown.value, character.id, chapter.id))
      && (r.PostCard? ==> var ins := ParseCardInsert(r.body).value;
                           ins.characterId == character.id && ins.chapterId == chapter.id)
  {
  }

  /** An update from the editor rewrites the content and tag of the card and
      nothing else: the card keeps its id, its cell and its colour. */
  lemma SaveKeepsCellAndColor(cardData: CardData, tag: string, content: string)
    requires cardData.existingCard.Some?
    ensures var r := SaveRequest(Some(cardData), tag, content).value;
      var card := cardData.existingCard.value;
      r.PutCard? && PatchCard(card, ParseCardPatch(r.body).value)
                    == card.(content := Some(content), tag := Some(tag))
  {
  }

  /** Opening the editor on a card and saving without edits stores null
      columns as empty text and leaves the rest of the card as it was, so the
      grid shows the card exactly as before. */
  lemma SaveUneditedCard(cardData: CardData)
    requires cardData.existingCard.Some?
    ensures var card := cardData.existingCard.value;
      var (tag, content) := SeededFields(Some(cardData));
      var r := SaveRequest(Some(cardData), tag, content).value;
      var saved := PatchCard(card, ParseCardPatch(r.body).value);
      saved == card.(content := Some(OrEmpty(card.content)), tag := Some(OrEmpty(card.tag)))
      && ViewOfCard(saved).badge == ViewOfCard(card).badge
      && ViewOfCard(saved).text == ViewOfCard(card).text
  {
    var card := cardData.existingCard.value;
    SaveKeepsCellAndColor(cardData, OrEmpty(card.tag), OrEmpty(card.content));
  }

  /** A card created from the editor with no tag chosen stores the empty tag,
      which the grid shows without a badge. */
  lemma UntaggedSaveShowsNoBadge(cardData: CardData, content: string, newId: string)
    requires cardData.existingCard.None?
    ensures var r := SaveRequest(Some(cardData), "", content).value;
      var card := CardWithId(ParseCardInsert(r.body).value, newId);
      card.tag == Some("") && ViewOfCard(card).badge.None?
  {
  }

  /** Creating the card of an empty cell from the editor makes the grid show
      the new card in that cell. */
  lemma SaveFillsEmptyCell(cards: seq<Card>, cardData: CardData, tag: string, content: string, newId: string)
    requires cardData.existingCard.None?
    requires GetCard(cards, cardData.characterId, cardData.chapterId).None?
    ensures var r := SaveRequest(Some(cardData), tag, content).value;
      var card := CardWithId(ParseCardInsert(r.body).value, newId);
      GetCard(cards + [card], cardData.characterId, cardData.chapterId) == Some(card)
  {
    var r := SaveRequest(Some(cardData), tag, content).value;
    var card := CardWithId(ParseCardInsert(r.body).value, newId);
    var after := cards + [card];
    assert after[|cards|] == card;
    assert forall k :: 0 <= k < |cards| ==> after[k] == cards[k];
  }
}
