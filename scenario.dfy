/**
 * The application end to end on one story: the client builds the creation
 * bodies, the insert schemas accept them, and the storage applies them.
 * Identifiers stand for the values the database would generate.
 */
module Scenario {
  import opened Wrappers
  import opened Schema
  import opened Storage
  import opened Forms
  import opened Tables
  import AddChapter
  import AddCharacter
  import CardEditor
  import Grid

  /** The bodies the chapter dialog sends for the story, as the insert schema reads them. */
  lemma ChapterBodies()
    ensures ParseChapterInsert(AddChapter.SaveChapter(0, "Ch1", "").body) == Some(InsertChapter("Ch1", Some(""), "1"))
    ensures ParseChapterInsert(AddChapter.SaveChapter(1, "Ch2", "").body) == Some(InsertChapter("Ch2", Some(""), "2"))
  {
    assert NextOrder(0) == "1" && NextOrder(1) == "2";
    AddChapter.SaveUnpaddedTitle(0, "Ch1", "");
    AddChapter.SaveUnpaddedTitle(1, "Ch2", "");
  }

  /** The body the character dialog sends for the story, as the insert schema reads it. */
  lemma CharacterDialogBody()
    ensures ParseCharacterInsert(AddCharacter.SaveCharacter(0, "Ana", "", None).body)
            == Some(InsertCharacter("Ana", Some(""), "1", None))
  {
    assert NextOrder(0) == "1";
    AddCharacter.SaveUnpaddedName(0, "Ana", "", None);
  }

  /** Builds the story from the records that ChapterBodies and
      CharacterDialogBody show the dialogs' bodies parse to: chapters
      "Ch1" and "Ch2", the character "Ana", and a card for Ana in "Ch1" with
      the body the editor sends for that empty cell. */
  method BuildStory() returns (db: DatabaseStorage, ch1: Chapter, ch2: Chapter, ana: Character, card: Card)
    ensures fresh(db) && db.Valid()
    ensures db.chapters == [ch1, ch2] && db.characters == [ana] && db.cards == [card]
    ensures ch1.title == "Ch1" && ch1.order == "1" && ch2.title == "Ch2" && ch2.order == "2"
    ensures ch1.id != ch2.id && ana.name == "Ana"
    ensures InCell(card, ana.id, ch1.id) && card.content == Some("intro") && card.tag == Some("introducción")
  {
    db := new DatabaseStorage();
    ch1 := db.CreateChapter(InsertChapter("Ch1", Some(""), "1"), "ch-1");
    assert ChapterKey(db.chapters[0]) != "ch-2";
    ch2 := db.CreateChapter(InsertChapter("Ch2", Some(""), "2"), "ch-2");
    ana := db.CreateCharacter(InsertCharacter("Ana", Some(""), "1", None), "ana");
    assert ChapterInsertOf(ch1).title == "Ch1" && ChapterInsertOf(ch2).title == "Ch2";
    assert CharacterInsertOf(ana).name == "Ana";

    var save := CardEditor.SaveRequest(Some(CardEditor.CardData(ana.id, ch1.id, ana.name, ch1.title, None)),
                                       "introducción", "intro");
    card := db.CreateCard(ParseCardInsert(save.value.body).value, "card-1");
    assert CardInsertOf(card).content == Some("intro");
  }

  /** The card is found in its own cell and not in the next chapter's. */
  method LookUp() returns (atCh1: Option<Card>, atCh2: Option<Card>)
    ensures atCh1.Some? && atCh1.value.content == Some("intro") && atCh1.value.tag == Some("introducción")
    ensures atCh2.None?
  {
    var db, ch1, ch2, ana, card := BuildStory();
    assert card in db.cards;
    atCh1 := db.GetCard(ana.id, ch1.id);
    atCh2 := db.GetCard(ana.id, ch2.id);
  }

  /** Deleting the first chapter takes its card with it and leaves the
      second chapter as the only one listed. */
  method DeleteFirstChapter() returns (listed: seq<Chapter>, remaining: seq<Card>)
    ensures |listed| == 1 && listed[0].title == "Ch2" && listed[0].order == "2"
    ensures remaining == []
  {
    var db, ch1, ch2, ana, card := BuildStory();
    db.DeleteChapter(ch1.id);
    OnlyOtherChapterLeft(ch1, ch2);
    NoCardLeft(card);
    listed := db.GetChapters();
    assert ch2 in multiset(listed);
    assert |listed| == |multiset(listed)| == 1;
    remaining := db.GetCards();
    assert |remaining| == |multiset(remaining)| == 0;
  }

  /** Deleting the first of two chapters leaves the second. */
  lemma OnlyOtherChapterLeft(ch1: Chapter, ch2: Chapter)
    requires ch1.id != ch2.id
    ensures multiset(WithoutKey([ch1, ch2], ChapterKey, ch1.id)) == multiset{ch2}
  {
    var r := WithoutKey([ch1, ch2], ChapterKey, ch1.id);
    assert multiset([ch1, ch2]) == multiset{ch1, ch2};
    forall c: Chapter ensures multiset(r)[c] == multiset{ch2}[c] {
    }
  }

  /** Deleting the chapter of the only card leaves no card. */
  lemma NoCardLeft(card: Card)
    ensures CardsOutside([card], ChapterColumn, card.chapterId) == []
  {
    var r := CardsOutside([card], ChapterColumn, card.chapterId);
    assert multiset(r)[card] == 0;
    forall d: Card ensures multiset(r)[d] == 0 {
    }
    assert multiset(r) == multiset{};
  }

  /** Moving Ana's card from the first chapter to the empty second one: the
      old cell is empty afterwards and the new one holds the same card with
      its content. */
  method MoveCard() returns (atOld: Option<Card>, atNew: Option<Card>)
    ensures atOld.None?
    ensures atNew.Some? && atNew.value.content == Some("intro") && atNew.value.tag == Some("introducción")
  {
    var db, ch1, ch2, ana, card := BuildStory();
    var patch := Grid.MovePatch(ana.id, ch2.id);
    var after := PatchCard(card, patch);
    assert after.content == card.content && after.tag == card.tag && InCell(after, ana.id, ch2.id);
    var moved := db.UpdateCard(card.id, patch);
    assert db.cards[0] == after;
    assert db.cards == [after];
    atOld := db.GetCard(ana.id, ch1.id);
    assert after in db.cards;
    atNew := db.GetCard(ana.id, ch2.id);
  }
}
