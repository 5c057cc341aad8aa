/**
 * The "add chapter" dialog: its form state, the check that refuses a blank
 * title, and the creation body it sends, with trimmed text and the next
 * order.
 */
module AddChapter {
  import opened Wrappers
  import opened Strings
  import opened Schema
  import opened Tables
  import opened Forms

  const TitleRequired: string := "El título es requerido"

  /** The save button: a title that is empty once trimmed is refused with a
      toast; otherwise the trimmed title and description are sent with the
      order after the `count` chapters the client holds. */
  function SaveChapter(count: nat, title: string, description: string): (r: SaveOutcome<ChapterBody>)
    ensures r.Rejected? <==> AllWhiteSpace(title)
    ensures r.Rejected? ==> r.toast == TitleRequired
    ensures r.Send? ==> ParseChapterInsert(r.body) == Some(InsertChapter(Trim(title), Some(Trim(description)), NextOrder(count)))
    ensures r.Send? ==> Trim(title) != []
  {
    if Trim(title) == [] then Rejected(TitleRequired)
    else Send(ChapterBody(Absent, Text(Trim(title)), Text(Trim(description)), Text(NextOrder(count))))
  }

  /** Saving what was just saved sends the same body: the text sent is
      already trimmed. */
  lemma SaveChapterStable(count: nat, title: string, description: string)
    requires SaveChapter(count, title, description).Send?
    ensures SaveChapter(count, Trim(title), Trim(description)) == SaveChapter(count, title, description)
  {
    TrimIdempotent(title);
    TrimIdempotent(description);
  }

  /** A title with no white space at either end is sent exactly as typed. */
  lemma SaveUnpaddedTitle(count: nat, title: string, description: string)
    requires title != [] && !IsWhiteSpace(title[0]) && !IsWhiteSpace(title[|title| - 1])
    requires description == [] || (!IsWhiteSpace(description[0]) && !IsWhiteSpace(description[|description| - 1]))
    ensures SaveChapter(count, title, description).Send?
    ensures ParseChapterInsert(SaveChapter(count, title, description).body)
            == Some(InsertChapter(title, Some(description), NextOrder(count)))
  {
    TrimUnpadded(title);
    TrimUnpadded(description);
  }

  /** The order is derived from the number of chapters, not from their
      orders: after the first of two chapters is deleted, the next chapter
      repeats the order of the one that is left. */
  lemma NextOrderAfterDeleteRepeats()
    ensures var chapters := [Chapter("a", "Uno", None, NextOrder(0)), Chapter("b", "Dos", None, NextOrder(1))];
      var left := Filter(chapters, (c: Chapter) => c.id != "a");
      left == [chapters[1]] && NextOrder(|left|) == left[0].order
  {
    var chapters := [Chapter("a", "Uno", None, NextOrder(0)), Chapter("b", "Dos", None, NextOrder(1))];
    assert chapters[1..] == [chapters[1]];
    assert Filter(chapters[1..][1..], (c: Chapter) => c.id != "a") == [];
  }

  /** The form state of the dialog. */
  class ChapterForm {
    var title: string
    var description: string

    constructor()
      ensures title == "" && description == ""
    {
      title := "";
      description := "";
    }

    method EditTitle(text: string)
      modifies this
      ensures title == text && description == old(description)
    {
      title := text;
    }

    method EditDescription(text: string)
      modifies this
      ensures description == text && title == old(title)
    {
      description := text;
    }

    /** After a successful creation both fields are cleared. */
    method OnCreated()
      modifies this
      ensures title == "" && description == ""
    {
      title := "";
      description := "";
    }

    /** Closing the dialog clears both fields, saved or not. */
    method Close()
      modifies this
      ensures title == "" && description == ""
    {
      title := "";
      description := "";
    }
  }
}
