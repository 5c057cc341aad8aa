/**
 * The story grid as the client draws it: one row per character, one column
 * per chapter, and in each cell the first card of the card list that sits
 * there, or an "add content" placeholder. The helpers that decorate the grid
 * are modelled with it: the avatar initials of a character, the cyclic
 * avatar colour of a row, the colour class of a card's tag and the tag's
 * displayed label.
 */
module Grid {
  import opened Wrappers
  import opened Strings
  import opened Schema
  import opened Tables

  // ---------------------------------------------------------------------
  // Cell lookup
  // ---------------------------------------------------------------------

  /** `cards.find(...)`: the first card in list order that sits in the cell of
      `characterId` and `chapterId`, or none exactly when no card sits there. */
  function GetCard(cards: seq<Card>, characterId: string, chapterId: string): (r: Option<Card>)
    ensures r.None? <==> forall k :: 0 <= k < |cards| ==> !InCell(cards[k], characterId, chapterId)
    ensures r.Some? ==> r.value in cards && InCell(r.value, characterId, chapterId)
    ensures r.Some? ==> forall k :: 0 <= k < |cards| && InCell(cards[k], characterId, chapterId) ==>
                          r.value in cards[..k + 1]
  {
    var i := FindFirst(cards, (d: Card) => InCell(d, characterId, chapterId));
    if i.None? then None
    else
      assert forall k :: 0 <= k < |cards| && InCell(cards[k], characterId, chapterId) ==>
               i.value <= k && cards[..k + 1][i.value] == cards[i.value];
      Some(cards[i.value])
  }

  /** JavaScript truthiness of a nullable text column: present and not empty. */
  predicate Truthy(v: Option<string>) {
    v.Some? && v.value != ""
  }

  /** The coloured tag badge of a card. */
  datatype Badge = Badge(caption: string, colorClass: string)

  /** What one cell of the grid shows. */
  datatype CellView =
    | CardView(card: Card, badge: Option<Badge>, text: Option<string>)
    | AddContentPlaceholder

  /** The view of a filled cell: a badge only for a non-empty tag and a text
      only for non-empty content. */
  function ViewOfCard(card: Card): (v: CellView)
    ensures v.CardView? && v.card == card
    ensures v.badge.Some? <==> Truthy(card.tag)
    ensures v.badge.Some? ==> v.badge.value.caption == TagLabel(card.tag.value)
                              && v.badge.value.colorClass == TagColor(card.tag.value)
    ensures v.text.Some? <==> Truthy(card.content)
    ensures v.text.Some? ==> v.text.value == card.content.value
  {
    CardView(card,
      if Truthy(card.tag) then Some(Badge(TagLabel(card.tag.value), TagColor(card.tag.value))) else None,
      if Truthy(card.content) then Some(card.content.value) else None)
  }

  /** The cell of a character row and a chapter column shows exactly the
      card that GetCard finds there, or the placeholder when it finds none. */
  function Cell(cards: seq<Card>, character: Character, chapter: Chapter): (v: CellView)
    ensures v.AddContentPlaceholder? <==> GetCard(cards, character.id, chapter.id).None?
    ensures v.CardView? ==> v == ViewOfCard(GetCard(cards, character.id, chapter.id).value)
  {
    var card := GetCard(cards, character.id, chapter.id);
    if card.Some? then ViewOfCard(card.value) else AddContentPlaceholder
  }

  /** One chapter column header: the title, and the description when it is
      not empty. */
  datatype ColumnHeader = ColumnHeader(title: string, description: Option<string>)

  function Header(chapter: Chapter): (h: ColumnHeader)
    ensures h.title == chapter.title
    ensures h.description.Some? <==> Truthy(chapter.description)
    ensures h.description.Some? ==> h.description == chapter.description
  {
    ColumnHeader(chapter.title, if Truthy(chapter.description) then chapter.description else None)
  }

  /** One character row: the avatar, the name, the role when it is not
      empty, and one cell per chapter. */
  datatype RowView = RowView(initials: string, avatarClass: string, name: string, role: Option<string>, cells: seq<CellView>)

  /** The body of the grid. Every row has one cell per chapter; a cell shows
      a card exactly when some card of the list sits in that cell, and then
      the first such card in list order, drawn as ViewOfCard draws it. The
      role is shown only when it is not empty. */
  function Rows(chapters: seq<Chapter>, characters: seq<Character>, cards: seq<Card>): (rows: seq<RowView>)
    ensures |rows| == |characters|
    ensures forall i :: 0 <= i < |rows| ==>
              |rows[i].cells| == |chapters| && rows[i].name == characters[i].name
              && rows[i].initials == Initials(characters[i].name) && rows[i].avatarClass == AvatarColor(i)
              && rows[i].role == (if Truthy(characters[i].role) then characters[i].role else None)
    ensures forall i, j :: 0 <= i < |rows| && 0 <= j < |chapters| ==>
              (rows[i].cells[j].AddContentPlaceholder? <==>
                 forall k :: 0 <= k < |cards| ==> !InCell(cards[k], characters[i].id, chapters[j].id))
    ensures forall i, j :: 0 <= i < |rows| && 0 <= j < |chapters| && rows[i].cells[j].CardView? ==>
              rows[i].cells[j].card in cards && InCell(rows[i].cells[j].card, characters[i].id, chapters[j].id)
    ensures forall i, j :: 0 <= i < |rows| && 0 <= j < |chapters| ==>
              rows[i].cells[j] == Cell(cards, characters[i], chapters[j])
  {
    seq(|characters|, i requires 0 <= i < |characters| =>
      var character := characters[i];
      RowView(
        Initials(character.name), AvatarColor(i), character.name,
        if Truthy(character.role) then character.role else None,
        seq(|chapters|, j requires 0 <= j < |chapters| => Cell(cards, character, chapters[j]))))
  }

  // ---------------------------------------------------------------------
  // Moving a card
  // ---------------------------------------------------------------------

  /** The partial update that moves a card to another cell: the body
      `{characterId, chapterId}` as the update schema reads it. Applied to a
      card it changes the cell and nothing else. */
  function MovePatch(characterId: string, chapterId: string): (p: CardPatch)
    ensures ParseCardPatch(CardBody(Absent, Text(characterId), Text(chapterId), Absent, Absent, Absent)) == Some(p)
    ensures forall c: Card :: PatchCard(c, p) == c.(characterId := characterId, chapterId := chapterId)
  {
    CardPatch(Some(characterId), Some(chapterId), None, None, None)
  }

  /** `after` is the card list once the card at position `i` has been moved
      to the cell of `characterId` and `chapterId` (the new state that the
      storage's update of a card promises). */
  ghost predicate MovedAt(cards: seq<Card>, after: seq<Card>, i: nat, characterId: string, chapterId: string)
    requires i < |cards|
  {
    |after| == |cards|
    && forall k :: 0 <= k < |cards| ==>
         after[k] == if cards[k].id == cards[i].id then PatchCard(cards[k], MovePatch(characterId, chapterId)) else cards[k]
  }

  /** Moving the only card of its cell to an empty cell empties the old cell
      and shows the card, with its content and tag, in the new one. */
  lemma MoveToEmptyCell(cards: seq<Card>, after: seq<Card>, i: nat, characterId: string, chapterId: string)
    requires UniqueKeys(cards, CardKey) && i < |cards|
    requires forall k :: 0 <= k < |cards| && k != i ==> !InCell(cards[k], cards[i].characterId, cards[i].chapterId)
    requires forall k :: 0 <= k < |cards| ==> !InCell(cards[k], characterId, chapterId)
    requires MovedAt(cards, after, i, characterId, chapterId)
    ensures GetCard(after, cards[i].characterId, cards[i].chapterId).None?
    ensures GetCard(after, characterId, chapterId) == Some(after[i])
    ensures after[i].id == cards[i].id && after[i].content == cards[i].content && after[i].tag == cards[i].tag
  {
    forall k | 0 <= k < |after| ensures !InCell(after[k], cards[i].characterId, cards[i].chapterId) {
      if k == i {
        assert InCell(after[i], characterId, chapterId);
      }
    }
    forall k | 0 <= k < i ensures !InCell(after[k], characterId, chapterId) {
      assert after[k] == cards[k];
    }
    assert InCell(after[i], characterId, chapterId);
  }

  /** Nothing stops a move onto an occupied cell: both cards then sit there,
      and when the occupant comes first in the list the grid keeps showing it
      and the moved card disappears from view. */
  lemma MoveOntoOccupiedCell(cards: seq<Card>, after: seq<Card>, i: nat, j: nat)
    requires UniqueKeys(cards, CardKey) && i < |cards| && j < |cards| && i != j
    requires MovedAt(cards, after, i, cards[j].characterId, cards[j].chapterId)
    ensures InCell(after[i], cards[j].characterId, cards[j].chapterId)
    ensures InCell(after[j], cards[j].characterId, cards[j].chapterId)
    ensures j < i ==> GetCard(after, cards[j].characterId, cards[j].chapterId) != Some(after[i])
  {
    assert CardKey(cards[j]) != CardKey(cards[i]);
    assert after[j] == cards[j];
    if j < i {
      var target := GetCard(after, cards[j].characterId, cards[j].chapterId);
      assert target.value in after[..j + 1];
      forall m | 0 <= m <= j ensures after[m].id != after[i].id {
        assert CardKey(cards[m]) != CardKey(cards[i]);
      }
    }
  }

  // ---------------------------------------------------------------------
  // Initials
  // ---------------------------------------------------------------------

  /** A word starts at `i`: a non-space character at the start or after a space. */
  predicate IsWordStart(s: string, i: nat)
    requires i < |s|
  {
    s[i] != ' ' && (i == 0 || s[i - 1] == ' ')
  }

  /** The first character of every space-separated word of `s[i..]`, in order,
      where a word at `i` counts only if `IsWordStart(s, i)` holds. */
  function WordStartsFrom(s: string, i: nat): string
    requires i <= |s|
    decreases |s| - i
  {
    if i == |s| then [] else (if IsWordStart(s, i) then [s[i]] else []) + WordStartsFrom(s, i + 1)
  }

  /** The first character of every space-separated word of `name`, in order. */
  function WordInitials(name: string): string {
    WordStartsFrom(name, 0)
  }

  /** `word[0]` as it appears in a join: nothing for an empty word. */
  function FirstChar(w: string): string {
    if w == [] then [] else [w[0]]
  }

  /** `words.map(word => word[0]).join('')` */
  function FirstChars(words: seq<string>): string {
    if words == [] then [] else FirstChar(words[0]) + FirstChars(words[1..])
  }

  /** `name.split(' ').map(word => word[0]).join('').toUpperCase().slice(0, 2)`:
      the upper-cased first characters of the first two words. Empty words
      from repeated, leading or trailing spaces contribute nothing. */
  function Initials(name: string): (r: string)
    ensures |r| <= 2
    ensures r == Prefix(ToUpper(WordInitials(name)), 2)
  {
    FirstCharsOfSplit(name);
    Prefix(ToUpper(FirstChars(Split(name, ' '))), 2)
  }

  lemma {:induction false} SkipNonStarts(s: string, i: nat, j: nat)
    requires i <= j <= |s|
    requires forall k :: i <= k < j ==> !IsWordStart(s, k)
    ensures WordStartsFrom(s, i) == WordStartsFrom(s, j)
    decreases j - i
  {
    if i < j { SkipNonStarts(s, i + 1, j); }
  }

  lemma {:induction false} ShiftStarts(p: string, q: string, j: nat)
    requires |p| > 0 && p[|p| - 1] == ' ' && j <= |q|
    ensures WordStartsFrom(p + q, |p| + j) == WordStartsFrom(q, j)
    decreases |q| - j
  {
    var s := p + q;
    if j < |q| {
      assert s[|p| + j] == q[j];
      if j == 0 {
        assert s[|p| - 1] == p[|p| - 1];
      } else {
        assert s[|p| + j - 1] == q[j - 1];
      }
      assert IsWordStart(s, |p| + j) == IsWordStart(q, j);
      ShiftStarts(p, q, j + 1);
      assert WordStartsFrom(s, |p| + j)
          == (if IsWordStart(s, |p| + j) then [s[|p| + j]] else []) + WordStartsFrom(s, |p| + j + 1);
    } else {
      assert |p| + j == |s|;
    }
  }

  /** The words of a split and the word starts of the string agree. */
  lemma {:induction false} FirstCharsOfSplit(s: string)
    ensures FirstChars(Split(s, ' ')) == WordInitials(s)
    decreases |s|
  {
    var k := IndexOf(s, ' ');
    if k == |s| {
      if s != [] {
        SkipNonStarts(s, 1, |s|);
      }
      assert FirstChars([s]) == FirstChar(s) + FirstChars([]);
    } else {
      var word, rest := s[..k], s[k + 1..];
      FirstCharsOfSplit(rest);
      var parts := Split(rest, ' ');
      assert Split(s, ' ') == [word] + parts;
      assert ([word] + parts)[1..] == parts;
      assert FirstChars(Split(s, ' ')) == FirstChar(word) + WordInitials(rest);
      if k == 0 {
        SkipNonStarts(s, 0, 1);
      } else {
        SkipNonStarts(s, 1, k + 1);
      }
      assert s == s[..k + 1] + rest;
      ShiftStarts(s[..k + 1], rest, 0);
    }
  }

  // ---------------------------------------------------------------------
  // Avatar colour
  // ---------------------------------------------------------------------

  const AvatarPalette: seq<string> := [
    "bg-purple-100 text-purple-600",
    "bg-indigo-100 text-indigo-600",
    "bg-rose-100 text-rose-600",
    "bg-cyan-100 text-cyan-600",
    "bg-emerald-100 text-emerald-600",
    "bg-amber-100 text-amber-600"
  ]

  /** The avatar colour of the character in row `index`: the palette, cycled. */
  function AvatarColor(index: nat): (r: string)
    ensures r in AvatarPalette
    ensures r == AvatarPalette[index % |AvatarPalette|]
  {
    AvatarPalette[index % |AvatarPalette|]
  }

  /** Rows six apart share a colour; neighbouring rows never do. */
  lemma AvatarColorCycles(i: nat)
    ensures AvatarColor(i + 6) == AvatarColor(i)
    ensures AvatarColor(i + 1) != AvatarColor(i)
  {
  }

  // ---------------------------------------------------------------------
  // Tag colour and label
  // ---------------------------------------------------------------------

  const DefaultTagColor: string := "bg-gray-100 text-gray-800"

  /** The colour class of each recognised tag. */
  const TagColors: map<string, string> := map[
    "introducción" := "bg-blue-100 text-blue-800",
    "conflicto" := "bg-red-100 text-red-800",
    "desarrollo" := "bg-yellow-100 text-yellow-800",
    "clímax" := "bg-orange-100 text-orange-800",
    "resolución" := "bg-green-100 text-green-800",
    "apoyo" := "bg-blue-100 text-blue-800",
    "revelación" := "bg-teal-100 text-teal-800",
    "sacrificio" := "bg-red-100 text-red-800",
    "legado" := "bg-emerald-100 text-emerald-800",
    "sombra" := "bg-gray-100 text-gray-800",
    "manipulación" := "bg-amber-100 text-amber-800",
    "confrontación" := "bg-red-100 text-red-800",
    "derrota" := "bg-slate-100 text-slate-800",
    "guía" := "bg-purple-100 text-purple-800",
    "apoyo-técnico" := "bg-green-100 text-green-800"
  ]

  /** The colour class of a tag: the listed class for a recognised tag and the
      gray default for every other string. */
  function TagColor(tag: string): (r: string)
    ensures tag in TagColors ==> r == TagColors[tag]
    ensures tag !in TagColors ==> r == DefaultTagColor
  {
    if tag in TagColors then TagColors[tag] else DefaultTagColor
  }

  /** The property names an object literal inherits from Object.prototype. */
  const ObjectPrototypeMembers: set<string> := {
    "constructor", "hasOwnProperty", "isPrototypeOf", "propertyIsEnumerable",
    "toLocaleString", "toString", "valueOf", "__proto__",
    "__defineGetter__", "__defineSetter__", "__lookupGetter__", "__lookupSetter__"
  }

  /** What `tagColors[tag] || default` evaluates to on a plain object literal:
      a class string, or an inherited function or object, which is truthy. */
  datatype TagLookup = ClassText(text: string) | InheritedMember(name: string)

  /** The tag-colour lookup as the client writes it, indexing an ordinary
      object literal, so that inherited property names bypass the default. */
  function TagColorAsWritten(tag: string): (r: TagLookup)
    ensures tag in TagColors ==> r == ClassText(TagColors[tag])
    ensures tag !in TagColors && tag in ObjectPrototypeMembers ==> r == InheritedMember(tag)
    ensures tag !in TagColors && tag !in ObjectPrototypeMembers ==> r == ClassText(DefaultTagColor)
  {
    if tag in TagColors then ClassText(TagColors[tag])
    else if tag in ObjectPrototypeMembers then InheritedMember(tag)
    else ClassText(DefaultTagColor)
  }

  /** A card tagged "constructor" gets the inherited Object function instead of
      the gray default. */
  lemma ConstructorTagMissesDefault()
    ensures TagColorAsWritten("constructor") == InheritedMember("constructor")
    ensures TagColor("constructor") == DefaultTagColor
  {
    assert "constructor" !in TagColors;
  }

  /** Away from the inherited names, the lookup as written and TagColor agree. */
  lemma TagColorAgreesAsWritten(tag: string)
    requires tag !in ObjectPrototypeMembers
    ensures TagColorAsWritten(tag) == ClassText(TagColor(tag))
  {
  }

  /** `tag.charAt(0).toUpperCase() + tag.slice(1)`: the first character
      upper-cased, the rest as it is. */
  function TagLabel(tag: string): (r: string)
    ensures |r| == |tag|
    ensures tag != [] ==> r[0] == UpperChar(tag[0]) && r[1..] == tag[1..]
  {
    if tag == [] then [] else ToUpper([tag[0]]) + tag[1..]
  }

  /** Labelling a label changes nothing. */
  lemma TagLabelIdempotent(tag: string)
    ensures TagLabel(TagLabel(tag)) == TagLabel(tag)
  {
    if tag != [] {
      var r := TagLabel(tag);
      UpperCharIdempotent(tag[0]);
      assert TagLabel(r) == [UpperChar(r[0])] + r[1..];
      assert r == [r[0]] + r[1..];
    }
  }
}
