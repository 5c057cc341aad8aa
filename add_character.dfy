/**
 * The "add character" dialog: its form state, the check that refuses a blank
 * name, and the creation body it sends, with trimmed text, the next order
 * and the chosen colour or null.
 */
module AddCharacter {
  import opened Wrappers
  import opened Strings
  import opened Schema
  import opened Forms

  const NameRequired: string := "El nombre es requerido"

  /** The colour as sent: the chosen colour, or null when none was chosen. */
  function ColorField(color: Option<string>): (f: Field)
    ensures Nullable(f) && NullableValue(f) == color
  {
    if color.Some? then Text(color.value) else Null
  }

  /** The save button: a name that is empty once trimmed is refused with a
      toast; otherwise the trimmed name and role and the colour as chosen are
      sent with the order after the `count` characters the client holds. */
  function SaveCharacter(count: nat, name: string, role: string, color: Option<string>): (r: SaveOutcome<CharacterBody>)
    ensures r.Rejected? <==> AllWhiteSpace(name)
    ensures r.Rejected? ==> r.toast == NameRequired
    ensures r.Send? ==> ParseCharacterInsert(r.body)
                        == Some(InsertCharacter(Trim(name), Some(Trim(role)), NextOrder(count), color))
    ensures r.Send? ==> Trim(name) != []
  {
    if Trim(name) == [] then Rejected(NameRequired)
    else Send(CharacterBody(Absent, Text(Trim(name)), Text(Trim(role)), Text(NextOrder(count)), ColorField(color)))
  }

  /** Saving what was just saved sends the same body. */
  lemma SaveCharacterStable(count: nat, name: string, role: string, color: Option<string>)
    requires SaveCharacter(count, name, role, color).Send?
    ensures SaveCharacter(count, Trim(name), Trim(role), color) == SaveCharacter(count, name, role, color)
  {
    TrimIdempotent(name);
    TrimIdempotent(role);
  }

  /** A name with no white space at either end is sent exactly as typed. */
  lemma SaveUnpaddedName(count: nat, name: string, role: string, color: Option<string>)
    requires name != [] && !IsWhiteSpace(name[0]) && !IsWhiteSpace(name[|name| - 1])
    requires role == [] || (!IsWhiteSpace(role[0]) && !IsWhiteSpace(role[|role| - 1]))
    ensures SaveCharacter(count, name, role, color).Send?
    ensures ParseCharacterInsert(SaveCharacter(count, name, role, color).body)
            == Some(InsertCharacter(name, Some(role), NextOrder(count), color))
  {
    TrimUnpadded(name);
    TrimUnpadded(role);
  }

  /** The form state of the dialog. */
  class CharacterForm {
    var name: string
    var role: string
    var color: Option<string>

    constructor()
      ensures name == "" && role == "" && color == None
    {
      name := "";
      role := "";
      color := None;
    }

    method EditName(text: string)
      modifies this
      ensures name == text && role == old(role) && color == old(color)
    {
      name := text;
    }

    method EditRole(text: string)
      modifies this
      ensures role == text && name == old(name) && color == old(color)
    {
      role := text;
    }

    method ChooseColor(choice: Option<string>)
      modifies this
      ensures color == choice && name == old(name) && role == old(role)
    {
      color := choice;
    }

    /** After a successful creation every field is cleared. */
    method OnCreated()
      modifies this
      ensures name == "" && role == "" && color == None
    {
      name := "";
      role := "";
      color := None;
    }

    /** Closing the dialog clears every field, saved or not. */
    method Close()
      modifies this
      ensures name == "" && role == "" && color == None
    {
      name := "";
      role := "";
      color := None;
    }
  }
}
