/**
 * The state of the form builder (the App component) and its actions. Every
 * action is one sequential step: it computes the new list or map with the
 * functions of FieldSchema and FormDataStore and stores it, as the component's
 * `setFields`, `setFormData`, `setErrors`, `setEditingFieldId` and
 * `setSubmittedData` do.
 */
module FormApp {
  import opened Wrappers
  import opened FormDataStore
  import opened FieldSchema
  import opened Validation
  import OptionsText

  class FormBuilder {
    /** The root fields, in render order. */
    var fields: seq<Field>
    /** The entered values. */
    var formData: FormData
    /** The latest message per validated id; "" means no error. */
    var errors: map<Id, string>
    /** The snapshot taken by the last submission, if any. */
    var submitted: Option<FormData>
    /** The field whose edit panel is open, if any. */
    var editing: Option<Id>

    constructor ()
      ensures fields == [] && formData == map[] && errors == map[]
      ensures submitted == None && editing == None
    {
      fields := [];
      formData := map[];
      errors := map[];
      submitted := None;
      editing := None;
    }

    /** `addField(kind)`: one more root field, the catalogue entry with the new id. */
    method AddField(kind: string, id: Id)
      modifies this`fields
      ensures fields == old(fields) + [NewField(kind, id)]
      ensures UniqueIds(old(fields)) && id !in Ids(old(fields)) ==> UniqueIds(fields)
    {
      if UniqueIds(fields) && id !in Ids(fields) {
        AddKeepsUnique(fields, kind, id);
      }
      fields := fields + [NewField(kind, id)];
    }

    /** `addSection()`: one more root field, an empty section with the new id. */
    method AddSection(id: Id)
      modifies this`fields
      ensures fields == old(fields) + [NewField("section", id)]
      ensures fields[|fields| - 1].fields == Some([]) && fields[|fields| - 1].kind == Some("section")
      ensures UniqueIds(old(fields)) && id !in Ids(old(fields)) ==> UniqueIds(fields)
    {
      if UniqueIds(fields) && id !in Ids(fields) {
        AddKeepsUnique(fields, "section", id);
      }
      fields := fields + [NewField("section", id)];
    }

    /** `addNestedField(sectionId, kind)`: the new field is appended under each root entry with that id. */
    method AddNestedField(sectionId: Id, kind: string, id: Id)
      modifies this`fields
      ensures fields == NestUnder(old(fields), sectionId, NewField(kind, id))
      ensures UniqueIds(old(fields)) && id !in Ids(old(fields)) ==> UniqueIds(fields)
    {
      var child := NewField(kind, id);
      if UniqueIds(fields) && id !in Ids(fields) {
        NestKeepsUnique(fields, sectionId, child);
      }
      fields := NestUnder(fields, sectionId, child);
    }

    /** `deleteField(id)`: the root entries with that id go; entered values and errors stay. */
    method DeleteField(id: Id)
      modifies this`fields
      ensures fields == Without(old(fields), id)
      ensures UniqueIds(old(fields)) ==> UniqueIds(fields)
    {
      if UniqueIds(fields) {
        DeleteKeepsUnique(fields, id);
      }
      fields := Without(fields, id);
    }

    /** `editField(id, updates)`: every root entry with that id is merged with the updates. */
    method EditField(id: Id, u: Update)
      modifies this`fields
      ensures fields == EditAll(old(fields), id, u)
      ensures u.id.None? && u.fields.None? ==> Ids(fields) == Ids(old(fields))
    {
      if u.id.None? && u.fields.None? {
        EditKeepsIds(fields, id, u);
      }
      fields := EditAll(fields, id, u);
    }

    /**
     * `validateField(id, value)`: the rules are tried in order, a later match
     * overwriting the message; the message is then stored under `id` alone.
     * When a rule throws, `thrown` is true and the errors are untouched.
     */
    method ValidateField(id: Id, value: Value, clock: Clock) returns (thrown: bool)
      modifies this`errors
      ensures thrown <==> Validate(id, value, clock).TypeError?
      ensures thrown ==> errors == old(errors)
      ensures !thrown ==> errors == old(errors)[id := Validate(id, value, clock).text]
    {
      var error := "";
      if id == Name("email") {
        match value {
          case Text(s) =>
            if '@' !in s { error := EmailMessage; }
          case Choices(items) =>
            if "@" !in items { error := EmailMessage; }
          case _ =>
            return true;
        }
      }
      if id == Name("phone") && !TenDigits(JsString(value)) {
        error := PhoneMessage;
      }
      if id == Name("file") && Present(value) {
        if TooLarge(value) {
          error := SizeMessage;
        }
        if !AllowedType(value) {
          error := TypeMessage;
        }
      }
      if id == Name("date") && clock.valueTime.Some? && clock.valueTime.value > clock.now {
        error := DateMessage;
      }
      if id == Name("checkbox") {
        var empty: bool;
        match value {
          case Text(s) => empty := |s| == 0;
          case Choices(items) => empty := |items| == 0;
          case Upload(_, _) => empty := true;
          case NoFile => return true;
        }
        if empty { error := CheckboxMessage; }
      }
      errors := errors[id := error];
      thrown := false;
    }

    /**
     * `handleChange(e, id, parent)` with the value taken from the event:
     * validate `id`, then store the value at the top level or under the parent.
     * A throwing rule ends the action before anything is stored.
     */
    method HandleChange(id: Id, value: Value, parent: Option<Id>, clock: Clock)
      modifies this`errors, this`formData
      ensures Validate(id, value, clock).TypeError? ==> errors == old(errors) && formData == old(formData)
      ensures Validate(id, value, clock).Message? ==>
        && errors == old(errors)[id := Validate(id, value, clock).text]
        && formData == Store(old(formData), id, value, parent)
    {
      var thrown := ValidateField(id, value, clock);
      if thrown {
        return;
      }
      formData := Store(formData, id, value, parent);
    }

    /** `shouldShowField(field)`: a field without a condition is always shown. */
    function ShouldShowField(field: Field): (r: bool)
      reads this
      ensures field.condition.None? ==> r
      ensures field.condition.Some? ==> (r <==> field.condition.value(formData))
    {
      match field.condition
      case Some(condition) => condition(formData)
      case None => true
    }

    /** A field made from the catalogue is shown whatever has been entered. */
    lemma NewFieldsShown(kind: string, id: Id)
      ensures ShouldShowField(NewField(kind, id))
    {
    }

    /** The edit button: the panel opens for `id`, replacing any other open panel. */
    method BeginEdit(id: Id)
      modifies this`editing
      ensures editing == Some(id)
    {
      editing := Some(id);
    }

    /** Save: the panel closes; the edits were already applied, so the fields stay as they are. */
    method SaveEdit()
      modifies this`editing
      ensures editing == None
    {
      editing := None;
    }

    /** Cancel: the same step as Save; nothing is reverted. */
    method CancelEdit()
      modifies this`editing
      ensures editing == None
    {
      editing := None;
    }

    /** Typing in the open panel's label input: the label is written through at once. */
    method EditLabel(id: Id, text: string)
      requires editing == Some(id)
      modifies this`fields
      ensures fields == EditAll(old(fields), id, LabelUpdate(text))
      ensures Ids(fields) == Ids(old(fields))
      ensures editing == Some(id)
    {
      EditField(id, LabelUpdate(text));
    }

    /** Typing in the open panel's options text area: the lines become the options at once. */
    method EditOptions(id: Id, text: string)
      requires editing == Some(id)
      modifies this`fields
      ensures fields == EditAll(old(fields), id, OptionsUpdate(OptionsText.Split(text, '\n')))
      ensures Ids(fields) == Ids(old(fields))
      ensures editing == Some(id)
    {
      EditField(id, OptionsUpdate(OptionsText.Split(text, '\n')));
    }

    /** `handleSubmit`: the form data is kept as it is, whatever the errors say. */
    method Submit()
      modifies this`submitted
      ensures submitted == Some(formData)
    {
      submitted := Some(formData);
    }
  }

  /** Create a text field, type "hello" into it, submit. */
  method ScenarioFlat(clock: Clock) {
    var app := new FormBuilder();
    var f1 := Stamp(1);
    app.AddField("text", f1);
    assert app.fields[0].id == f1;
    app.HandleChange(f1, Text("hello"), None, clock);
    app.Submit();
    assert app.submitted == Some(map[f1 := Leaf(Text("hello"))]);
    assert app.errors == map[f1 := ""];
  }

  /** Create a section, add a nested text field, type "x" into it, submit. */
  method ScenarioNested(clock: Clock) {
    var app := new FormBuilder();
    var s1, n1 := Stamp(1), Stamp(2);
    app.AddSection(s1);
    app.AddNestedField(s1, "text", n1);
    assert Children(app.fields[0]) == [NewField("text", n1)];
    app.HandleChange(n1, Text("x"), Some(s1), clock);
    app.Submit();
    assert app.submitted == Some(map[s1 := Group(map[n1 := Text("x")])]);
  }

  /** Edits made in the panel survive a Cancel. */
  method ScenarioCancelKeepsEdits() {
    var app := new FormBuilder();
    var f1 := Stamp(7);
    app.AddField("text", f1);
    app.BeginEdit(f1);
    app.EditLabel(f1, "Name");
    app.CancelEdit();
    assert app.editing == None;
    assert app.fields[0].labelText == Some("Name");
  }
}
