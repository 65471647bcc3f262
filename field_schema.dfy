/**
 * The field-type catalogue (`fieldTypes`) and the operations on the ordered list
 * of field records (`addField`, `addNestedField`, `addSection`, `deleteField`,
 * `editField`). Each operation computes a new list with a map, a filter or an
 * append; the App component then replaces its `fields` state with it.
 */
module FieldSchema {
  import opened Wrappers
  import opened FormDataStore
  import OptionsText

  /** A visibility condition: a predicate over the whole form data. */
  type Condition = FormData -> bool

  /**
   * A field record (`labelText` is the `label` key). Every attribute but `id` is a JavaScript key that may be
   * absent: a record built from an unknown type tag holds only its `id`.
   * `fields` is the child list of a section.
   */
  datatype Field = Field(
    id: Id,
    kind: Option<string>,
    labelText: Option<string>,
    options: Option<seq<string>>,
    fields: Option<seq<Field>>,
    condition: Option<Condition>)

  /** An entry of the catalogue: the record a new field of that type starts from. */
  datatype Template = Template(kind: string, labelText: string, options: Option<seq<string>>, fields: Option<seq<Field>>)

  /** The catalogue, keyed by type tag. */
  const FieldTypes: map<string, Template> := map[
    "text" := Template("text", "Text Field", None, None),
    "dropdown" := Template("dropdown", "Dropdown", Some(["Option 1", "Option 2"]), None),
    "radio" := Template("radio", "Radio Button", Some(["Yes", "No"]), None),
    "file" := Template("file", "File Upload", None, None),
    "checkbox" := Template("checkbox", "Checkbox", Some(["Option 1", "Option 2"]), None),
    "country" := Template("country", "Country", None, None),
    "date" := Template("date", "Date Picker", None, None),
    "phone" := Template("phone", "Phone Number", None, None),
    "section" := Template("section", "Section", None, Some([]))
  ]

  /**
   * `{ ...fieldTypes[kind], id }`: the catalogue entry stamped with a fresh id.
   * Its type tag is the key it was looked up by; only dropdowns, radio buttons
   * and checkboxes carry options, only a section carries an (empty) child list,
   * and no template has a condition. An unknown tag spreads nothing, leaving a
   * record with only the id.
   */
  function NewField(kind: string, id: Id): (f: Field)
    ensures f.id == id && f.condition.None?
    ensures f.kind.Some? <==> kind in FieldTypes
    ensures f.kind.Some? ==> f.kind.value == kind && f.labelText.Some? && f.labelText.value != ""
    ensures f.kind.None? ==> f == Field(id, None, None, None, None, None)
    ensures f.options.Some? <==> kind in {"dropdown", "radio", "checkbox"}
    ensures f.options.Some? ==> |f.options.value| == 2
    ensures f.fields.Some? <==> kind == "section"
    ensures f.fields.Some? ==> f.fields.value == []
  {
    if kind in FieldTypes then
      var t := FieldTypes[kind];
      Field(id, Some(t.kind), Some(t.labelText), t.options, t.fields, None)
    else
      Field(id, None, None, None, None, None)
  }

  /** `field.fields || []`: a field's children, none when the key is absent. */
  function Children(f: Field): seq<Field> {
    f.fields.GetOr([])
  }

  /** `{ ...field, fields: [...(field.fields || []), child] }`. */
  function WithChild(f: Field, child: Field): Field {
    f.(fields := Some(Children(f) + [child]))
  }

  /**
   * The list after `addNestedField(sectionId, ...)` with the new field `child`:
   * same length; every root entry with id `sectionId`, whatever its type, gets
   * `child` appended to its children; every other entry stays as it was.
   * Children are not searched.
   */
  function NestUnder(fs: seq<Field>, sectionId: Id, child: Field): (r: seq<Field>)
    ensures |r| == |fs|
    ensures forall i :: 0 <= i < |fs| && fs[i].id == sectionId ==> r[i] == WithChild(fs[i], child)
    ensures forall i :: 0 <= i < |fs| && fs[i].id != sectionId ==> r[i] == fs[i]
  {
    if |fs| == 0 then []
    else [if fs[0].id == sectionId then WithChild(fs[0], child) else fs[0]] + NestUnder(fs[1..], sectionId, child)
  }

  /**
   * `fields.filter(field => field.id !== id)`: no entry left has the id; when no
   * root entry has it the list is unchanged.
   */
  function Without(fs: seq<Field>, id: Id): (r: seq<Field>)
    ensures |r| <= |fs|
    ensures forall i :: 0 <= i < |r| ==> r[i].id != id
    ensures (forall i :: 0 <= i < |fs| ==> fs[i].id != id) ==> r == fs
  {
    if |fs| == 0 then []
    else if fs[0].id == id then Without(fs[1..], id)
    else [fs[0]] + Without(fs[1..], id)
  }

  /**
   * Deleting keeps exactly the root entries whose id differs, each unchanged
   * (children and all).
   */
  lemma {:induction false} WithoutKeeps(fs: seq<Field>, id: Id)
    ensures forall f :: f in Without(fs, id) <==> f in fs && f.id != id
  {
    if |fs| > 0 {
      WithoutKeeps(fs[1..], id);
      assert fs == [fs[0]] + fs[1..];
    }
  }

  /** A partial record for `editField`: each present key is written over the field's. */
  datatype Update = Update(
    id: Option<Id>,
    kind: Option<string>,
    labelText: Option<string>,
    options: Option<seq<string>>,
    fields: Option<seq<Field>>,
    condition: Option<Condition>)

  /** The update the label input sends: `{ label }`. */
  function LabelUpdate(text: string): Update {
    Update(None, None, Some(text), None, None, None)
  }

  /** The update the options text area sends: `{ options }`. */
  function OptionsUpdate(options: seq<string>): Update {
    Update(None, None, None, Some(options), None, None)
  }

  /** A present incoming key wins over the current one; an absent one keeps it. */
  function Over<T>(incoming: Option<T>, current: Option<T>): Option<T> {
    if incoming.Some? then incoming else current
  }

  /** `{ ...field, ...updates }`: a shallow merge. */
  function Merge(f: Field, u: Update): Field {
    Field(
      u.id.GetOr(f.id),
      Over(u.kind, f.kind),
      Over(u.labelText, f.labelText),
      Over(u.options, f.options),
      Over(u.fields, f.fields),
      Over(u.condition, f.condition))
  }

  /** `{ ...u, ...v }`: two updates as one, the later winning. */
  function Combine(u: Update, v: Update): Update {
    Update(
      Over(v.id, u.id),
      Over(v.kind, u.kind),
      Over(v.labelText, u.labelText),
      Over(v.options, u.options),
      Over(v.fields, u.fields),
      Over(v.condition, u.condition))
  }

  /**
   * The list after `editField(id, u)`: same length; every root entry with that
   * id is merged with `u`, every other entry (and every child) is unchanged.
   */
  function EditAll(fs: seq<Field>, id: Id, u: Update): (r: seq<Field>)
    ensures |r| == |fs|
    ensures forall i :: 0 <= i < |fs| && fs[i].id == id ==> r[i] == Merge(fs[i], u)
    ensures forall i :: 0 <= i < |fs| && fs[i].id != id ==> r[i] == fs[i]
    ensures u.fields.None? ==> forall i :: 0 <= i < |fs| ==> Children(r[i]) == Children(fs[i])
  {
    if |fs| == 0 then []
    else [if fs[0].id == id then Merge(fs[0], u) else fs[0]] + EditAll(fs[1..], id, u)
  }

  // ----- the list operations as the list changes -----

  /** Filtering distributes over concatenation: the kept entries keep their relative order. */
  lemma {:induction false} WithoutConcat(a: seq<Field>, b: seq<Field>, id: Id)
    ensures Without(a + b, id) == Without(a, id) + Without(b, id)
  {
    if |a| == 0 {
      assert a + b == b;
    } else {
      assert (a + b)[0] == a[0];
      assert (a + b)[1..] == a[1..] + b;
      WithoutConcat(a[1..], b, id);
    }
  }

  /** Deleting the id of exactly one root entry removes that entry and nothing else. */
  lemma {:induction false} WithoutTheOne(fs: seq<Field>, k: nat, id: Id)
    requires k < |fs| && fs[k].id == id
    requires forall j :: 0 <= j < |fs| && j != k ==> fs[j].id != id
    ensures Without(fs, id) == fs[..k] + fs[k + 1..]
  {
    var rest := fs[1..];
    if k == 0 {
      assert forall j :: 0 <= j < |rest| ==> rest[j].id == fs[j + 1].id;
    } else {
      assert forall j :: 0 <= j < |rest| && j != k - 1 ==> rest[j].id == fs[j + 1].id;
      WithoutTheOne(rest, k - 1, id);
      assert fs[..k] == [fs[0]] + rest[..k - 1];
      assert fs[k + 1..] == rest[k..];
    }
  }

  /** Two edits of the same entry are one edit with the merged update, unless the first renames it. */
  lemma EditTwice(fs: seq<Field>, id: Id, u: Update, v: Update)
    requires u.id.None? || u.id == Some(id)
    ensures EditAll(EditAll(fs, id, u), id, v) == EditAll(fs, id, Combine(u, v))
  {
  }

  /** Repeating an edit changes nothing more. */
  lemma EditIdempotent(fs: seq<Field>, id: Id, u: Update)
    requires u.id.None? || u.id == Some(id)
    ensures EditAll(EditAll(fs, id, u), id, u) == EditAll(fs, id, u)
  {
  }

  /**
   * An id no root entry has, such as a nested field's, edits nothing: the edit
   * panel of a nested field leaves the list as it was.
   */
  lemma EditAbsent(fs: seq<Field>, id: Id, u: Update)
    requires forall i :: 0 <= i < |fs| ==> fs[i].id != id
    ensures EditAll(fs, id, u) == fs
  {
  }

  /** Editing the label changes the label and no other key. */
  lemma EditLabelOnly(f: Field, text: string)
    ensures Merge(f, LabelUpdate(text)) == f.(labelText := Some(text))
  {
  }

  /**
   * The options editor is lossless: writing back the joined text unchanged
   * leaves the field as it was, when it has at least one option and no option
   * holds a newline.
   */
  lemma OptionsRoundTrip(f: Field)
    requires f.options.Some? && |f.options.value| >= 1
    requires forall k :: 0 <= k < |f.options.value| ==> '\n' !in f.options.value[k]
    ensures Merge(f, OptionsUpdate(OptionsText.Split(OptionsText.Join(f.options.value, "\n"), '\n'))) == f
  {
    OptionsText.SplitJoin(f.options.value, '\n');
  }

  // ----- identity: every id in the tree is unique -----

  /** The ids of a list of fields, in order. */
  function IdsOf(cs: seq<Field>): seq<Id>
  {
    seq(|cs|, i requires 0 <= i < |cs| => cs[i].id)
  }

  /** The ids of the tree, root by root, each root followed by its children's ids. */
  function Ids(fs: seq<Field>): seq<Id> {
    if |fs| == 0 then [] else [fs[0].id] + IdsOf(Children(fs[0])) + Ids(fs[1..])
  }

  ghost predicate Distinct(s: seq<Id>) {
    forall i, j :: 0 <= i < j < |s| ==> s[i] != s[j]
  }

  /** Every id is unique among roots and children together. */
  ghost predicate UniqueIds(fs: seq<Field>) {
    Distinct(Ids(fs))
  }

  lemma {:induction false} IdsConcat(a: seq<Field>, b: seq<Field>)
    ensures Ids(a + b) == Ids(a) + Ids(b)
  {
    if |a| == 0 {
      assert a + b == b;
    } else {
      assert (a + b)[0] == a[0];
      assert (a + b)[1..] == a[1..] + b;
      IdsConcat(a[1..], b);
    }
  }

  lemma DistinctConcat(a: seq<Id>, b: seq<Id>)
    ensures Distinct(a + b) <==> Distinct(a) && Distinct(b) && forall x :: x in a ==> x !in b
  {
    var s := a + b;
    if Distinct(s) {
      forall i, j | 0 <= i < j < |a| ensures a[i] != a[j] { assert s[i] == a[i] && s[j] == a[j]; }
      forall i, j | 0 <= i < j < |b| ensures b[i] != b[j] { assert s[|a| + i] == b[i] && s[|a| + j] == b[j]; }
      forall i, j | 0 <= i < |a| && 0 <= j < |b| ensures a[i] != b[j] { assert s[i] == a[i] && s[|a| + j] == b[j]; }
    }
    if Distinct(a) && Distinct(b) && forall x :: x in a ==> x !in b {
      forall i, j | 0 <= i < j < |s| ensures s[i] != s[j] {
        if j < |a| {
          assert s[i] == a[i] && s[j] == a[j];
        } else if i >= |a| {
          assert s[i] == b[i - |a|] && s[j] == b[j - |a|];
        } else {
          assert s[i] == a[i] && s[i] in a && s[j] == b[j - |a|] && s[j] in b;
        }
      }
    }
  }

  /** A new root field with an id not yet in the tree keeps every id unique. */
  lemma AddKeepsUnique(fs: seq<Field>, kind: string, id: Id)
    requires UniqueIds(fs) && id !in Ids(fs)
    ensures UniqueIds(fs + [NewField(kind, id)])
  {
    var nf := NewField(kind, id);
    IdsConcat(fs, [nf]);
    assert Ids([nf]) == [id] by {
      assert IdsOf(Children(nf)) == [];
      assert [nf][1..] == [];
    }
    DistinctConcat(Ids(fs), [id]);
  }

  /** The ids left after deleting are among the ids before. */
  lemma {:induction false} WithoutIds(fs: seq<Field>, id: Id)
    ensures forall x :: x in Ids(Without(fs, id)) ==> x in Ids(fs)
    ensures UniqueIds(fs) ==> UniqueIds(Without(fs, id))
  {
    if |fs| > 0 {
      var f, rest := fs[0], fs[1..];
      var head := [f.id] + IdsOf(Children(f));
      WithoutIds(rest, id);
      assert Ids(fs) == head + Ids(rest);
      DistinctConcat(head, Ids(rest));
      if f.id != id {
        assert Without(fs, id) == [f] + Without(rest, id);
        assert Ids(Without(fs, id)) == head + Ids(Without(rest, id)) by {
          assert ([f] + Without(rest, id))[0] == f;
          assert ([f] + Without(rest, id))[1..] == Without(rest, id);
        }
        DistinctConcat(head, Ids(Without(rest, id)));
      }
    }
  }

  /** Deleting keeps every id unique. */
  lemma DeleteKeepsUnique(fs: seq<Field>, id: Id)
    requires UniqueIds(fs)
    ensures UniqueIds(Without(fs, id))
  {
    WithoutIds(fs, id);
  }

  /** Editing neither the id nor the children leaves the tree's ids as they were. */
  lemma {:induction false} EditKeepsIds(fs: seq<Field>, id: Id, u: Update)
    requires u.id.None? && u.fields.None?
    ensures Ids(EditAll(fs, id, u)) == Ids(fs)
  {
    if |fs| > 0 {
      var r := EditAll(fs, id, u);
      EditKeepsIds(fs[1..], id, u);
      assert r[1..] == EditAll(fs[1..], id, u);
      assert r[0].id == fs[0].id && Children(r[0]) == Children(fs[0]);
    }
  }

  /** When no root entry has the id, adding a nested field changes nothing. */
  lemma NestUnderAbsent(fs: seq<Field>, sectionId: Id, child: Field)
    requires forall i :: 0 <= i < |fs| ==> fs[i].id != sectionId
    ensures NestUnder(fs, sectionId, child) == fs
  {
  }

  /** Every root id is among the tree's ids. */
  lemma {:induction false} RootIdsInIds(fs: seq<Field>, i: nat)
    requires i < |fs|
    ensures fs[i].id in Ids(fs)
  {
    if i > 0 {
      RootIdsInIds(fs[1..], i - 1);
    }
  }

  /**
   * Nesting a field whose id is not yet in the tree keeps every id unique; the
   * new field's own children, if any, sit below the level the ids cover.
   */
  lemma {:induction false} NestKeepsUnique(fs: seq<Field>, sectionId: Id, child: Field)
    requires UniqueIds(fs) && child.id !in Ids(fs)
    ensures UniqueIds(NestUnder(fs, sectionId, child))
    ensures forall x :: x in Ids(NestUnder(fs, sectionId, child)) ==> x in Ids(fs) || x == child.id
  {
    if |fs| > 0 {
      var f, rest := fs[0], fs[1..];
      var kids := IdsOf(Children(f));
      var head := [f.id] + kids;
      var r := NestUnder(fs, sectionId, child);
      assert r[1..] == NestUnder(rest, sectionId, child);
      assert Ids(fs) == head + Ids(rest);
      DistinctConcat(head, Ids(rest));
      assert Ids(r) == [r[0].id] + IdsOf(Children(r[0])) + Ids(r[1..]);
      if f.id == sectionId {
        forall i | 0 <= i < |rest| ensures rest[i].id != sectionId {
          RootIdsInIds(rest, i);
        }
        NestUnderAbsent(rest, sectionId, child);
        var head' := [f.id] + kids + [child.id];
        assert IdsOf(Children(r[0])) == kids + [child.id];
        assert Ids(r) == head' + Ids(rest);
        DistinctConcat([f.id] + kids, [child.id]);
        DistinctConcat(head', Ids(rest));
      } else {
        NestKeepsUnique(rest, sectionId, child);
        assert Ids(r) == head + Ids(r[1..]);
        DistinctConcat(head, Ids(r[1..]));
      }
    }
  }
}
