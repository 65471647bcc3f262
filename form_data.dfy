/**
 * The entered values of a form (`formData` in the App component) and the write
 * path of `handleChange`: a value goes in at the top level under the field's id,
 * or one level down, under the id of the section that holds the field.
 */
module FormDataStore {
  import opened Wrappers

  /**
   * A field identity. Generated ids are millisecond time stamps (`Date.now()`);
   * the validation rules compare ids with literal strings such as "email", so
   * string ids are a second, distinct kind: a number is never `===` to a string.
   */
  datatype Id = Stamp(ms: nat) | Name(text: string)

  /** JavaScript truthiness of an id: the number 0 and the empty string are falsy. */
  predicate Truthy(id: Id) {
    match id
    case Stamp(ms) => ms != 0
    case Name(text) => text != ""
  }

  /**
   * An entered value: an input's text, a list of strings, a selected file
   * (its size in bytes and its media type), or no file (`files[0]` undefined).
   */
  datatype Value = Text(s: string) | Choices(items: seq<string>) | Upload(size: nat, mime: string) | NoFile

  /** What is stored under a top-level key: a value, or the values of a section's children. */
  datatype Entry = Leaf(value: Value) | Group(children: map<Id, Value>)

  type FormData = map<Id, Entry>

  /** The parent a write goes under: `if (parentId)` ignores an absent or falsy parent. */
  function EffectiveParent(parent: Option<Id>): (r: Option<Id>)
    ensures r.None? <==> parent == None || parent == Some(Stamp(0)) || parent == Some(Name(""))
    ensures r == None || r == parent
  {
    if parent.Some? && Truthy(parent.value) then parent else None
  }

  /** The top-level key a write of `id` under `parent` replaces. */
  function Slot(id: Id, parent: Option<Id>): Id {
    match EffectiveParent(parent)
    case Some(p) => p
    case None => id
  }

  /** The children already stored under `p`, as `...prevFormData[parentId]` sees them. */
  function GroupAt(data: FormData, p: Id): map<Id, Value> {
    if p in data && data[p].Group? then data[p].children else map[]
  }

  /**
   * The new form data after `handleChange(e, id, parent)` writes `v`.
   * Without a parent only `id` changes; with one, only the parent's group
   * changes, and in it only the child `id`.
   */
  function Store(data: FormData, id: Id, v: Value, parent: Option<Id>): (r: FormData)
    ensures r.Keys == data.Keys + {Slot(id, parent)}
    ensures forall k :: k in data && k != Slot(id, parent) ==> r[k] == data[k]
    ensures EffectiveParent(parent).None? ==> r[id] == Leaf(v)
    ensures EffectiveParent(parent).Some? ==>
      var p := parent.value;
      && r[p].Group?
      && r[p].children.Keys == GroupAt(data, p).Keys + {id}
      && r[p].children[id] == v
      && forall c :: c in GroupAt(data, p) && c != id ==> r[p].children[c] == GroupAt(data, p)[c]
  {
    match EffectiveParent(parent)
    case Some(p) => data[p := Group(GroupAt(data, p)[id := v])]
    case None => data[id := Leaf(v)]
  }

  /** The value entered for field `id` (nested under `parent` when that is truthy), if any. */
  function Read(data: FormData, id: Id, parent: Option<Id>): Option<Value> {
    match EffectiveParent(parent)
    case Some(p) => if id in GroupAt(data, p) then Some(GroupAt(data, p)[id]) else None
    case None => if id in data && data[id].Leaf? then Some(data[id].value) else None
  }

  /** A stored value reads back. */
  lemma ReadAfterStore(data: FormData, id: Id, v: Value, parent: Option<Id>)
    ensures Read(Store(data, id, v, parent), id, parent) == Some(v)
  {
  }

  /**
   * A write leaves every other value where it was: values under other top-level
   * keys, and the section's other children.
   */
  lemma ReadOtherAfterStore(data: FormData, id: Id, v: Value, parent: Option<Id>, id': Id, parent': Option<Id>)
    requires Slot(id, parent) != Slot(id', parent')
          || (EffectiveParent(parent).Some? && EffectiveParent(parent').Some? && Slot(id, parent) == Slot(id', parent') && id != id')
    ensures Read(Store(data, id, v, parent), id', parent') == Read(data, id', parent')
  {
  }

  /** A write under a falsy parent id (0 or "") lands at the top level. */
  lemma FalsyParentIsTopLevel(data: FormData, id: Id, v: Value, p: Id)
    requires !Truthy(p)
    ensures Store(data, id, v, Some(p)) == Store(data, id, v, None)
  {
  }
}
