/**
 * The entities the form binding reads and writes: values, field descriptors
 * of a data model, the model's elements, form widgets, and the field
 * selector accepted by `importFields`. Also the queries the binding makes on
 * a model's element list.
 */
module Entities {
  import opened Wrappers

  /** A model field's or form field's current value. */
  datatype Value = Null | Str(s: string) | Num(n: int)

  /** PHP truthiness of an optional string property: unset (null), "" and "0" are false. */
  predicate Truthy(s: Option<string>)
  {
    s.Some? && s.value != "" && s.value != "0"
  }

  /** A field's `display` property: one form-field kind, or one kind per rendering context. */
  datatype Display = Kind(name: string) | PerContext(entries: map<string, string>)

  /**
   * The properties of a data-model field the binding looks at. An unset
   * property is `None`; the `type` tag of a field whose type is null is ""
   * (the key PHP uses for a null array index).
   */
  datatype FieldDescriptor = FieldDescriptor(
    typeTag: string,
    editable: bool,
    caption: Option<string>,
    display: Option<Display>,
    enum: Option<seq<string>>,
    mandatory: Option<string>,
    placeholder: Option<string>,
    hint: Option<string>)

  /** An element of a model: a field, a has-one reference (`#ref_<field>`) naming its target model, or anything else. */
  datatype Element = FieldElem(field: FieldDescriptor) | Reference(target: string) | OtherElem

  /** A model object: its identity and its `name` property. */
  datatype ModelRef = ModelRef(id: nat, name: string)

  /** A data model as the binding sees it: identity, elements in declaration order, `only_fields`. */
  datatype DataModel = DataModel(ref: ModelRef, elements: seq<(string, Element)>, onlyFields: seq<string>)

  /** A model field: the model that owns it and the field's short name. */
  datatype FieldRef = FieldRef(owner: ModelRef, field: string)

  /**
   * The `$fields` argument of `importFields`: `false`, `UNDEFINED` (or null),
   * a single field name, or a list of field names.
   */
  datatype Selector = NoFields | Default | One(name: string) | Many(names: seq<string>)

  /** A form field and the configuration the binding gives it. */
  datatype Widget = Widget(
    kind: string,
    caption: Option<string>,
    value: Value,
    refModel: Option<string>,
    valueList: Option<seq<string>>,
    notNull: Option<string>,
    placeholder: Option<string>,
    hint: Option<string>,
    emptyText: Option<string>)

  /**
   * `$model->hasElement($name)`: the element stored under `name`, if any. A
   * PHP array holds one element per key; of several entries with the same
   * name the first one is taken.
   */
  function HasElement(elements: seq<(string, Element)>, name: string): (r: Option<Element>)
    ensures r.Some? ==> exists i :: 0 <= i < |elements| && elements[i] == (name, r.value)
                                   && forall j :: 0 <= j < i ==> elements[j].0 != name
    ensures r.None? ==> forall i :: 0 <= i < |elements| ==> elements[i].0 != name
  {
    if elements == [] then None
    else if elements[0].0 == name then Some(elements[0].1)
    else
      var r := HasElement(elements[1..], name);
      if r.Some? then
        var i :| 0 <= i < |elements[1..]| && elements[1..][i] == (name, r.value)
                 && forall j :: 0 <= j < i ==> elements[1..][j].0 != name;
        assert elements[i + 1] == (name, r.value);
        assert forall j :: 0 <= j < i + 1 ==> elements[j].0 != name by {
          forall j | 0 <= j < i + 1 ensures elements[j].0 != name {
            if j > 0 { assert elements[j] == elements[1..][j - 1]; }
          }
        }
        r
      else r
  }

  /**
   * The field `importField` accepts under `name`: present, a Field element
   * and editable. Anything else (absent, a reference, a read-only field) is
   * skipped.
   */
  function EditableField(m: DataModel, name: string): (r: Option<FieldDescriptor>)
    ensures r.Some? ==> HasElement(m.elements, name) == Some(FieldElem(r.value)) && r.value.editable
    ensures r.None? ==> HasElement(m.elements, name).None?
                        || !HasElement(m.elements, name).value.FieldElem?
                        || !HasElement(m.elements, name).value.field.editable
  {
    match HasElement(m.elements, name)
    case Some(FieldElem(f)) => if f.editable then Some(f) else None
    case _ => None
  }

  /** The names among `names` that `importField` does not skip, in order. */
  function EditableNames(m: DataModel, names: seq<string>): (r: seq<string>)
    ensures forall n :: n in r <==> n in names && EditableField(m, n).Some?
    ensures |r| <= |names|
    decreases |names|
  {
    if names == [] then []
    else
      var n := |names| - 1;
      assert names == names[..n] + [names[n]];
      EditableNames(m, names[..n]) + if EditableField(m, names[n]).Some? then [names[n]] else []
  }

  /** Filtering a concatenation concatenates the filtered parts, so the kept names stay in order. */
  lemma {:induction false} EditableNamesAppend(m: DataModel, a: seq<string>, b: seq<string>)
    ensures EditableNames(m, a + b) == EditableNames(m, a) + EditableNames(m, b)
    decreases |b|
  {
    if b == [] {
      assert a + b == a;
    } else {
      var n := |b| - 1;
      assert (a + b)[..|a + b| - 1] == a + b[..n];
      EditableNamesAppend(m, a, b[..n]);
    }
  }

  /** One name is kept exactly when `importField` accepts it. */
  lemma EditableNamesOne(m: DataModel, n: string)
    ensures EditableNames(m, [n]) == if EditableField(m, n).Some? then [n] else []
  {
    assert [n][..0] == [];
  }

  /** Taking one more name keeps it exactly when `importField` accepts it. */
  lemma EditableNamesSnoc(m: DataModel, names: seq<string>, i: nat)
    requires i < |names|
    ensures EditableNames(m, names[..i + 1])
            == EditableNames(m, names[..i]) + if EditableField(m, names[i]).Some? then [names[i]] else []
  {
    assert names[..i + 1] == names[..i] + [names[i]];
    EditableNamesAppend(m, names[..i], [names[i]]);
    EditableNamesOne(m, names[i]);
  }

  /** The names of all Field elements of a model, in element order. */
  function FieldNames(elements: seq<(string, Element)>): seq<string>
  {
    if elements == [] then []
    else (if elements[0].1.FieldElem? then [elements[0].0] else []) + FieldNames(elements[1..])
  }

  lemma {:induction false} FieldNamesAreFieldElements(elements: seq<(string, Element)>)
    ensures forall n :: n in FieldNames(elements) <==>
      exists i :: 0 <= i < |elements| && elements[i].0 == n && elements[i].1.FieldElem?
  {
    if elements != [] {
      var rest := elements[1..];
      FieldNamesAreFieldElements(rest);
      forall n | n in FieldNames(elements)
        ensures exists i :: 0 <= i < |elements| && elements[i].0 == n && elements[i].1.FieldElem?
      {
        if elements[0].1.FieldElem? && n == elements[0].0 {
          assert elements[0].0 == n;
        } else {
          assert n in FieldNames(rest);
          var i :| 0 <= i < |rest| && rest[i].0 == n && rest[i].1.FieldElem?;
          assert elements[i + 1] == rest[i];
        }
      }
      forall n | exists i :: 0 <= i < |elements| && elements[i].0 == n && elements[i].1.FieldElem?
        ensures n in FieldNames(elements)
      {
        var i :| 0 <= i < |elements| && elements[i].0 == n && elements[i].1.FieldElem?;
        if i > 0 {
          assert rest[i - 1] == elements[i];
        }
      }
    }
  }

  lemma {:induction false} FieldNamesInOrder(a: seq<(string, Element)>, b: seq<(string, Element)>)
    ensures FieldNames(a + b) == FieldNames(a) + FieldNames(b)
  {
    if a != [] {
      assert (a + b)[1..] == a[1..] + b;
      FieldNamesInOrder(a[1..], b);
    } else {
      assert a + b == b;
    }
  }

  /** `!$fields || $fields === UNDEFINED`: the selectors that fall back to the model's own list. */
  predicate SelectsDefault(sel: Selector)
  {
    sel.Default? || (sel.One? && !Truthy(Some(sel.name))) || (sel.Many? && sel.names == [])
  }

  /** The list of field names `importFields` imports, in import order. */
  function SelectedNames(m: DataModel, sel: Selector): (r: seq<string>)
    requires !sel.NoFields?
    ensures !SelectsDefault(sel) && sel.One? ==> r == [sel.name]
    ensures !SelectsDefault(sel) && sel.Many? ==> r == sel.names
    ensures SelectsDefault(sel) && m.onlyFields != [] ==> r == m.onlyFields
    ensures SelectsDefault(sel) && m.onlyFields == [] ==> r == FieldNames(m.elements)
  {
    if SelectsDefault(sel) then
      if m.onlyFields != [] then m.onlyFields else FieldNames(m.elements)
    else if sel.One? then [sel.name]
    else sel.names
  }

  /** With no explicit selector and no `only_fields`, exactly the model's Field elements are selected. */
  lemma DefaultSelectsAllFields(m: DataModel, sel: Selector)
    requires SelectsDefault(sel) && m.onlyFields == []
    ensures forall n :: n in SelectedNames(m, sel) <==>
      exists i :: 0 <= i < |m.elements| && m.elements[i].0 == n && m.elements[i].1.FieldElem?
  {
    FieldNamesAreFieldElements(m.elements);
  }
}
