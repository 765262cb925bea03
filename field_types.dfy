/**
 * The field type resolver: which form-field kind a model field gets, and the
 * configuration `importField` gives the new form field.
 */
module FieldTypes {
  import opened Wrappers
  import opened Entities
  import opened Framework

  /** The default `type_associations` table: model field type => form field kind. */
  const DefaultTypeAssociations: map<string, string> := map[
    "string" := "Line",
    "text" := "Text",
    "int" := "Number",
    "numeric" := "Number",
    "money" := "Money",
    "real" := "Number",
    "date" := "DatePicker",
    "datetime" := "DatePicker",
    "daytime" := "Time",
    "boolean" := "Checkbox",
    "reference" := "Readonly",
    "reference_id" := "DropDown",
    "password" := "Password",
    "list" := "DropDown",
    "radio" := "Radio",
    "readonly" := "Readonly",
    "image" := "Image",
    "file" := "Upload"]

  /** The kind of a field whose type is not in the table. */
  const DefaultKind := "Line"

  const DropDown := "DropDown"

  /** The empty-choice label of a non-mandatory value-list field. */
  const NoValueText := "- no value -"

  /**
   * The explicit kind a `display` property asks for on a form, if it asks for
   * one: the scalar itself, or the "form" entry of a per-context array. A
   * falsy choice (or a missing "form" entry) asks for nothing.
   */
  function FormDisplay(d: Option<Display>): (r: Option<string>)
    ensures d.None? ==> r.None?
    ensures d.Some? && d.value.Kind? ==> r == if Truthy(Some(d.value.name)) then Some(d.value.name) else None
    ensures d.Some? && d.value.PerContext? && "form" in d.value.entries && Truthy(Some(d.value.entries["form"]))
      ==> r == Some(d.value.entries["form"])
    ensures d.Some? && d.value.PerContext? && !("form" in d.value.entries && Truthy(Some(d.value.entries["form"])))
      ==> r.None?
  {
    match d
    case None => None
    case Some(Kind(name)) => if Truthy(Some(name)) then Some(name) else None
    case Some(PerContext(entries)) =>
      if "form" in entries && Truthy(Some(entries["form"])) then Some(entries["form"]) else None
  }

  /** `getFieldType`: the table's kind for the field's type, unless `display` names one. */
  function FieldType(table: map<string, string>, f: FieldDescriptor): (r: string)
    ensures FormDisplay(f.display).Some? ==> r == FormDisplay(f.display).value
    ensures FormDisplay(f.display).None? && f.typeTag in table ==> r == table[f.typeTag]
    ensures FormDisplay(f.display).None? && f.typeTag !in table ==> r == DefaultKind
  {
    var tableKind := if f.typeTag in table then table[f.typeTag] else DefaultKind;
    match FormDisplay(f.display)
    case Some(kind) => kind
    case None => tableKind
  }

  /**
   * The kind `importField` finally uses: a has-one companion `#ref_<name>` or
   * an `enum` forces a drop-down, over whatever `getFieldType` chose.
   */
  function ImportKind(table: map<string, string>, m: DataModel, name: string, f: FieldDescriptor): (r: string)
    ensures HasElement(m.elements, "#ref_" + name).Some? || f.enum.Some? ==> r == DropDown
    ensures HasElement(m.elements, "#ref_" + name).None? && f.enum.None? ==> r == FieldType(table, f)
  {
    if HasElement(m.elements, "#ref_" + name).Some? || f.enum.Some? then DropDown
    else FieldType(table, f)
  }

  /** The form field `importField` adds for model field `name` whose current value is `value`. */
  function BuildWidget(table: map<string, string>, m: DataModel, name: string, f: FieldDescriptor, value: Value): (w: Widget)
    ensures w.kind == ImportKind(table, m, name, f)
    ensures w.value == value && w.caption == f.caption
    ensures w.valueList == f.enum
    ensures f.enum.Some? ==> w.kind == DropDown
    ensures w.notNull.Some? <==> Truthy(f.mandatory)
    ensures w.notNull.Some? ==> w.notNull == f.mandatory
    ensures w.emptyText.Some? ==> w.notNull.None? && w.emptyText == Some(NoValueText)
    ensures w.emptyText.Some? <==> IsValueList(w.kind) && !Truthy(f.mandatory)
    ensures (f.enum.Some? || HasElement(m.elements, "#ref_" + name).Some?) && !Truthy(f.mandatory)
      ==> w.emptyText == Some(NoValueText)
    ensures w.refModel.Some? ==> HasElement(m.elements, "#ref_" + name) == Some(Reference(w.refModel.value))
    ensures forall t :: HasElement(m.elements, "#ref_" + name) == Some(Reference(t)) ==> w.refModel == Some(t)
    ensures w.placeholder == if Truthy(f.placeholder) then f.placeholder else None
    ensures w.hint == if Truthy(f.hint) then f.hint else None
  {
    var refElem := HasElement(m.elements, "#ref_" + name);
    var kind := ImportKind(table, m, name, f);
    Widget(
      kind := kind,
      caption := f.caption,
      value := value,
      refModel := if refElem.Some? && refElem.value.Reference? then Some(refElem.value.target) else None,
      valueList := f.enum,
      notNull := if Truthy(f.mandatory) then f.mandatory else None,
      placeholder := if Truthy(f.placeholder) then f.placeholder else None,
      hint := if Truthy(f.hint) then f.hint else None,
      emptyText := if IsValueList(kind) && !Truthy(f.mandatory) then Some(NoValueText) else None)
  }

  /**
   * The configuration steps `importField` applies to a new form field, one
   * after the other: the kind (a has-one companion or an enum forces a
   * drop-down), the model field's value, the referenced model, the value
   * list, the not-null rule, placeholder, hint and, for a value-list kind
   * on a non-mandatory field, the empty-value text.
   */
  method ConfigureWidget(table: map<string, string>, m: DataModel, name: string, f: FieldDescriptor, value: Value)
    returns (widget: Widget)
    ensures widget == BuildWidget(table, m, name, f, value)
  {
    var kind := FieldType(table, f);
    var refElem := HasElement(m.elements, "#ref_" + name);
    if refElem.Some? {
      kind := DropDown;
    }
    if f.enum.Some? {
      kind := DropDown;
    }
    widget := Widget(kind, f.caption, Null, None, None, None, None, None, None);
    widget := widget.(value := value);
    if refElem.Some? && refElem.value.Reference? {
      widget := widget.(refModel := Some(refElem.value.target));
    }
    if f.enum.Some? {
      widget := widget.(valueList := f.enum);
    }
    if Truthy(f.mandatory) {
      widget := widget.(notNull := f.mandatory);
    }
    if Truthy(f.placeholder) {
      widget := widget.(placeholder := f.placeholder);
    }
    if Truthy(f.hint) {
      widget := widget.(hint := f.hint);
    }
    if IsValueList(widget.kind) && !Truthy(f.mandatory) {
      widget := widget.(emptyText := Some(NoValueText));
    }
  }
}
