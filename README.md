# ADForm: binding a form to data models

This project models `Controller_ADForm`, the controller that binds an
administrative form to one or more Agile Data models, and proves properties
of the model. The controller does four things:

- **Field type resolution** (`getFieldType`): which form-field kind a model
  field gets. It starts from the `type_associations` table, falls back to
  `Line`, and lets a truthy `display` property (its `form` entry, when it is
  an array) override the table.
- **Field import** (`importFields`, `importField`, `setActualFields`): picks
  the fields to import from the field selector. That is `false`, nothing, one
  name or a list; with nothing it uses the model's `only_fields` or else all
  its Field elements. It skips fields that are absent or not editable, picks a
  form-field name no other form element uses, and records the association
  form field => model field. It then adds and configures the form field:
  - a drop-down for a has-one companion `#ref_<name>` or an `enum`;
  - the referenced model, the value list, the not-null rule, the placeholder
    and the hint;
  - "- no value -" as the empty choice of a non-mandatory value-list field.

  It registers the form's `update` hook and the model's `afterLoad` hook
  once.
- **Load sync** (`setFields`): copies every associated model field's value
  into its form field.
- **Commit** (`getFields`, `update`): writes every form value into its model
  field, collects the owning models keyed by model name (the first model seen
  under a name is kept), then calls `save()` on each of them in order. A
  failing save propagates, and the earlier writes and saves stay done.

Modules:

| module | file | contents |
|---|---|---|
| `Wrappers` | `wrappers.dfy` | `Option` |
| `Entities` | `entities.dfy` | values, field descriptors, model elements, widgets, the selector, and the model queries `hasElement`, editable-field lookup and field selection |
| `Framework` | `framework.dfy` | stand-ins for the framework's unique-name helper and the value-list form-field family |
| `FieldTypes` | `field_types.dfy` | the resolver and the widget `importField` builds |
| `Sync` | `sync.dfy` | load sync and commit as functions of the association table, and their properties |
| `ADForm` | `adform.dfy` | class `Controller` |

The state of `Controller`:

- `fieldAssociations` is `field_associations`. `assocOrder` keeps its PHP key
  order.
- `hookSet` is `_hook_set`.
- `elements` and `widgets` are the form's element names and the fields the
  controller added.
- `store` holds the models' field values.
- `log` is the trace of field writes and `save()` calls the commit makes.
- The framework's events are the methods `FormUpdate` (the form's `update`)
  and `ModelLoaded` (a model's `afterLoad`). Each runs the handler only when
  `importFields` registered it.

## Model

| member | source | states |
|---|---|---|
| Entities.HasElement | lib/Controller/ADForm.php:159 | the element found is the first one stored under that name (as a PHP array holds one element per key); none is returned only when no element has that name |
| Entities.EditableField | lib/Controller/ADForm.php:159-162 | a field is accepted exactly when it is present, is a Field element and is editable; otherwise `importField` skips it |
| Entities.FieldNamesAreFieldElements | lib/Controller/ADForm.php:122-127 | a name is collected iff some element under that name is a Field element |
| Entities.FieldNamesInOrder | lib/Controller/ADForm.php:122-127 | the collected names follow element order (collecting over a concatenation concatenates) |
| Entities.EditableNames | lib/Controller/ADForm.php:159-162 | a name is kept iff it is among the given names and `importField` does not skip it |
| Entities.EditableNamesAppend | lib/Controller/ADForm.php:135-137 | filtering a concatenation concatenates the filtered parts, so the kept names stay in the given order, once per occurrence |
| Entities.EditableNamesOne | lib/Controller/ADForm.php:159-162 | a single name is kept exactly when `importField` accepts it |
| Entities.SelectedNames | lib/Controller/ADForm.php:116-134 | a single truthy name selects just that name; a non-empty list selects the list in order; an empty selector selects `only_fields` when it is set, and otherwise the model's Field elements in element order (`FieldNames`) |
| Entities.DefaultSelectsAllFields | lib/Controller/ADForm.php:116-129 | with an empty selector and no `only_fields`, the selected names are exactly the model's Field elements |
| Framework.UniqueName | lib/Controller/ADForm.php:165-167 | the form-field name is used by no existing element, is the desired name itself when that is free, and starts with the desired name |
| FieldTypes.FormDisplay | lib/Controller/ADForm.php:282-290 | no `display` asks for nothing; a scalar `display` asks for itself when truthy and for nothing when falsy; an array `display` asks for its `form` entry when that entry exists and is truthy, and for nothing otherwise |
| FieldTypes.FieldType | lib/Controller/ADForm.php:271-293 | a truthy `display` wins; otherwise the table's kind for the field's type; otherwise `Line` |
| FieldTypes.ImportKind | lib/Controller/ADForm.php:168-181 | a has-one companion or an `enum` makes the field a drop-down over any `display`; otherwise the resolver's kind |
| FieldTypes.BuildWidget | lib/Controller/ADForm.php:168-221 | the form field has the import kind, the caption and the model field's value; the value list is the `enum` and is set only for an `enum` field, which always gets a drop-down; not-null is set iff `mandatory` is truthy, with its message; placeholder and hint are set exactly when truthy, to their values; the "- no value -" empty choice is set iff the final kind is a value-list kind and `mandatory` is falsy, so always for a non-mandatory enum or has-one field; the referenced model is set iff the `#ref_` companion is a reference, and is that reference's model |
| FieldTypes.ConfigureWidget | lib/Controller/ADForm.php:168-221 | the step-by-step configuration `importField` applies yields exactly `BuildWidget` |
| Sync.Put | lib/Controller/ADForm.php:253 | a field write changes that model field and no other |
| Sync.LoadSyncedSpec | lib/Controller/ADForm.php:230-235 | after `setFields` each associated form field holds its model field's value with its configuration kept; other form fields are unchanged and none is added |
| Sync.LastWriter | lib/Controller/ADForm.php:250-253 | finds the form field associated with that model field that comes last in association order (no later association targets it), or reports that none is associated with it |
| Sync.WrittenBackSpec | lib/Controller/ADForm.php:250-253 | after the write phase each model field holds the value of the last form field associated with it; fields no form field is associated with keep their value |
| Sync.WriteEventsSpec | lib/Controller/ADForm.php:250-253 | there is one write per association, in association order, each writing the form value into the associated model field |
| Sync.OwnersSpec | lib/Controller/ADForm.php:252 | the i-th owner is the model owning the i-th association's model field |
| Sync.FirstByNameDistinct | lib/Controller/ADForm.php:254-256 | the collected models have pairwise different names and are all owners |
| Sync.FirstByNameCovers | lib/Controller/ADForm.php:254-256 | every owner's name is among the collected models |
| Sync.FirstByNameKeepsFirstOccurrences | lib/Controller/ADForm.php:254-256 | a model is collected iff it is the first owner seen with its name |
| Sync.SaveAll | lib/Controller/ADForm.php:303-305 | one `save()` per collected model, in order |
| Sync.SaveAllOnce | lib/Controller/ADForm.php:303-305 | saving distinct models saves each of them once and nothing else |
| Sync.CommitSavesCollectedOnce | lib/Controller/ADForm.php:300-306 | a commit saves each collected model exactly once and no other model |
| Sync.CommitCoversOwners | lib/Controller/ADForm.php:250-256 | every model owning an associated field is represented by name among the saved models |
| Sync.CommitSavesUniqueOwnerOnce | lib/Controller/ADForm.php:300-306 | a model whose name no other associated owner shares is saved exactly once, however many fields it contributed |
| Sync.CommitWritesBeforeSaves | lib/Controller/ADForm.php:300-306 | every field write of a commit comes before every save |
| Sync.LoadThenCommitKeepsStore | lib/Controller/ADForm.php:230-260 | loading and then committing an unedited form leaves every model field as it was |
| Sync.CommitThenLoadKeepsForm | lib/Controller/ADForm.php:230-260 | committing and then reloading gives each form field back its value, as long as no two form fields share a model field |
| ADForm.KeyOrderInsert | lib/Controller/ADForm.php:171 | assigning an array key keeps the key order: a new key goes last, an existing key keeps its place |
| ADForm.WriteBackAll | lib/Controller/ADForm.php:244-257 | the loop of `getFields` writes back exactly `WrittenBack`, emits exactly `WriteEvents`, and returns exactly the first model per name (`FirstByName`) |
| ADForm.Controller.constructor | lib/Controller/ADForm.php:22-83 | a new controller has no model, no associations, the default type table, no hooks set and an unchanged form |
| ADForm.Controller.SetActualFields | lib/Controller/ADForm.php:90-94 | `importFields` on the form's own model, with all of its guarantees: `false` changes nothing but the current model; otherwise `ImportedNames` and `FreshKeys` hold for the selected names (see `ImportFields`) and the hooks are registered once |
| ADForm.Controller.ImportFields | lib/Controller/ADForm.php:107-147 | the model becomes current; `false` changes nothing else; otherwise `ImportedNames` holds: earlier associations and form fields are kept; one key per editable selected field is appended to the key order, in selector order, associated with that field; the form's elements grow by exactly those keys, at the end; no form field is added except the new associations' ones, each as `BuildWidget` configures it; every editable selected field is covered; each new form field's name extends its model field's name and is the name of no element the form had before (`FreshKeys`); and the two hooks are registered for this model only if no hook was set before |
| ADForm.Controller.ImportNames | lib/Controller/ADForm.php:135-137 | importing the names in order does what `ImportedNames` says: one key per editable name appended in the order of the names, exactly those elements and form fields added, each form field `BuildWidget`'s, nothing earlier changed; every new form-field name extends its field's name and clashes with no earlier element (`FreshKeys`) |
| ADForm.ImportAddsOnlyAssociated | lib/Controller/ADForm.php:135-184 | after an import the form fields are exactly the earlier ones plus those of the new associations |
| ADForm.ImportedElementsFresh | lib/Controller/ADForm.php:165-167 | after an import no element the form gained repeats the name of an element it had before |
| ADForm.KeyOrderDistinct | lib/Controller/ADForm.php:171 | the key order of the associations lists each key once, as a PHP array's keys are unique |
| ADForm.Controller.RegisterHooks | lib/Controller/ADForm.php:139-145 | the form's `update` hook and the model's `afterLoad` hook are registered only if no hook was set, and the hooks are set afterwards |
| ADForm.Controller.ImportField | lib/Controller/ADForm.php:157-224 | a missing or read-only field changes nothing and returns none; otherwise the association is recorded under the given name (or a fresh one) and the form field added is `BuildWidget`'s |
| ADForm.Controller.Bind | lib/Controller/ADForm.php:171-184 | records the association and adds the form field, keeping association key order and the element list |
| ADForm.Controller.SetFields | lib/Controller/ADForm.php:230-235 | every associated form field takes its model field's current value; the set of form fields is unchanged |
| ADForm.Controller.GetFields | lib/Controller/ADForm.php:242-260 | the models become `WrittenBack`, the writes are appended to the trace in association order, and the result is the first model per name |
| ADForm.Controller.SaveModels | lib/Controller/ADForm.php:303-305 | saves run in order; the outcome is `Ok` iff no model fails, and otherwise names the first failing model, with exactly the saves up to and including it done |
| ADForm.Controller.Update | lib/Controller/ADForm.php:300-306 | the commit writes the form back, and then either saves every collected model once (the trace is `CommitTrace`) or stops at the first failing save, propagating it |
| ADForm.Controller.FormUpdate | lib/Controller/ADForm.php:140-141 | the form's update event does nothing unless the update hook is registered; otherwise it is `Update`: the writes, then either the whole `CommitTrace` or the saves up to and including the first failing model, which is reported |
| ADForm.Controller.ModelLoaded | lib/Controller/ADForm.php:142 | a load re-seeds the form only for the model the `afterLoad` hook was registered on |

## Left out

- `lib/Api/Admin.php` and `lib/Layout/Fluid.php` are not part of this model. They are page and add-on glue around the binding.
- The `instanceof` check in `init` (ADForm.php:80-82) is enforced by typing: the constructor takes a `DataModel`.
- Rendering, the form's own validation, and what `validateNotNULL`, `setAttr`, `setFieldHint`, `setModel`, `setValueList` and `setEmptyText` do inside the form: the model records only the configuration they receive.
- Framework.UniqueName: `_unique`'s actual suffix scheme lives in the framework, outside this model. The stand-in appends `_` until the name is free. The model relies only on the result being unused and derived from the desired name.
- Framework.IsValueList: the `Form_Field_ValueList` class hierarchy is represented by the fixed set `DropDown`, `Radio`, `CheckboxList`.
- FieldTypes.BuildWidget: a `#ref_` companion that is not a has-one reference still forces a drop-down, but the model gives it no referenced model. In PHP, `getModel()` is called on whatever that element is.
- `Field::set` normalisation and type casting, and `Form::set`/`Form::get` conversions: values pass through unchanged.
- `display`, `mandatory`, `placeholder` and `hint` are modelled as strings. Non-string values (arrays other than `display`'s, booleans, numbers) are not modelled.
- `addField` under a name that already exists: the model replaces the form field in place and keeps the element list.
- The `$this->form` property (set at ADForm.php:110): the model uses the owning form directly.
- Hook firing: `FormUpdate` and `ModelLoaded` stand in for the framework's event dispatch. Exceptions other than a failing `save()` are not modelled.
- `save()` failures are a parameter of `Update`: the set of models whose save throws.
- Three behaviours of the code that the model follows:
  - The hooks are registered after any `importFields` call whose selector is not `false`, even when no field was imported.
  - A has-one companion or an `enum` wins over `display`, because `importField` overrides the resolver's choice afterwards.
  - `afterLoad` is registered only on the model passed to the first `importFields` that sets the hooks.
- Models are collected for saving by `name`, not by identity, so a second model object with the same name is written to but not saved (`Sync.CommitSavesUniqueOwnerOnce` states the case where names are unique).
