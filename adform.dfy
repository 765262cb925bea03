/**
 * The controller that binds a form to one or more data models: imports
 * model fields as form fields, records which form field mirrors which model
 * field, copies model values into the form after a load, and on a form
 * update writes the form values back and saves every model involved once.
 *
 * The framework's hooks are explicit methods here: `ModelLoaded` is the
 * model's `afterLoad` event and `FormUpdate` the form's `update` event; each
 * runs the controller's handler only if `importFields` registered it.
 */
module ADForm {
  import opened Wrappers
  import opened Entities
  import opened Framework
  import opened FieldTypes
  import opened Sync

  /** A hook the controller registered: on the form's update, or on a model's load. */
  datatype Hook = OnFormUpdate | OnAfterLoad(model: ModelRef)

  /** How a commit ended: every save returned, or a model's save failed (the failure propagates). */
  datatype Outcome = Ok | SaveFailed(model: ModelRef)

  /** `order` lists the keys of `assoc`, each once (a PHP array's key order). */
  ghost predicate KeyOrder(order: seq<string>, assoc: map<string, FieldRef>)
  {
    |order| == |assoc| && forall k :: k in order <==> k in assoc
  }

  /** Assigning `assoc[key]` keeps the key order: a new key goes last, an existing one keeps its place. */
  lemma KeyOrderInsert(order: seq<string>, assoc: map<string, FieldRef>, key: string, ref: FieldRef)
    requires KeyOrder(order, assoc)
    ensures KeyOrder(if key in assoc then order else order + [key], assoc[key := ref])
  {
    if key !in assoc {
      assert |assoc[key := ref]| == |assoc| + 1;
    } else {
      assert assoc[key := ref].Keys == assoc.Keys;
    }
  }

  /** A sequence has at most as many distinct entries as it is long. */
  lemma {:induction false} DistinctAtMostLength(s: seq<string>)
    ensures |set x | x in s| <= |s|
  {
    if s != [] {
      DistinctAtMostLength(s[1..]);
      assert (set x | x in s) == (set x | x in s[1..]) + {s[0]};
    }
  }

  /** A key order lists each key once. */
  lemma KeyOrderDistinct(order: seq<string>, assoc: map<string, FieldRef>, p: int, q: int)
    requires KeyOrder(order, assoc) && 0 <= p < q < |order|
    ensures order[p] != order[q]
  {
    if order[p] == order[q] {
      var rest := order[..q] + order[q + 1..];
      assert (set x | x in order) == assoc.Keys;
      forall x | x in order
        ensures x in rest
      {
        var j :| 0 <= j < |order| && order[j] == x;
        if j < q {
          assert rest[j] == x;
        } else if j == q {
          assert rest[p] == x;
        } else {
          assert rest[j - 1] == x;
        }
      }
      assert (set x | x in order) == (set x | x in rest);
      DistinctAtMostLength(rest);
      assert false;
    }
  }

  /**
   * The controller's bookkeeping is consistent: `order` lists the associated
   * form fields, each associated form field was added, and each added form
   * field is an element of the form.
   */
  ghost predicate Bookkeeping(order: seq<string>, assoc: map<string, FieldRef>, widgets: map<string, Widget>, elements: seq<string>)
  {
    && KeyOrder(order, assoc)
    && (forall k :: k in assoc ==> k in widgets)
    && (forall k :: k in widgets ==> k in elements)
  }

  /** Adding a form field under `key` and associating it keeps the bookkeeping consistent. */
  lemma AddFieldKeepsBookkeeping(order: seq<string>, assoc: map<string, FieldRef>, widgets: map<string, Widget>,
                                 elements: seq<string>, key: string, ref: FieldRef, w: Widget)
    requires Bookkeeping(order, assoc, widgets, elements)
    ensures Bookkeeping(if key in assoc then order else order + [key], assoc[key := ref], widgets[key := w],
                        if key in elements then elements else elements + [key])
  {
    KeyOrderInsert(order, assoc, key, ref);
  }

  /** Every entry of `before` is still in `after`, unchanged. */
  ghost predicate Extends<V>(before: map<string, V>, after: map<string, V>)
  {
    forall k :: k in before ==> k in after && after[k] == before[k]
  }

  /**
   * Every form field associated in `assoc` but not in `before` mirrors an
   * editable field of `m` listed in `names`, under a name that extends the
   * field's name, and was added with the configuration `BuildWidget` gives it.
   */
  ghost predicate ImportedFrom(table: map<string, string>, m: DataModel, store: Store, names: seq<string>,
                               before: map<string, FieldRef>, assoc: map<string, FieldRef>, widgets: map<string, Widget>)
  {
    forall k :: k in assoc && k !in before ==>
      && assoc[k].owner == m.ref
      && assoc[k].field in names
      && assoc[k].field <= k
      && EditableField(m, assoc[k].field).Some?
      && k in widgets
      && widgets[k] == BuildWidget(table, m, assoc[k].field, EditableField(m, assoc[k].field).value, Get(store, assoc[k]))
  }

  /** Every editable field of `m` listed in `names` is mirrored by a form field associated since `before`. */
  ghost predicate CoversEditable(m: DataModel, names: seq<string>, before: map<string, FieldRef>, assoc: map<string, FieldRef>)
  {
    forall n :: n in names && EditableField(m, n).Some? ==>
      exists k :: k in assoc && k !in before && assoc[k] == FieldRef(m.ref, n)
  }

  /** The form fields imported for `names[..i]` and the one imported for `names[i]` are the ones for `names[..i + 1]`. */
  lemma ImportedStep(table: map<string, string>, m: DataModel, store: Store, names: seq<string>, i: nat,
                     before: map<string, FieldRef>, assoc: map<string, FieldRef>, widgets: map<string, Widget>,
                     assoc': map<string, FieldRef>, widgets': map<string, Widget>, key: string)
    requires i < |names|
    requires ImportedFrom(table, m, store, names[..i], before, assoc, widgets)
    requires key !in assoc && names[i] <= key
    requires EditableField(m, names[i]).None? ==> assoc' == assoc && widgets' == widgets
    requires EditableField(m, names[i]).Some? ==>
      var ref := FieldRef(m.ref, names[i]);
      && assoc' == assoc[key := ref]
      && widgets' == widgets[key := BuildWidget(table, m, names[i], EditableField(m, names[i]).value, Get(store, ref))]
    ensures ImportedFrom(table, m, store, names[..i + 1], before, assoc', widgets')
  {
    assert names[..i + 1] == names[..i] + [names[i]];
    forall k | k in assoc' && k !in before
      ensures assoc'[k].field in names[..i + 1]
    {
      if k != key {
        assert assoc'[k] == assoc[k];
      }
    }
  }

  /** Importing `names[i]` adds a form field for it if it is editable, so every editable name of `names[..i + 1]` is covered. */
  lemma CoversStep(m: DataModel, names: seq<string>, i: nat, before: map<string, FieldRef>,
                   assoc: map<string, FieldRef>, assoc': map<string, FieldRef>, key: string)
    requires i < |names|
    requires CoversEditable(m, names[..i], before, assoc)
    requires Extends(before, assoc) && key !in assoc
    requires EditableField(m, names[i]).None? ==> assoc' == assoc
    requires EditableField(m, names[i]).Some? ==> assoc' == assoc[key := FieldRef(m.ref, names[i])]
    ensures CoversEditable(m, names[..i + 1], before, assoc')
  {
    assert names[..i + 1] == names[..i] + [names[i]];
    forall n | n in names[..i + 1] && EditableField(m, n).Some?
      ensures exists k :: k in assoc' && k !in before && assoc'[k] == FieldRef(m.ref, n)
    {
      if n in names[..i] {
        var k :| k in assoc && k !in before && assoc[k] == FieldRef(m.ref, n);
        assert k != key && assoc'[k] == assoc[k];
      } else {
        assert n == names[i] && key !in before && assoc'[key] == FieldRef(m.ref, n);
      }
    }
  }

  /**
   * The part of the controller's state an import changes: the key order, the
   * associations, the added form fields and the form's elements.
   */
  datatype FormState = FormState(order: seq<string>, assoc: map<string, FieldRef>,
                                 widgets: map<string, Widget>, elements: seq<string>)

  /**
   * How far the loop of `importFields` has got, part one: importing
   * `names[..i]` into the state `s0` kept every association and form field,
   * and every new association is an imported editable field of `m`; every
   * editable name of `names[..i]` is covered.
   */
  ghost predicate ImportProgress(table: map<string, string>, m: DataModel, store: Store, names: seq<string>, i: nat,
                                 s0: FormState, s: FormState)
  {
    && i <= |names|
    && Extends(s0.assoc, s.assoc) && Extends(s0.widgets, s.widgets)
    && ImportedFrom(table, m, store, names[..i], s0.assoc, s.assoc, s.widgets)
    && CoversEditable(m, names[..i], s0.assoc, s.assoc)
  }

  /**
   * Part two: the keys `added` were appended to the key order of `s0`, one
   * per name of `kept` (the editable names imported so far) in order, and
   * exactly their form fields and elements were added.
   */
  ghost predicate AppendProgress(owner: ModelRef, kept: seq<string>, s0: FormState, added: seq<string>, s: FormState)
  {
    && s.order == s0.order + added
    && AppendedInOrder(s0.order, s.order, s.assoc, owner, kept)
    && AddedFormFields(s0.elements, s.elements, s0.widgets, s.widgets, added)
  }

  /**
   * Importing `names[i]` under `key`, a name the form does not have yet that
   * extends it, takes `s` to `s'`: an editable field is appended, associated
   * and added as `BuildWidget` configures it; any other name changes nothing.
   */
  ghost predicate ImportedOne(table: map<string, string>, m: DataModel, store: Store, n: string, key: string,
                              s: FormState, s': FormState)
  {
    && key !in s.elements && n <= key
    && (EditableField(m, n).None? ==>
          s'.order == s.order && s'.assoc == s.assoc && s'.widgets == s.widgets && s'.elements == s.elements)
    && (EditableField(m, n).Some? ==>
          var ref := FieldRef(m.ref, n);
          && s'.order == s.order + [key] && s'.assoc == s.assoc[key := ref] && s'.elements == s.elements + [key]
          && s'.widgets == s.widgets[key := BuildWidget(table, m, n, EditableField(m, n).value, Get(store, ref))])
  }

  /** Importing `names[i]` extends what importing `names[..i]` did. */
  lemma ImportNameStep(table: map<string, string>, m: DataModel, store: Store, names: seq<string>, i: nat,
                       s0: FormState, s: FormState, s': FormState, key: string)
    requires i < |names|
    requires (forall k :: k in s.assoc ==> k in s.widgets) && (forall k :: k in s.widgets ==> k in s.elements)
    requires ImportProgress(table, m, store, names, i, s0, s)
    requires ImportedOne(table, m, store, names[i], key, s, s')
    ensures ImportProgress(table, m, store, names, i + 1, s0, s')
  {
    ImportedStep(table, m, store, names, i, s0.assoc, s.assoc, s.widgets, s'.assoc, s'.widgets, key);
    CoversStep(m, names, i, s0.assoc, s.assoc, s'.assoc, key);
    if EditableField(m, names[i]).Some? {
      ExtendsFresh(s0.assoc, s.assoc, key, FieldRef(m.ref, names[i]));
      ExtendsFresh(s0.widgets, s.widgets, key, s'.widgets[key]);
    }
  }

  /** Both parts of the progress of the loop of `importFields`; `kept` are the editable names imported so far. */
  ghost predicate ImportState(table: map<string, string>, m: DataModel, store: Store, names: seq<string>, i: nat,
                              s0: FormState, kept: seq<string>, added: seq<string>, s: FormState)
  {
    && ImportProgress(table, m, store, names, i, s0, s)
    && AppendProgress(m.ref, kept, s0, added, s)
  }

  /** One iteration of the loop of `importFields` keeps `ImportState`. */
  lemma ImportStateStep(table: map<string, string>, m: DataModel, store: Store, names: seq<string>, i: nat,
                        s0: FormState, kept: seq<string>, added: seq<string>, s: FormState, s': FormState, key: string)
    returns (kept': seq<string>, added': seq<string>)
    requires i < |names|
    requires Bookkeeping(s.order, s.assoc, s.widgets, s.elements)
    requires ImportState(table, m, store, names, i, s0, kept, added, s)
    requires ImportedOne(table, m, store, names[i], key, s, s')
    ensures kept' == if EditableField(m, names[i]).Some? then kept + [names[i]] else kept
    ensures ImportState(table, m, store, names, i + 1, s0, kept', added', s')
  {
    var imported := EditableField(m, names[i]).Some?;
    kept', added' := if imported then kept + [names[i]] else kept, if imported then added + [key] else added;
    ImportNameStep(table, m, store, names, i, s0, s, s', key);
    AppendNameStep(m.ref, kept, names[i], EditableField(m, names[i]).Some?, s0, added, s, s', key);
  }

  /** Importing `n` under the fresh `key` appends that key, element and form field, or nothing. */
  lemma AppendNameStep(owner: ModelRef, kept: seq<string>, n: string, imported: bool,
                       s0: FormState, added: seq<string>, s: FormState, s': FormState, key: string)
    requires AppendProgress(owner, kept, s0, added, s)
    requires key !in s.elements && key !in s.assoc
    requires !imported ==> s'.order == s.order && s'.assoc == s.assoc && s'.widgets == s.widgets && s'.elements == s.elements
    requires imported ==>
      && s'.assoc == s.assoc[key := FieldRef(owner, n)] && s'.order == s.order + [key]
      && s'.elements == s.elements + [key] && s'.widgets.Keys == s.widgets.Keys + {key}
    ensures AppendProgress(owner, if imported then kept + [n] else kept, s0,
                           if imported then added + [key] else added, s')
  {
    AppendedStep(owner, kept, n, imported, s0.order, s.order, s.assoc, s'.order, s'.assoc, key);
    AddedStep(s0.elements, s0.widgets, s.elements, s.widgets, added, s'.elements, s'.widgets, key, imported);
  }

  /**
   * `order` is `before` followed by one key per name of `names`, in the same
   * order, each associated with that field of the model `owner`.
   */
  ghost predicate AppendedInOrder(before: seq<string>, order: seq<string>, assoc: map<string, FieldRef>,
                                  owner: ModelRef, names: seq<string>)
  {
    && before <= order && |order| == |before| + |names|
    && forall i :: |before| <= i < |order| ==>
         order[i] in assoc && assoc[order[i]] == FieldRef(owner, names[i - |before|])
  }

  /** Importing `n` appends its key when it is imported, and nothing otherwise. */
  lemma AppendedStep(owner: ModelRef, kept: seq<string>, n: string, imported: bool, before: seq<string>,
                     order: seq<string>, assoc: map<string, FieldRef>,
                     order': seq<string>, assoc': map<string, FieldRef>, key: string)
    requires AppendedInOrder(before, order, assoc, owner, kept)
    requires key !in assoc
    requires !imported ==> order' == order && assoc' == assoc
    requires imported ==> order' == order + [key] && assoc' == assoc[key := FieldRef(owner, n)]
    ensures AppendedInOrder(before, order', assoc', owner, if imported then kept + [n] else kept)
  {
    if imported {
      var kept' := kept + [n];
      assert before <= order' && |order'| == |before| + |kept'|;
      forall j | |before| <= j < |order'|
        ensures order'[j] in assoc' && assoc'[order'[j]] == FieldRef(owner, kept'[j - |before|])
      {
        if j < |order| {
          assert kept'[j - |before|] == kept[j - |before|];
          assert order[j] in assoc && order'[j] == order[j];
        } else {
          assert order'[j] == key;
        }
      }
    }
  }

  /**
   * The form gained exactly the elements `added`, at its end, none of them
   * an element it had before, and its added form fields are exactly those.
   */
  ghost predicate AddedFormFields(elements0: seq<string>, elements: seq<string>,
                                  widgets0: map<string, Widget>, widgets: map<string, Widget>, added: seq<string>)
  {
    && elements == elements0 + added
    && (forall k :: k in added ==> k !in elements0)
    && (forall k :: k in widgets <==> k in widgets0 || k in added)
  }

  /** Importing one more name under the fresh `key` adds that one element and form field, or nothing. */
  lemma AddedStep(elements0: seq<string>, widgets0: map<string, Widget>, elements: seq<string>,
                  widgets: map<string, Widget>, added: seq<string>,
                  elements': seq<string>, widgets': map<string, Widget>, key: string, imported: bool)
    requires AddedFormFields(elements0, elements, widgets0, widgets, added)
    requires key !in elements
    requires !imported ==> elements' == elements && widgets' == widgets
    requires imported ==> elements' == elements + [key] && widgets'.Keys == widgets.Keys + {key}
    ensures AddedFormFields(elements0, elements', widgets0, widgets', if imported then added + [key] else added)
  {
    if imported {
      assert elements' == elements0 + (added + [key]);
      assert key !in elements0 by {
        assert forall k :: k in elements0 ==> k in elements;
      }
    }
  }

  /**
   * The keys appended to the key order are the new associations; if they
   * are the form fields added, those are exactly the form fields of the new
   * associations.
   */
  lemma AddedAreNewAssociations(order0: seq<string>, assoc0: map<string, FieldRef>, added: seq<string>,
                                assoc: map<string, FieldRef>, elements0: seq<string>, elements: seq<string>,
                                widgets0: map<string, Widget>, widgets: map<string, Widget>)
    requires Bookkeeping(order0, assoc0, widgets0, elements0) && KeyOrder(order0 + added, assoc)
    requires AddedFormFields(elements0, elements, widgets0, widgets, added)
    ensures widgets.Keys == widgets0.Keys + (assoc.Keys - assoc0.Keys)
  {
    var order := order0 + added;
    forall k | k in added
      ensures k in assoc && k !in assoc0
    {
      assert k in order;
    }
    forall k | k in assoc && k !in assoc0
      ensures k in added
    {
      assert k in order && k !in order0;
    }
  }

  /**
   * What importing `names` of `m` did to the state `order0, assoc0,
   * widgets0, elements0`: one key per editable name was appended to the key
   * order, in the order of `names`, associated with that field; exactly
   * those form fields and elements were added, each form field as
   * `BuildWidget` configures it; every editable name is covered; and every
   * earlier association and form field is kept.
   */
  ghost predicate ImportedNames(table: map<string, string>, m: DataModel, store: Store, names: seq<string>,
                                order0: seq<string>, assoc0: map<string, FieldRef>,
                                widgets0: map<string, Widget>, elements0: seq<string>,
                                order: seq<string>, assoc: map<string, FieldRef>,
                                widgets: map<string, Widget>, elements: seq<string>)
  {
    && AppendedInOrder(order0, order, assoc, m.ref, EditableNames(m, names))
    && elements == elements0 + order[|order0|..]
    && (forall k :: k in widgets ==> k in widgets0 || (k in assoc && k !in assoc0))
    && Extends(assoc0, assoc) && Extends(widgets0, widgets)
    && ImportedFrom(table, m, store, names, assoc0, assoc, widgets)
    && CoversEditable(m, names, assoc0, assoc)
  }

  /** Every form field associated in `assoc` but not in `before` is named after no element of `elements0` (`_unique`). */
  ghost predicate FreshKeys(before: map<string, FieldRef>, elements0: seq<string>, assoc: map<string, FieldRef>)
  {
    forall k :: k in assoc && k !in before ==> k !in elements0
  }

  /** When the loop of `importFields` has imported all of `names`, it has done what `ImportedNames` says. */
  lemma ImportStateDone(table: map<string, string>, m: DataModel, store: Store, names: seq<string>,
                        s0: FormState, kept: seq<string>, added: seq<string>, s: FormState)
    requires Bookkeeping(s0.order, s0.assoc, s0.widgets, s0.elements) && KeyOrder(s.order, s.assoc)
    requires ImportState(table, m, store, names, |names|, s0, kept, added, s)
    requires kept == EditableNames(m, names)
    ensures ImportedNames(table, m, store, names, s0.order, s0.assoc, s0.widgets, s0.elements,
                          s.order, s.assoc, s.widgets, s.elements)
    ensures FreshKeys(s0.assoc, s0.elements, s.assoc)
  {
    assert names[..|names|] == names;
    assert s.order[|s0.order|..] == added;
    AddedAreNewAssociations(s0.order, s0.assoc, added, s.assoc, s0.elements, s.elements, s0.widgets, s.widgets);
  }

  /** An import adds exactly the form fields of the new associations, and no other. */
  lemma ImportAddsOnlyAssociated(table: map<string, string>, m: DataModel, store: Store, names: seq<string>,
                                 order0: seq<string>, assoc0: map<string, FieldRef>,
                                 widgets0: map<string, Widget>, elements0: seq<string>,
                                 order: seq<string>, assoc: map<string, FieldRef>,
                                 widgets: map<string, Widget>, elements: seq<string>)
    requires ImportedNames(table, m, store, names, order0, assoc0, widgets0, elements0, order, assoc, widgets, elements)
    ensures widgets.Keys == widgets0.Keys + (assoc.Keys - assoc0.Keys)
  {
    forall k | k in assoc && k !in assoc0
      ensures k in widgets
    {
      assert ImportedFrom(table, m, store, names, assoc0, assoc, widgets);
    }
  }

  /**
   * After an import that `FreshKeys` describes, no element the form gained
   * repeats the name of an element it had before.
   */
  lemma ImportedElementsFresh(table: map<string, string>, m: DataModel, store: Store, names: seq<string>,
                              order0: seq<string>, assoc0: map<string, FieldRef>,
                              widgets0: map<string, Widget>, elements0: seq<string>,
                              order: seq<string>, assoc: map<string, FieldRef>,
                              widgets: map<string, Widget>, elements: seq<string>)
    requires KeyOrder(order0, assoc0) && KeyOrder(order, assoc)
    requires ImportedNames(table, m, store, names, order0, assoc0, widgets0, elements0, order, assoc, widgets, elements)
    requires FreshKeys(assoc0, elements0, assoc)
    ensures forall i :: |elements0| <= i < |elements| ==> elements[i] !in elements0
  {
    forall i | |elements0| <= i < |elements|
      ensures elements[i] !in elements0
    {
      var p := |order0| + (i - |elements0|);
      assert elements[i] == order[p];
      if order[p] in assoc0 {
        var q :| 0 <= q < |order0| && order0[q] == order[p];
        KeyOrderDistinct(order, assoc, q, p);
      }
    }
  }

  /** Assigning a key that was absent keeps every earlier entry. */
  lemma ExtendsFresh<V>(before: map<string, V>, after: map<string, V>, key: string, v: V)
    requires Extends(before, after) && key !in after
    ensures Extends(before, after[key := v])
  {
  }

  /**
   * The loop of `getFields`, on values: write each associated form field's
   * value into its model field, in association order, and collect the
   * owning models, keeping the first one seen under each model name.
   */
  method WriteBackAll(order: seq<string>, assoc: map<string, FieldRef>, widgets: map<string, Widget>, store: Store)
    returns (written: Store, writes: seq<Event>, models: seq<ModelRef>)
    requires Bound(order, assoc, widgets)
    ensures written == WrittenBack(order, assoc, widgets, store)
    ensures writes == WriteEvents(order, assoc, widgets)
    ensures models == FirstByName(Owners(order, assoc))
  {
    written, writes, models := store, [], [];
    var i := 0;
    while i < |order|
      invariant 0 <= i <= |order|
      invariant written == WrittenBack(order[..i], assoc, widgets, store)
      invariant writes == WriteEvents(order[..i], assoc, widgets)
      invariant models == FirstByName(Owners(order[..i], assoc))
    {
      var k := order[i];
      var ref := assoc[k];
      var v := widgets[k].value;
      WrittenBackStep(order, assoc, widgets, store, i);
      WriteEventsStep(order, assoc, widgets, i);
      OwnersStep(order, assoc, widgets, i);
      FirstByNameStep(Owners(order[..i], assoc), ref.owner);
      written := Put(written, ref, v);
      writes := writes + [Write(ref, v)];
      if !HasName(models, ref.owner.name) {
        models := models + [ref.owner];
      }
      i := i + 1;
    }
    assert order[..i] == order;
  }

  class Controller {
    /** The form's own model (`$this->owner->model`). */
    const ownerModel: DataModel
    /** `type_associations`. */
    const typeAssociations: map<string, string>
    /** The model fields are currently imported from. */
    var model: Option<DataModel>
    /** `field_associations`: form field name => model field ... */
    var fieldAssociations: map<string, FieldRef>
    /** ... and the order in which its keys were first inserted (each key once, as Valid says by counting). */
    var assocOrder: seq<string>
    /** `_hook_set`. */
    var hookSet: bool
    /** Every hook registration made, in order. */
    var hooks: seq<Hook>
    /** The names of the form's elements, in order. */
    var elements: seq<string>
    /** The form fields this controller added, with their configuration and current value. */
    var widgets: map<string, Widget>
    /** The field values of the models. */
    var store: Store
    /** The writes to model fields and the `save()` calls made, in order. */
    var log: seq<Event>

    ghost predicate Valid()
      reads this
    {
      && Bookkeeping(assocOrder, fieldAssociations, widgets, elements)
      && (hookSet ==> |hooks| == 2 && hooks[0] == OnFormUpdate && hooks[1].OnAfterLoad?)
      && (!hookSet ==> hooks == [])
    }

    /** `init`: a controller on a form whose model is `owner`. */
    constructor (owner: DataModel, formElements: seq<string>, models: Store)
      ensures Valid()
      ensures ownerModel == owner && typeAssociations == DefaultTypeAssociations
      ensures model == None && fieldAssociations == map[] && assocOrder == []
      ensures !hookSet && hooks == []
      ensures elements == formElements && widgets == map[] && store == models && log == []
    {
      ownerModel := owner;
      typeAssociations := DefaultTypeAssociations;
      model := None;
      fieldAssociations := map[];
      assocOrder := [];
      hookSet := false;
      hooks := [];
      elements := formElements;
      widgets := map[];
      store := models;
      log := [];
    }

    /** `setActualFields`: import fields of the form's own model. */
    method SetActualFields(sel: Selector)
      requires Valid()
      modifies this`model, this`assocOrder, this`fieldAssociations, this`elements, this`widgets,
               this`hookSet, this`hooks
      ensures Valid()
      ensures model == Some(ownerModel)
      ensures sel.NoFields? ==>
        && fieldAssociations == old(fieldAssociations) && assocOrder == old(assocOrder)
        && widgets == old(widgets) && elements == old(elements)
        && hookSet == old(hookSet) && hooks == old(hooks)
      ensures !sel.NoFields? ==>
        hookSet && hooks == if old(hookSet) then old(hooks) else [OnFormUpdate, OnAfterLoad(ownerModel.ref)]
      ensures !sel.NoFields? ==>
        ImportedNames(typeAssociations, ownerModel, store, SelectedNames(ownerModel, sel),
                      old(assocOrder), old(fieldAssociations), old(widgets), old(elements),
                      assocOrder, fieldAssociations, widgets, elements)
      ensures !sel.NoFields? ==>
        FreshKeys(old(fieldAssociations), old(elements), fieldAssociations)
    {
      ImportFields(ownerModel, sel);
    }

    /**
     * `importFields`: make `m` the current model and, unless the selector is
     * `false`, import the selected fields in order and register the hooks
     * if they are not registered yet.
     */
    method ImportFields(m: DataModel, sel: Selector)
      requires Valid()
      modifies this`model, this`assocOrder, this`fieldAssociations, this`elements, this`widgets,
               this`hookSet, this`hooks
      ensures Valid()
      ensures model == Some(m)
      ensures sel.NoFields? ==>
        && fieldAssociations == old(fieldAssociations) && assocOrder == old(assocOrder)
        && widgets == old(widgets) && elements == old(elements)
        && hookSet == old(hookSet) && hooks == old(hooks)
      ensures !sel.NoFields? ==>
        hookSet && hooks == if old(hookSet) then old(hooks) else [OnFormUpdate, OnAfterLoad(m.ref)]
      ensures !sel.NoFields? ==>
        ImportedNames(typeAssociations, m, store, SelectedNames(m, sel),
                      old(assocOrder), old(fieldAssociations), old(widgets), old(elements),
                      assocOrder, fieldAssociations, widgets, elements)
      ensures !sel.NoFields? ==>
        FreshKeys(old(fieldAssociations), old(elements), fieldAssociations)
    {
      model := Some(m);
      if sel.NoFields? {
        return;
      }
      var names := SelectedNames(m, sel);
      ImportNames(m, names);
      RegisterHooks(m);
    }

    /** Register the form's `update` hook and `m`'s `afterLoad` hook, unless hooks are already set. */
    method RegisterHooks(m: DataModel)
      requires Valid()
      modifies this`hookSet, this`hooks
      ensures Valid()
      ensures hookSet && hooks == if old(hookSet) then old(hooks) else [OnFormUpdate, OnAfterLoad(m.ref)]
    {
      if !hookSet {
        hooks, hookSet := [OnFormUpdate, OnAfterLoad(m.ref)], true;
      }
    }

    /** The loop of `importFields`: import each of `names` in order, under fresh form-field names. */
    method ImportNames(m: DataModel, names: seq<string>)
      requires Valid() && model == Some(m)
      modifies this`assocOrder, this`fieldAssociations, this`elements, this`widgets
      ensures Valid()
      ensures ImportedNames(typeAssociations, m, store, names,
                            old(assocOrder), old(fieldAssociations), old(widgets), old(elements),
                            assocOrder, fieldAssociations, widgets, elements)
      ensures FreshKeys(old(fieldAssociations), old(elements), fieldAssociations)
    {
      ghost var s0 := FormState(assocOrder, fieldAssociations, widgets, elements);
      var i := 0;
      ghost var added: seq<string> := [];
      ghost var kept: seq<string> := [];
      while i < |names|
        invariant i <= |names|
        invariant Valid()
        invariant ImportState(typeAssociations, m, store, names, i, s0, kept, added,
                              FormState(assocOrder, fieldAssociations, widgets, elements))
        invariant kept == EditableNames(m, names[..i])
      {
        ghost var before := FormState(assocOrder, fieldAssociations, widgets, elements);
        ghost var key := UniqueName(elements, names[i]);
        var w := ImportField(names[i], None);
        kept, added := ImportStateStep(typeAssociations, m, store, names, i, s0, kept, added, before,
                                       FormState(assocOrder, fieldAssociations, widgets, elements), key);
        EditableNamesSnoc(m, names, i);
        i := i + 1;
      }
      assert names[..i] == names;
      ImportStateDone(typeAssociations, m, store, names, s0, kept, added,
                      FormState(assocOrder, fieldAssociations, widgets, elements));
    }

    /**
     * `importField`: add a form field for the current model's field `name`
     * under `formName`, or under a fresh name derived from `name`. A field
     * that is absent or not editable is skipped.
     */
    method ImportField(name: string, formName: Option<string>) returns (w: Option<Widget>)
      requires Valid() && model.Some?
      modifies this`assocOrder, this`fieldAssociations, this`elements, this`widgets
      ensures Valid()
      ensures EditableField(model.value, name).None? ==>
        && w.None?
        && fieldAssociations == old(fieldAssociations) && assocOrder == old(assocOrder)
        && widgets == old(widgets) && elements == old(elements)
      ensures EditableField(model.value, name).Some? ==>
        var key := if formName.Some? then formName.value else UniqueName(old(elements), name);
        var ref := FieldRef(model.value.ref, name);
        && w == Some(BuildWidget(typeAssociations, model.value, name, EditableField(model.value, name).value, Get(store, ref)))
        && widgets == old(widgets)[key := w.value]
        && fieldAssociations == old(fieldAssociations)[key := ref]
        && assocOrder == (if key in old(fieldAssociations) then old(assocOrder) else old(assocOrder) + [key])
        && elements == (if key in old(elements) then old(elements) else old(elements) + [key])
    {
      var m := model.value;
      var field := EditableField(m, name);
      if field.None? {
        return None;
      }
      var key := if formName.Some? then formName.value else UniqueName(elements, name);
      var ref := FieldRef(m.ref, name);
      var widget := ConfigureWidget(typeAssociations, m, name, field.value, Get(store, ref));
      Bind(key, ref, widget);
      w := Some(widget);
    }

    /**
     * Associate form field `key` with model field `ref` and add it to the
     * form as `widget`; an existing form field of that name is replaced in
     * place.
     */
    method Bind(key: string, ref: FieldRef, widget: Widget)
      requires Valid()
      modifies this`assocOrder, this`fieldAssociations, this`elements, this`widgets
      ensures Valid()
      ensures fieldAssociations == old(fieldAssociations)[key := ref]
      ensures assocOrder == if key in old(fieldAssociations) then old(assocOrder) else old(assocOrder) + [key]
      ensures widgets == old(widgets)[key := widget]
      ensures elements == if key in old(elements) then old(elements) else old(elements) + [key]
    {
      AddFieldKeepsBookkeeping(assocOrder, fieldAssociations, widgets, elements, key, ref, widget);
      assocOrder, fieldAssociations, elements, widgets :=
        (if key in fieldAssociations then assocOrder else assocOrder + [key]),
        fieldAssociations[key := ref],
        (if key in elements then elements else elements + [key]),
        widgets[key := widget];
    }

    /** `setFields`: copy every associated model field's value into its form field. */
    method SetFields()
      requires Valid()
      modifies this`widgets
      ensures Valid()
      ensures widgets == LoadSynced(assocOrder, fieldAssociations, store, old(widgets))
      ensures widgets.Keys == old(widgets).Keys
      ensures forall k :: k in fieldAssociations ==> widgets[k] == old(widgets)[k].(value := Get(store, fieldAssociations[k]))
    {
      var i := 0;
      while i < |assocOrder|
        invariant 0 <= i <= |assocOrder|
        invariant widgets == LoadSynced(assocOrder[..i], fieldAssociations, store, old(widgets))
      {
        var k := assocOrder[i];
        LoadSyncedStep(assocOrder, fieldAssociations, store, old(widgets), i);
        widgets := widgets[k := widgets[k].(value := Get(store, fieldAssociations[k]))];
        i := i + 1;
      }
      assert assocOrder[..i] == assocOrder;
      LoadSyncedSpec(assocOrder, fieldAssociations, store, old(widgets));
    }

    /**
     * `getFields`: write every form value into its model field and return
     * the owning models, one per model name, first seen first.
     */
    method GetFields() returns (models: seq<ModelRef>)
      requires Valid()
      modifies this`store, this`log
      ensures store == WrittenBack(assocOrder, fieldAssociations, widgets, old(store))
      ensures log == old(log) + WriteEvents(assocOrder, fieldAssociations, widgets)
      ensures models == FirstByName(Owners(assocOrder, fieldAssociations))
    {
      var written, writes;
      written, writes, models := WriteBackAll(assocOrder, fieldAssociations, widgets, store);
      store, log := written, log + writes;
    }

    /**
     * `update`: write the form back into the models, then save each model
     * `getFields` returned, in order. A save that fails stops the commit;
     * the writes and the saves before it stay done.
     */
    method Update(failing: set<ModelRef>) returns (outcome: Outcome)
      requires Valid()
      modifies this`store, this`log
      ensures store == WrittenBack(assocOrder, fieldAssociations, widgets, old(store))
      ensures var ms := FirstByName(Owners(assocOrder, fieldAssociations));
              var written := old(log) + WriteEvents(assocOrder, fieldAssociations, widgets);
              && (outcome.Ok? <==> forall m :: m in ms ==> m !in failing)
              && (outcome.Ok? ==> log == written + SaveAll(ms) == old(log) + CommitTrace(assocOrder, fieldAssociations, widgets))
              && (outcome.SaveFailed? ==>
                    exists i :: && 0 <= i < |ms| && ms[i] == outcome.model && ms[i] in failing
                                && (forall j :: 0 <= j < i ==> ms[j] !in failing)
                                && log == written + SaveAll(ms[..i + 1]))
    {
      var models := GetFields();
      outcome := SaveModels(models, failing);
    }

    /**
     * The save loop of `update`: call `save()` on each of `models` in order;
     * the first save that fails ends the loop.
     */
    method SaveModels(models: seq<ModelRef>, failing: set<ModelRef>) returns (outcome: Outcome)
      modifies this`log
      ensures outcome.Ok? <==> forall m :: m in models ==> m !in failing
      ensures outcome.Ok? ==> log == old(log) + SaveAll(models)
      ensures outcome.SaveFailed? ==>
        exists i :: && 0 <= i < |models| && models[i] == outcome.model && models[i] in failing
                    && (forall j :: 0 <= j < i ==> models[j] !in failing)
                    && log == old(log) + SaveAll(models[..i + 1])
    {
      var saves := log;
      var i := 0;
      while i < |models|
        invariant 0 <= i <= |models|
        invariant forall j :: 0 <= j < i ==> models[j] !in failing
        invariant saves == old(log) + SaveAll(models[..i])
        invariant log == old(log)
      {
        SaveAllStep(models, i);
        saves := saves + [Save(models[i])];
        if models[i] in failing {
          log := saves;
          assert 0 <= i < |models| && models[i] in failing && log == old(log) + SaveAll(models[..i + 1]);
          return SaveFailed(models[i]);
        }
        i := i + 1;
      }
      assert models[..i] == models;
      log := saves;
      return Ok;
    }

    /** The form's `update` event: runs `Update` if the hook is registered. */
    method FormUpdate(failing: set<ModelRef>) returns (outcome: Outcome)
      requires Valid()
      modifies this`store, this`log
      ensures OnFormUpdate !in hooks ==> store == old(store) && log == old(log) && outcome == Ok
      ensures OnFormUpdate in hooks ==>
        var ms := FirstByName(Owners(assocOrder, fieldAssociations));
        var written := old(log) + WriteEvents(assocOrder, fieldAssociations, widgets);
        && store == WrittenBack(assocOrder, fieldAssociations, widgets, old(store))
        && (outcome.Ok? <==> forall m :: m in ms ==> m !in failing)
        && (outcome.Ok? ==> log == old(log) + CommitTrace(assocOrder, fieldAssociations, widgets))
        && (outcome.SaveFailed? ==>
              exists i :: && 0 <= i < |ms| && ms[i] == outcome.model && ms[i] in failing
                          && (forall j :: 0 <= j < i ==> ms[j] !in failing)
                          && log == written + SaveAll(ms[..i + 1]))
    {
      if OnFormUpdate in hooks {
        outcome := Update(failing);
      } else {
        outcome := Ok;
      }
    }

    /**
     * Model `m` finished loading `data`: its `afterLoad` event runs
     * `SetFields` if the hook was registered on `m`.
     */
    method ModelLoaded(m: ModelRef, data: map<string, Value>)
      requires Valid()
      modifies this`store, this`widgets
      ensures Valid()
      ensures store == old(store)[m := data]
      ensures widgets == if OnAfterLoad(m) in hooks
                         then LoadSynced(assocOrder, fieldAssociations, store, old(widgets))
                         else old(widgets)
    {
      store := store[m := data];
      if OnAfterLoad(m) in hooks {
        SetFields();
      }
    }
  }
}
