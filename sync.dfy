/**
 * The two synchronisation directions of the binding, as functions of the
 * association table: model -> form on load (`setFields`), and form -> model
 * followed by one save per distinct model on commit (`getFields`, `update`).
 */
module Sync {
  import opened Wrappers
  import opened Entities

  /** The current field values of every model: model => field name => value. */
  type Store = map<ModelRef, map<string, Value>>

  /** What the commit does to the models: a field write, or a call of a model's `save()`. */
  datatype Event = Write(ref: FieldRef, value: Value) | Save(model: ModelRef)

  /** `$field->get()`: a field never written reads as null. */
  function Get(store: Store, r: FieldRef): Value
  {
    if r.owner in store && r.field in store[r.owner] then store[r.owner][r.field] else Null
  }

  /** `$field->set($v)`: changes that one field of that one model. */
  function Put(store: Store, r: FieldRef, v: Value): (s: Store)
    ensures Get(s, r) == v
    ensures forall q :: q != r ==> Get(s, q) == Get(store, q)
  {
    var fields := if r.owner in store then store[r.owner] else map[];
    store[r.owner := fields[r.field := v]]
  }

  /** Every form field name in `order` is associated and names an existing form field. */
  predicate Bound(order: seq<string>, assoc: map<string, FieldRef>, widgets: map<string, Widget>)
  {
    forall k :: k in order ==> k in assoc && k in widgets
  }

  lemma PrefixBound(order: seq<string>, assoc: map<string, FieldRef>, widgets: map<string, Widget>, n: nat)
    requires Bound(order, assoc, widgets) && n <= |order|
    ensures Bound(order[..n], assoc, widgets)
  {
    forall k | k in order[..n] ensures k in assoc && k in widgets {
      var i :| 0 <= i < n && order[..n][i] == k;
      assert order[i] == k;
    }
  }

  /** The form after `setFields` (see LoadSyncedSpec). */
  function LoadSynced(order: seq<string>, assoc: map<string, FieldRef>, store: Store, widgets: map<string, Widget>): (w: map<string, Widget>)
    requires Bound(order, assoc, widgets)
    ensures w.Keys == widgets.Keys
    decreases |order|
  {
    if order == [] then widgets
    else
      var n := |order| - 1;
      PrefixBound(order, assoc, widgets, n);
      var prev := LoadSynced(order[..n], assoc, store, widgets);
      var k := order[n];
      prev[k := prev[k].(value := Get(store, assoc[k]))]
  }

  /**
   * After `setFields` every associated form field holds its model field's
   * current value, with the rest of its configuration kept; no other form
   * field changes and none is added.
   */
  lemma {:induction false} LoadSyncedSpec(order: seq<string>, assoc: map<string, FieldRef>, store: Store, widgets: map<string, Widget>)
    requires Bound(order, assoc, widgets)
    ensures var w := LoadSynced(order, assoc, store, widgets);
            && w.Keys == widgets.Keys
            && (forall k :: k in order ==> w[k] == widgets[k].(value := Get(store, assoc[k])))
            && (forall k :: k in widgets && k !in order ==> w[k] == widgets[k])
    decreases |order|
  {
    if order != [] {
      var n := |order| - 1;
      PrefixBound(order, assoc, widgets, n);
      LoadSyncedSpec(order[..n], assoc, store, widgets);
      assert forall j :: j in order ==> j in order[..n] || j == order[n];
      assert forall j :: j in order[..n] ==> j in order;
    }
  }

  /** The last form field in `order` associated with model field `r`, if any. */
  function LastWriter(order: seq<string>, assoc: map<string, FieldRef>, r: FieldRef): (k: Option<string>)
    requires forall j :: j in order ==> j in assoc
    ensures k.Some? ==> k.value in order && assoc[k.value] == r
    ensures k.None? ==> forall j :: j in order ==> assoc[j] != r
    ensures k.Some? ==> exists i :: 0 <= i < |order| && order[i] == k.value
                                   && forall j :: i < j < |order| ==> assoc[order[j]] != r
    decreases |order|
  {
    if order == [] then None
    else
      var n := |order| - 1;
      assert forall j :: j in order ==> j in order[..n] || j == order[n];
      if assoc[order[n]] == r then
        Some(order[n])
      else
        var k := LastWriter(order[..n], assoc, r);
        if k.Some? then
          var i :| 0 <= i < n && order[..n][i] == k.value && forall j :: i < j < n ==> assoc[order[..n][j]] != r;
          assert forall j :: i < j < |order| ==> assoc[order[j]] != r by {
            forall j | i < j < |order| ensures assoc[order[j]] != r {
              if j < n { assert order[j] == order[..n][j]; }
            }
          }
          k
        else k
  }

  /** The models after the write phase of `getFields` (see WrittenBackSpec). */
  function WrittenBack(order: seq<string>, assoc: map<string, FieldRef>, widgets: map<string, Widget>, store: Store): Store
    requires Bound(order, assoc, widgets)
    decreases |order|
  {
    if order == [] then store
    else
      var n := |order| - 1;
      PrefixBound(order, assoc, widgets, n);
      var k := order[n];
      Put(WrittenBack(order[..n], assoc, widgets, store), assoc[k], widgets[k].value)
  }

  /**
   * After the write phase each model field holds the form value of the last
   * form field associated with it; a field no form field is associated with
   * keeps its value.
   */
  lemma {:induction false} WrittenBackSpec(order: seq<string>, assoc: map<string, FieldRef>, widgets: map<string, Widget>, store: Store)
    requires Bound(order, assoc, widgets)
    ensures forall r :: Get(WrittenBack(order, assoc, widgets, store), r) == match LastWriter(order, assoc, r)
                                     case Some(k) => widgets[k].value
                                     case None => Get(store, r)
    decreases |order|
  {
    if order != [] {
      var n := |order| - 1;
      PrefixBound(order, assoc, widgets, n);
      WrittenBackSpec(order[..n], assoc, widgets, store);
    }
  }

  /** The field writes of `getFields`, one per association, in association order. */
  function WriteEvents(order: seq<string>, assoc: map<string, FieldRef>, widgets: map<string, Widget>): seq<Event>
    requires Bound(order, assoc, widgets)
    decreases |order|
  {
    if order == [] then []
    else
      var n := |order| - 1;
      PrefixBound(order, assoc, widgets, n);
      WriteEvents(order[..n], assoc, widgets) + [Write(assoc[order[n]], widgets[order[n]].value)]
  }

  /** The i-th write of the commit sets the i-th association's model field to its form value. */
  lemma {:induction false} WriteEventsSpec(order: seq<string>, assoc: map<string, FieldRef>, widgets: map<string, Widget>)
    requires Bound(order, assoc, widgets)
    ensures var e := WriteEvents(order, assoc, widgets);
            |e| == |order| && forall i :: 0 <= i < |e| ==> e[i] == Write(assoc[order[i]], widgets[order[i]].value)
    decreases |order|
  {
    if order != [] {
      var n := |order| - 1;
      PrefixBound(order, assoc, widgets, n);
      WriteEventsSpec(order[..n], assoc, widgets);
    }
  }

  /** The owning model of each associated model field, in association order. */
  function Owners(order: seq<string>, assoc: map<string, FieldRef>): seq<ModelRef>
    requires forall j :: j in order ==> j in assoc
    decreases |order|
  {
    if order == [] then []
    else
      var n := |order| - 1;
      assert forall j :: j in order[..n] ==> j in order;
      Owners(order[..n], assoc) + [assoc[order[n]].owner]
  }

  lemma {:induction false} OwnersSpec(order: seq<string>, assoc: map<string, FieldRef>)
    requires forall j :: j in order ==> j in assoc
    ensures var r := Owners(order, assoc);
            |r| == |order| && forall i :: 0 <= i < |order| ==> r[i] == assoc[order[i]].owner
    decreases |order|
  {
    if order != [] {
      var n := |order| - 1;
      assert forall j :: j in order[..n] ==> j in order;
      OwnersSpec(order[..n], assoc);
    }
  }

  /** `isset($models[$name])` for the list of models collected so far. */
  predicate HasName(s: seq<ModelRef>, name: string)
  {
    exists i :: 0 <= i < |s| && s[i].name == name
  }

  /**
   * The models `getFields` returns: the owners keyed by `name`, the first
   * model seen under a name kept and later ones with that name dropped.
   */
  function FirstByName(s: seq<ModelRef>): seq<ModelRef>
    decreases |s|
  {
    if s == [] then []
    else
      var n := |s| - 1;
      var prev := FirstByName(s[..n]);
      if HasName(prev, s[n].name) then prev else prev + [s[n]]
  }

  /** No two models in `r` share a name. */
  predicate DistinctNames(r: seq<ModelRef>)
  {
    forall i, j :: 0 <= i < j < |r| ==> r[i].name != r[j].name
  }

  /** The collected models have pairwise different names and are all owners. */
  lemma {:induction false} FirstByNameDistinct(s: seq<ModelRef>)
    ensures DistinctNames(FirstByName(s))
    ensures forall x :: x in FirstByName(s) ==> x in s
    decreases |s|
  {
    if s != [] {
      var n := |s| - 1;
      FirstByNameDistinct(s[..n]);
      assert forall x :: x in s[..n] ==> x in s;
      var prev := FirstByName(s[..n]);
      if !HasName(prev, s[n].name) {
        var r := prev + [s[n]];
        assert FirstByName(s) == r;
        forall i, j | 0 <= i < j < |r| ensures r[i].name != r[j].name {
          if j < |prev| {
            assert r[i] == prev[i] && r[j] == prev[j];
          } else {
            assert r[i] == prev[i] && r[j] == s[n];
            assert !(0 <= i < |prev| && prev[i].name == s[n].name);
          }
        }
        assert DistinctNames(r);
      } else {
        assert FirstByName(s) == prev;
      }
    }
  }

  /** One more association processed by each fold function above. */
  lemma LoadSyncedStep(order: seq<string>, assoc: map<string, FieldRef>, store: Store, widgets: map<string, Widget>, i: nat)
    requires Bound(order, assoc, widgets) && i < |order|
    ensures Bound(order[..i], assoc, widgets) && Bound(order[..i + 1], assoc, widgets)
    ensures var prev := LoadSynced(order[..i], assoc, store, widgets);
            LoadSynced(order[..i + 1], assoc, store, widgets) == prev[order[i] := prev[order[i]].(value := Get(store, assoc[order[i]]))]
  {
    PrefixBound(order, assoc, widgets, i);
    PrefixBound(order, assoc, widgets, i + 1);
    assert order[..i + 1][..i] == order[..i];
  }

  lemma WrittenBackStep(order: seq<string>, assoc: map<string, FieldRef>, widgets: map<string, Widget>, store: Store, i: nat)
    requires Bound(order, assoc, widgets) && i < |order|
    ensures Bound(order[..i], assoc, widgets) && Bound(order[..i + 1], assoc, widgets)
    ensures WrittenBack(order[..i + 1], assoc, widgets, store)
         == Put(WrittenBack(order[..i], assoc, widgets, store), assoc[order[i]], widgets[order[i]].value)
  {
    PrefixBound(order, assoc, widgets, i);
    PrefixBound(order, assoc, widgets, i + 1);
    assert order[..i + 1][..i] == order[..i];
  }

  lemma WriteEventsStep(order: seq<string>, assoc: map<string, FieldRef>, widgets: map<string, Widget>, i: nat)
    requires Bound(order, assoc, widgets) && i < |order|
    ensures Bound(order[..i], assoc, widgets) && Bound(order[..i + 1], assoc, widgets)
    ensures WriteEvents(order[..i + 1], assoc, widgets)
         == WriteEvents(order[..i], assoc, widgets) + [Write(assoc[order[i]], widgets[order[i]].value)]
  {
    PrefixBound(order, assoc, widgets, i);
    PrefixBound(order, assoc, widgets, i + 1);
    assert order[..i + 1][..i] == order[..i];
  }

  lemma OwnersStep(order: seq<string>, assoc: map<string, FieldRef>, widgets: map<string, Widget>, i: nat)
    requires Bound(order, assoc, widgets) && i < |order|
    ensures forall j :: j in order[..i] ==> j in assoc
    ensures forall j :: j in order[..i + 1] ==> j in assoc
    ensures Owners(order[..i + 1], assoc) == Owners(order[..i], assoc) + [assoc[order[i]].owner]
  {
    PrefixBound(order, assoc, widgets, i);
    PrefixBound(order, assoc, widgets, i + 1);
    assert order[..i + 1][..i] == order[..i];
  }

  lemma FirstByNameStep(s: seq<ModelRef>, x: ModelRef)
    ensures FirstByName(s + [x]) == if HasName(FirstByName(s), x.name) then FirstByName(s) else FirstByName(s) + [x]
  {
    assert (s + [x])[..|s|] == s;
  }

  lemma SaveAllStep(ms: seq<ModelRef>, i: nat)
    requires i < |ms|
    ensures SaveAll(ms[..i + 1]) == SaveAll(ms[..i]) + [Save(ms[i])]
  {
    assert ms[..i + 1][..i] == ms[..i];
  }

  /** Every owner's name is represented in the collected models. */
  lemma {:induction false} FirstByNameCovers(s: seq<ModelRef>)
    ensures forall i :: 0 <= i < |s| ==> HasName(FirstByName(s), s[i].name)
  {
    if s != [] {
      var n := |s| - 1;
      var p := s[..n];
      FirstByNameCovers(p);
      var prev := FirstByName(p);
      var r := FirstByName(s);
      assert r == prev || r == prev + [s[n]];
      forall i | 0 <= i < |s| ensures HasName(r, s[i].name) {
        if i < n {
          assert HasName(prev, p[i].name);
          var j :| 0 <= j < |prev| && prev[j].name == p[i].name;
          assert r[j] == prev[j];
        } else if !HasName(prev, s[n].name) {
          assert r[|prev|] == s[n];
        }
      }
    }
  }

  /** Position `i` holds the first model in `s` with its name. */
  predicate FirstOccurrence(s: seq<ModelRef>, i: int)
  {
    0 <= i < |s| && forall j :: 0 <= j < i ==> s[j].name != s[i].name
  }

  /** The collected models are exactly the first model seen under each name. */
  lemma {:induction false} FirstByNameKeepsFirstOccurrences(s: seq<ModelRef>)
    ensures forall x :: x in FirstByName(s) <==> exists i :: FirstOccurrence(s, i) && s[i] == x
  {
    if s != [] {
      var n := |s| - 1;
      var p := s[..n];
      FirstByNameKeepsFirstOccurrences(p);
      FirstByNameCovers(p);
      FirstByNameDistinct(p);
      var prev := FirstByName(p);
      var r := FirstByName(s);
      forall x | x in r ensures exists i :: FirstOccurrence(s, i) && s[i] == x {
        if x in prev {
          var i :| FirstOccurrence(p, i) && p[i] == x;
          assert FirstOccurrence(s, i);
        } else {
          assert r == prev + [s[n]] && x == s[n];
          forall j | 0 <= j < n ensures s[j].name != s[n].name {
            assert p[j] == s[j];
            assert HasName(prev, p[j].name);
          }
          assert FirstOccurrence(s, n);
        }
      }
      forall x | exists i :: FirstOccurrence(s, i) && s[i] == x ensures x in r {
        var i :| FirstOccurrence(s, i) && s[i] == x;
        if i < n {
          assert FirstOccurrence(p, i) && p[i] == x;
          assert x in prev;
        } else {
          forall j | 0 <= j < |prev| ensures prev[j].name != s[n].name {
            assert prev[j] in prev;
            var k :| FirstOccurrence(p, k) && p[k] == prev[j];
            assert s[k] == p[k];
          }
          assert r == prev + [s[n]];
        }
      }
    }
  }

  /** The earliest model in `s` sharing the name of `s[i]`. */
  lemma {:induction false} EarliestWithName(s: seq<ModelRef>, i: nat) returns (f: nat)
    requires i < |s|
    ensures f <= i && FirstOccurrence(s, f) && s[f].name == s[i].name
    decreases i
  {
    if exists j :: 0 <= j < i && s[j].name == s[i].name {
      var j :| 0 <= j < i && s[j].name == s[i].name;
      f := EarliestWithName(s, j);
    } else {
      f := i;
    }
  }

  /** One `save()` call per model, in order. */
  function SaveAll(ms: seq<ModelRef>): (e: seq<Event>)
    ensures |e| == |ms|
    ensures forall i :: 0 <= i < |ms| ==> e[i] == Save(ms[i])
    decreases |ms|
  {
    if ms == [] then [] else SaveAll(ms[..|ms| - 1]) + [Save(ms[|ms| - 1])]
  }

  /** How many times model `m` is saved in `e`. */
  function SaveCount(e: seq<Event>, m: ModelRef): nat
    decreases |e|
  {
    if e == [] then 0
    else SaveCount(e[..|e| - 1], m) + (if e[|e| - 1] == Save(m) then 1 else 0)
  }

  lemma {:induction false} SaveCountAppend(a: seq<Event>, b: seq<Event>, m: ModelRef)
    ensures SaveCount(a + b, m) == SaveCount(a, m) + SaveCount(b, m)
    decreases |b|
  {
    if b == [] {
      assert a + b == a;
    } else {
      var n := |b| - 1;
      assert (a + b)[..|a + b| - 1] == a + b[..n];
      SaveCountAppend(a, b[..n], m);
    }
  }

  /** A sequence of field writes saves nothing. */
  lemma {:induction false} WritesSaveNothing(e: seq<Event>, m: ModelRef)
    requires forall i :: 0 <= i < |e| ==> e[i].Write?
    ensures SaveCount(e, m) == 0
    decreases |e|
  {
    if e != [] {
      WritesSaveNothing(e[..|e| - 1], m);
    }
  }

  /** Saving a list of distinct models saves each of them once and nothing else. */
  lemma {:induction false} SaveAllOnce(ms: seq<ModelRef>)
    requires forall i, j :: 0 <= i < j < |ms| ==> ms[i] != ms[j]
    ensures forall m :: SaveCount(SaveAll(ms), m) == if m in ms then 1 else 0
    decreases |ms|
  {
    if ms != [] {
      var n := |ms| - 1;
      var p := ms[..n];
      SaveAllOnce(p);
      forall m ensures SaveCount(SaveAll(ms), m) == if m in ms then 1 else 0 {
        assert SaveAll(ms)[..n] == SaveAll(p);
        assert m in ms <==> m in p || m == ms[n];
        assert ms[n] !in p;
      }
    }
  }

  /** The whole commit: the writes of every association, then one save per collected model. */
  function CommitTrace(order: seq<string>, assoc: map<string, FieldRef>, widgets: map<string, Widget>): seq<Event>
    requires Bound(order, assoc, widgets)
  {
    WriteEvents(order, assoc, widgets) + SaveAll(FirstByName(Owners(order, assoc)))
  }

  /** A commit saves each collected model exactly once and nothing else. */
  lemma CommitSavesCollectedOnce(order: seq<string>, assoc: map<string, FieldRef>, widgets: map<string, Widget>)
    requires Bound(order, assoc, widgets)
    ensures forall m :: SaveCount(CommitTrace(order, assoc, widgets), m)
                        == if m in FirstByName(Owners(order, assoc)) then 1 else 0
  {
    var ms := FirstByName(Owners(order, assoc));
    var writes := WriteEvents(order, assoc, widgets);
    WriteEventsSpec(order, assoc, widgets);
    FirstByNameDistinct(Owners(order, assoc));
    assert DistinctNames(ms);
    assert forall i, j :: 0 <= i < j < |ms| ==> ms[i] != ms[j];
    SaveAllOnce(ms);
    forall m ensures SaveCount(writes + SaveAll(ms), m) == if m in ms then 1 else 0 {
      SaveCountAppend(writes, SaveAll(ms), m);
      WritesSaveNothing(writes, m);
    }
  }

  /** Every associated model field's owner is represented, by name, among the collected models. */
  lemma CommitCoversOwners(order: seq<string>, assoc: map<string, FieldRef>, widgets: map<string, Widget>)
    requires Bound(order, assoc, widgets)
    ensures forall k :: k in order ==> HasName(FirstByName(Owners(order, assoc)), assoc[k].owner.name)
  {
    var os := Owners(order, assoc);
    OwnersSpec(order, assoc);
    FirstByNameCovers(os);
    forall k | k in order ensures HasName(FirstByName(os), assoc[k].owner.name) {
      var i :| 0 <= i < |order| && order[i] == k;
      assert os[i] == assoc[k].owner;
    }
  }

  /** An owner that shares its name with no other associated owner is saved exactly once by a commit. */
  lemma CommitSavesUniqueOwnerOnce(order: seq<string>, assoc: map<string, FieldRef>, widgets: map<string, Widget>, k: string)
    requires Bound(order, assoc, widgets) && k in order
    requires forall k' :: k' in order && assoc[k'].owner.name == assoc[k].owner.name ==> assoc[k'].owner == assoc[k].owner
    ensures SaveCount(CommitTrace(order, assoc, widgets), assoc[k].owner) == 1
  {
    var os := Owners(order, assoc);
    OwnersSpec(order, assoc);
    FirstByNameKeepsFirstOccurrences(os);
    var i :| 0 <= i < |order| && order[i] == k;
    var f := EarliestWithName(os, i);
    assert os[f] == assoc[order[f]].owner;
    assert os[f] == assoc[k].owner;
    CommitSavesCollectedOnce(order, assoc, widgets);
  }

  /** In a commit every write to a model field comes before every save. */
  lemma CommitWritesBeforeSaves(order: seq<string>, assoc: map<string, FieldRef>, widgets: map<string, Widget>)
    requires Bound(order, assoc, widgets)
    ensures var trace := CommitTrace(order, assoc, widgets);
            forall i, j :: 0 <= i < |trace| && 0 <= j < |trace| && trace[i].Write? && trace[j].Save? ==> i < j
  {
    WriteEventsSpec(order, assoc, widgets);
  }

  /** Loading then committing without editing the form leaves every model field as it was. */
  lemma LoadThenCommitKeepsStore(order: seq<string>, assoc: map<string, FieldRef>, store: Store, widgets: map<string, Widget>)
    requires Bound(order, assoc, widgets)
    ensures forall r :: Get(WrittenBack(order, assoc, LoadSynced(order, assoc, store, widgets), store), r) == Get(store, r)
  {
    var loaded := LoadSynced(order, assoc, store, widgets);
    LoadSyncedSpec(order, assoc, store, widgets);
    WrittenBackSpec(order, assoc, loaded, store);
  }

  /**
   * Committing then reloading gives every form field back the value it
   * committed, as long as no two form fields share a model field.
   */
  lemma CommitThenLoadKeepsForm(order: seq<string>, assoc: map<string, FieldRef>, store: Store, widgets: map<string, Widget>)
    requires Bound(order, assoc, widgets)
    requires forall k, k' :: k in order && k' in order && k != k' ==> assoc[k] != assoc[k']
    ensures forall k :: k in order ==>
      LoadSynced(order, assoc, WrittenBack(order, assoc, widgets, store), widgets)[k] == widgets[k]
  {
    var committed := WrittenBack(order, assoc, widgets, store);
    WrittenBackSpec(order, assoc, widgets, store);
    LoadSyncedSpec(order, assoc, committed, widgets);
  }
}
