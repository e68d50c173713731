/**
 The two map layers of the parcels page (frontend/src/map/map-view-feature-layers.ts): features are moved
 between a base and a selected source one by one, as the collection and the selection change.

 A feature is an object with identity; `uid` stands for it.
 */
module FeatureLayers {
  import opened Common

  datatype Feature = Feature(uid: nat)

  /** Item ids as the page numbers them. */
  datatype FeatureId = FeatureId(n: int)

  type Index = map<FeatureId, Feature>

  datatype Layers = Layers(base: set<Feature>, selected: set<Feature>, index: Index, selectedId: Option<FeatureId>,
                           pulsing: bool, reducedMotion: bool)

  datatype Command = SetFeatures(next: Index) | SelectFeatureId(id: Option<FeatureId>) | ReduceMotion(on: bool)

  const EMPTY := Layers({}, {}, map[], None, false, false)

  ghost predicate Injective(m: Index) { forall i, j :: i in m && j in m && m[i] == m[j] ==> i == j }

  // ---------- what the page does ----------

  /** Ids whose object differs between two collections, or that only the first one has. */
  function Outdated(from: Index, to: Index): set<FeatureId> { set id | id in from && (id !in to || to[id] != from[id]) }

  function Images(m: Index, ids: set<FeatureId>): set<Feature>
    requires ids <= m.Keys
  {
    set id | id in ids :: m[id]
  }

  function Sync(l: Layers): Layers { l.(pulsing := l.selectedId.Some? && !l.reducedMotion) }

  function AfterSetFeatures(l: Layers, next: Index): Layers {
    var gone := Images(l.index, Outdated(l.index, next));
    var fresh' := Outdated(next, l.index);
    var chosen := set id | id in fresh' && l.selectedId == Some(id);
    Sync(l.(base := l.base - gone + Images(next, fresh' - chosen),
            selected := l.selected - gone + Images(next, chosen),
            index := next,
            selectedId := if l.selectedId.Some? && l.selectedId.value !in next then None else l.selectedId))
  }

  function Deselected(l: Layers): Layers {
    if l.selectedId.Some? && l.selectedId.value in l.index then
      var previous := l.index[l.selectedId.value];
      l.(selected := l.selected - {previous}, base := l.base + {previous})
    else l
  }

  function AfterSelect(l: Layers, id: Option<FeatureId>): Layers {
    if l.selectedId == id then l
    else
      var d := Deselected(l);
      if id.Some? && id.value in l.index then
        var next := l.index[id.value];
        Sync(d.(base := d.base - {next}, selected := d.selected + {next}, selectedId := id))
      else Sync(d.(selectedId := None))
  }

  function Apply(l: Layers, c: Command): Layers {
    match c
    case SetFeatures(next) => AfterSetFeatures(l, next)
    case SelectFeatureId(id) => AfterSelect(l, id)
    case ReduceMotion(on) => Sync(l.(reducedMotion := on))
  }

  class MapViewFeatureLayers {
    var base: set<Feature>
    var selected: set<Feature>
    var featuresById: Index
    var selectedFeatureId: Option<FeatureId>
    var pulseTimer: bool
    var reducedMotion: bool

    function Value(): Layers
      reads this
    {
      Layers(base, selected, featuresById, selectedFeatureId, pulseTimer, reducedMotion)
    }

    constructor ()
      ensures Value() == EMPTY
    {
      base, selected, featuresById, selectedFeatureId, pulseTimer, reducedMotion := {}, {}, map[], None, false, false;
    }

    method SyncSelectionPulseState()
      modifies this`pulseTimer
      ensures Value() == Sync(old(Value()))
    {
      if selectedFeatureId.None? || reducedMotion {
        if pulseTimer { pulseTimer := false; }
        return;
      }
      if !pulseTimer { pulseTimer := true; }
    }

    /** `addFeature` on the source that the id belongs on. */
    method AddFeatureToActiveSource(id: FeatureId, f: Feature)
      requires f !in base && f !in selected
      modifies this`base, this`selected
      ensures base == old(base) + (if selectedFeatureId == Some(id) then {} else {f})
      ensures selected == old(selected) + (if selectedFeatureId == Some(id) then {f} else {})
    {
      if selectedFeatureId.Some? && id == selectedFeatureId.value {
        selected := selected + {f};
        return;
      }
      base := base + {f};
    }

    /** First loop of `setFeatures`: objects that are no longer indexed under the same id leave both sources. */
    method RemoveOutdated(next: Index)
      modifies this`base, this`selected
      ensures base == old(base) - Images(featuresById, Outdated(featuresById, next))
      ensures selected == old(selected) - Images(featuresById, Outdated(featuresById, next))
    {
      var todo := featuresById.Keys;
      ghost var gone := {};
      while todo != {}
        invariant todo <= featuresById.Keys
        invariant gone == set id | id in Outdated(featuresById, next) && id !in todo :: featuresById[id]
        invariant base == old(base) - gone && selected == old(selected) - gone
        decreases todo
      {
        var id :| id in todo;
        var existing := featuresById[id];
        if id !in next || next[id] != existing {
          base, selected := base - {existing}, selected - {existing};
          gone := gone + {existing};
        }
        todo := todo - {id};
      }
    }

    /** Second loop of `setFeatures`: new objects go to the source their id belongs on. */
    method AddNew(next: Index)
      requires Injective(next)
      requires forall id :: id in Outdated(next, featuresById) ==> next[id] !in base && next[id] !in selected
      modifies this`base, this`selected
      ensures base == old(base) + Added(selectedFeatureId, next, Outdated(next, featuresById), false)
      ensures selected == old(selected) + Added(selectedFeatureId, next, Outdated(next, featuresById), true)
    {
      var todo := next.Keys;
      ghost var done: set<FeatureId> := {};
      while todo != {}
        invariant todo <= next.Keys && done == Outdated(next, featuresById) - todo
        invariant base == old(base) + Added(selectedFeatureId, next, done, false)
        invariant selected == old(selected) + Added(selectedFeatureId, next, done, true)
        decreases todo
      {
        var id :| id in todo;
        if id !in featuresById || featuresById[id] != next[id] {
          AddFeatureToActiveSource(id, next[id]);
          AddedOne(selectedFeatureId, next, done, id);
          done := done + {id};
        }
        todo := todo - {id};
      }
      assert done == Outdated(next, featuresById);
    }

    method SetFeatures(next: Index)
      requires Partition(Value()) && Injective(next)
      modifies this
      ensures Value() == AfterSetFeatures(old(Value()), next)
    {
      ghost var was := Value();
      RemoveOutdated(next);
      AddNew(next);
      AddedAll(was, next);
      featuresById := next;
      if selectedFeatureId.Some? && selectedFeatureId.value !in featuresById {
        selectedFeatureId := None;
      }
      SyncSelectionPulseState();
    }

    method SelectFeatureId(id: Option<FeatureId>)
      requires Partition(Value())
      modifies this
      ensures Value() == AfterSelect(old(Value()), id)
    {
      if selectedFeatureId == id { return; }
      if selectedFeatureId.Some? && selectedFeatureId.value in featuresById {
        var previous := featuresById[selectedFeatureId.value];
        selected := selected - {previous};
        assert previous !in base;
        base := base + {previous};
      }
      selectedFeatureId := id;
      if id.Some? {
        if id.value in featuresById {
          var next := featuresById[id.value];
          base := base - {next};
          assert next !in selected;
          selected := selected + {next};
        } else {
          selectedFeatureId := None;
        }
      }
      SyncSelectionPulseState();
    }
  }

  /** The objects of `ids` that go to the selected source, or to the base one. */
  ghost function Added(selectedId: Option<FeatureId>, next: Index, ids: set<FeatureId>, chosen: bool): set<Feature>
    requires ids <= next.Keys
  {
    set id | id in ids && (selectedId == Some(id)) == chosen :: next[id]
  }

  lemma AddedOne(selectedId: Option<FeatureId>, next: Index, ids: set<FeatureId>, id: FeatureId)
    requires ids <= next.Keys && id in next
    ensures forall chosen: bool {:trigger Added(selectedId, next, ids, chosen)} ::
              Added(selectedId, next, ids + {id}, chosen)
              == Added(selectedId, next, ids, chosen) + (if (selectedId == Some(id)) == chosen then {next[id]} else {})
  {
  }

  lemma AddedAll(l: Layers, next: Index)
    ensures var fresh' := Outdated(next, l.index);
            var chosen := set id | id in fresh' && l.selectedId == Some(id);
            && Added(l.selectedId, next, fresh', true) == Images(next, chosen)
            && Added(l.selectedId, next, fresh', false) == Images(next, fresh' - chosen)
  {
  }

  // ---------- what it must amount to ----------

  /**
   The layers drawn from scratch: the selected source holds the selected feature or nothing, the base
   source all the others, and the pulse runs iff something is selected and motion is not reduced.
   */
  function Redraw(index: Index, selectedId: Option<FeatureId>, reducedMotion: bool): Layers {
    var id := Present(selectedId, index);
    var selected := if id.Some? then {index[id.value]} else {};
    Layers(index.Values - selected, selected, index, id, id.Some? && !reducedMotion, reducedMotion)
  }

  ghost predicate Partition(l: Layers) {
    && Injective(l.index)
    && l.base !! l.selected
    && l.base + l.selected == l.index.Values
    && (l.selectedId.Some? ==> l.selectedId.value in l.index)
    && l.selected == (if l.selectedId.Some? then {l.index[l.selectedId.value]} else {})
    && (l.pulsing <==> l.selectedId.Some? && !l.reducedMotion)
  }

  lemma RedrawIsPartition(l: Layers)
    ensures Partition(l) <==> Injective(l.index) && l == Redraw(l.index, l.selectedId, l.reducedMotion)
  {
  }

  lemma SetFeaturesIsRedraw(l: Layers, next: Index)
    requires Partition(l) && Injective(next)
    ensures AfterSetFeatures(l, next) == Redraw(next, l.selectedId, l.reducedMotion)
  {
  }

  lemma SelectIsRedraw(l: Layers, id: Option<FeatureId>)
    requires Partition(l)
    ensures AfterSelect(l, id) == Redraw(l.index, id, l.reducedMotion)
  {
  }

  // ---------- whole sessions ----------

  function Run(commands: seq<Command>): Layers {
    if commands == [] then EMPTY else Apply(Run(commands[..|commands| - 1]), commands[|commands| - 1])
  }

  datatype Wish = Wish(index: Index, selectedId: Option<FeatureId>, reducedMotion: bool)

  function Present(id: Option<FeatureId>, index: Index): Option<FeatureId> {
    if id.Some? && id.value in index then id else None
  }

  /** The collection, the selection and the motion setting that the commands leave, with no layers at all. */
  function Wanted(commands: seq<Command>): Wish {
    if commands == [] then Wish(map[], None, false)
    else
      var w := Wanted(commands[..|commands| - 1]);
      match commands[|commands| - 1]
      case SetFeatures(next) => Wish(next, Present(w.selectedId, next), w.reducedMotion)
      case SelectFeatureId(id) => Wish(w.index, Present(id, w.index), w.reducedMotion)
      case ReduceMotion(on) => Wish(w.index, w.selectedId, on)
  }

  ghost predicate Proper(commands: seq<Command>) {
    forall k :: 0 <= k < |commands| && commands[k].SetFeatures? ==> Injective(commands[k].next)
  }

  /**
   After any session the layers are what drawing the current collection and selection from scratch would
   give, although features were only ever moved one by one: a partition of the indexed features, with the
   selected one alone on top - also when objects are replaced or come back under another id.
   */
  lemma {:induction false} LayersAreAPartition(commands: seq<Command>)
    requires Proper(commands)
    ensures Partition(Run(commands))
    ensures var w := Wanted(commands);
            && Run(commands) == Redraw(w.index, w.selectedId, w.reducedMotion)
            && w.selectedId == Present(w.selectedId, w.index)
  {
    if commands == [] {
      assert Redraw(map[], None, false) == EMPTY;
    } else {
      var n := |commands| - 1;
      LayersAreAPartition(commands[..n]);
      var l := Run(commands[..n]);
      match commands[n] {
        case SetFeatures(next) => SetFeaturesIsRedraw(l, next);
        case SelectFeatureId(id) => SelectIsRedraw(l, id);
        case ReduceMotion(on) =>
      }
      RedrawIsPartition(Run(commands));
    }
  }

  // ---------- maps that are not injective ----------

  /**
   An object is added while a source holds it: OpenLayers stops with an assertion if that is the same
   source, and the object is drawn twice if it is the other one.
   */
  ghost predicate AddsTwice(l: Layers, next: Index) {
    var gone, fresh' := Images(l.index, Outdated(l.index, next)), Outdated(next, l.index);
    || (exists i :: i in fresh' && next[i] in l.base + l.selected - gone)
    || (exists i, j :: i in fresh' && j in fresh' && i != j && next[i] == next[j])
  }

  /** `setFeatures` never does that iff the new collection holds every object under one id only. */
  lemma AddsTwiceIffNotInjective(l: Layers, next: Index)
    requires Partition(l)
    ensures AddsTwice(l, next) <==> !Injective(next)
  {
  }
}
