/** The component registry and instance store: the four process-wide tables
    of `ComponentManager` and the operations that update them. */
module ComponentManager {
  import opened Types
  import opened AttrName
  import opened SeqUtil
  import opened BuildTrace

  /** A live component object: `new newFunc(id)`. Its identity and class
      name never change; its fields and root container are set in place. */
  class Instance {
    const id: int
    const component: string
    var fields: map<string, Value>
    var root: Option<DisplayObject>

    constructor (component: string, id: int, defaults: map<string, Value>)
      ensures this.id == id && this.component == component
      ensures fields == defaults && root == None
    {
      this.id := id;
      this.component := component;
      fields := defaults;
      root := None;
    }
  }

  /** The identity the component constructor gives an instance: the
      requested id, or a newly allocated one for the sentinel -1. */
  function IdentityFor(id: int, newId: int): int
  {
    if id == -1 then newId else id
  }

  /** The active-property record a registration starts from. */
  function EmptyProperties(): ActiveProperties
  {
    ActiveProperties({}, {}, {})
  }

  /** `node.check.some(v => !v(own))`: the scan for a guard that fails. */
  function SomeFails(checks: seq<Context -> bool>, own: Context): (b: bool)
    ensures b <==> exists i :: 0 <= i < |checks| && !checks[i](own)
  {
    if checks == [] then false
    else if !checks[0](own) then true
    else
      assert forall i :: 1 <= i < |checks| ==> checks[i] == checks[1..][i - 1];
      SomeFails(checks[1..], own)
  }

  /** The build goes ahead exactly when every guard holds for the owner. */
  function GuardsPass(checks: seq<Context -> bool>, own: Context): (b: bool)
    ensures b <==> forall i :: 0 <= i < |checks| ==> checks[i](own)
  {
    !SomeFails(checks, own)
  }

  /** Index of the first directive whose name has no registered binder
      (`|ds|` when every one is known). */
  function FirstUnknown(ds: seq<Directive>, known: set<string>): (k: nat)
    ensures k <= |ds|
    ensures forall i :: 0 <= i < k ==> ds[i].name in known
    ensures k < |ds| ==> ds[k].name !in known
  {
    if ds == [] then 0
    else if ds[0].name !in known then 0
    else 1 + FirstUnknown(ds[1..], known)
  }

  lemma {:induction false} FirstUnknownAt(ds: seq<Directive>, known: set<string>, k: nat)
    requires k <= |ds|
    requires forall i :: 0 <= i < k ==> ds[i].name in known
    requires k < |ds| ==> ds[k].name !in known
    ensures FirstUnknown(ds, known) == k
  {
    if k > 0 {
      FirstUnknownAt(ds[1..], known, k - 1);
    }
  }

  /** How a build ends: guarded out (no instance, not an error), built, or
      aborted by a directive whose binder is not registered. */
  datatype BuildResult = GuardedOut | Built(instance: Instance) | UnknownDirective(name: string)

  ghost predicate Consistent(registed: set<string>, registers: map<string, Definition>, instances: map<int, Instance>,
                             nameIdMap: map<string, seq<int>>, order: seq<string>)
  {
    // the three name-keyed tables stay in step
    && registed == registers.Keys == nameIdMap.Keys
    // a definition is stored under its constructor's name
    && (forall n :: n in registers ==> registers[n].ctor.name == n)
    // every id in a bucket is a key of the store
    && (forall n, x :: n in nameIdMap && x in nameIdMap[n] ==> x in instances)
    // an instance is stored under its own identity
    && (forall id :: id in instances ==> instances[id].id == id)
    && Distinct(order)
    && (forall n :: n in order <==> n in registers)
  }

  /** Registration keeps the tables consistent: the name gets its
      definition and an empty bucket, and joins the order if it is new. */
  lemma RegisterKeepsConsistent(registed: set<string>, registers: map<string, Definition>, instances: map<int, Instance>,
                                nameIdMap: map<string, seq<int>>, order: seq<string>, d: Definition)
    requires Consistent(registed, registers, instances, nameIdMap, order)
    ensures Consistent(registed + {d.ctor.name}, registers[d.ctor.name := d], instances, nameIdMap[d.ctor.name := []],
                       if d.ctor.name in registers then order else order + [d.ctor.name])
  {
    if d.ctor.name !in registers {
      DistinctAppend(order, d.ctor.name);
    }
  }

  /** Cancelling a name that was just registered for the first time gives
      back the tables and the order as they were before the registration
      (what `registerComponent` then `cancelComponent` leave behind). */
  lemma {:induction false} RegisterCancelRestores(registed: set<string>, registers: map<string, Definition>, instances: map<int, Instance>,
                                                  nameIdMap: map<string, seq<int>>, order: seq<string>, d: Definition)
    requires Consistent(registed, registers, instances, nameIdMap, order)
    requires d.ctor.name !in registers
    ensures (registed + {d.ctor.name}) - {d.ctor.name} == registed
    ensures registers[d.ctor.name := d] - {d.ctor.name} == registers
    ensures nameIdMap[d.ctor.name := []] - {d.ctor.name} == nameIdMap
    ensures Remove(order + [d.ctor.name], d.ctor.name) == order
  {
    var name := d.ctor.name;
    MapAddRemove(registers, name, d);
    MapAddRemove(nameIdMap, name, []);
    assert name !in order;
    RemoveAppend(order, [name], name);
    RemoveAbsent(order, name);
    assert Remove([name], name) == [];
  }

  /** Deleting an instance that a build has just stored under a fresh
      identity gives back the store and every bucket as they were before
      the build (what `buildComponent` then `deleteComponent` leave behind). */
  lemma {:induction false} BuildDeleteRestores(registed: set<string>, registers: map<string, Definition>, instances: map<int, Instance>,
                                               nameIdMap: map<string, seq<int>>, order: seq<string>,
                                               name: string, inst: Instance)
    requires Consistent(registed, registers, instances, nameIdMap, order)
    requires name in nameIdMap && inst.id !in instances
    ensures instances[inst.id := inst] - {inst.id} == instances
    ensures var after := nameIdMap[name := nameIdMap[name] + [inst.id]];
      forall n :: n in after ==> Remove(after[n], inst.id) == nameIdMap[n]
  {
    var after := nameIdMap[name := nameIdMap[name] + [inst.id]];
    forall n | n in after ensures Remove(after[n], inst.id) == nameIdMap[n] {
      assert inst.id !in nameIdMap[n];
      RemoveAbsent(nameIdMap[n], inst.id);
      if n == name {
        RemoveAppend(nameIdMap[n], [inst.id], inst.id);
        assert Remove([inst.id], inst.id) == [];
      }
    }
  }

  class Manager {
    var registed: set<string>
    var registers: map<string, Definition>
    var instances: map<int, Instance>
    var nameIdMap: map<string, seq<int>>
    /** The insertion order of `registers`, which a JS `Map` iterates in. */
    var order: seq<string>
    /** Every call made into a collaborator, oldest first. */
    ghost var trace: seq<Event>

    ghost predicate Valid()
      reads this
    {
      Consistent(registed, registers, instances, nameIdMap, order)
    }

    /** The four tables and the registration order, for "nothing else changed". */
    ghost function Tables(): (set<string>, map<string, Definition>, map<int, Instance>, map<string, seq<int>>, seq<string>)
      reads this
    {
      (registed, registers, instances, nameIdMap, order)
    }

    constructor ()
      ensures Valid()
      ensures registed == {} && registers == map[] && instances == map[] && nameIdMap == map[] && order == []
      ensures trace == []
    {
      registed, registers, instances, nameIdMap, order := {}, map[], map[], map[], [];
      trace := [];
    }

    /** `hasComponent`: whether `name` is registered. */
    predicate HasComponent(name: string)
      reads this
      ensures Valid() ==> (HasComponent(name) <==> name in registers && name in nameIdMap)
    {
      name in registed
    }

    /** `getInstance`: the stored instance, absent for an unknown id. */
    function GetInstance(id: int): (r: Option<Instance>)
      reads this
      ensures r.Some? <==> id in instances
      ensures r.Some? ==> r.value == instances[id]
      ensures Valid() && r.Some? ==> r.value.id == id
    {
      if id in instances then Some(instances[id]) else None
    }

    /** `registerComponent`: stores the definition with an empty
        active-property record and an empty id bucket (dropping any ids the
        name had), marks the name known and lets the active-property manager
        take over the record. */
    method RegisterComponent(ctor: Constructor, node: ComponentNode)
      requires Valid()
      modifies this
      ensures Valid()
      ensures HasComponent(ctor.name)
      ensures registers == old(registers)[ctor.name := Definition(node, ctor, EmptyProperties())]
      ensures nameIdMap == old(nameIdMap)[ctor.name := []]
      ensures registed == old(registed) + {ctor.name}
      ensures instances == old(instances)
      ensures order == if ctor.name in old(registers) then old(order) else old(order) + [ctor.name]
      ensures trace == old(trace) + [InitActiveProperty(ctor.name), FlushPending(ctor.name)]
    {
      var name := ctor.name;
      var d := Definition(node, ctor, EmptyProperties());
      RegisterKeepsConsistent(registed, registers, instances, nameIdMap, order, d);
      if name !in registers {
        order := order + [name];
      }
      registers := registers[name := d];
      nameIdMap := nameIdMap[name := []];
      registed := registed + {name};
      trace := trace + [InitActiveProperty(name), FlushPending(name)];
    }

    /** `cancelComponent`: forgets the definition, the name and its bucket;
        the instances themselves stay in the store. */
    method CancelComponent(name: string)
      requires Valid()
      modifies this
      ensures Valid()
      ensures !HasComponent(name)
      ensures registers == old(registers) - {name}
      ensures registed == old(registed) - {name}
      ensures nameIdMap == old(nameIdMap) - {name}
      ensures instances == old(instances)
      ensures order == Remove(old(order), name)
      ensures trace == old(trace)
    {
      RemoveDistinct(order, name);
      registers := registers - {name};
      registed := registed - {name};
      nameIdMap := nameIdMap - {name};
      order := Remove(order, name);
    }

    /** `buildComponent`: the guarded instantiation pipeline. `known` is the
        set of directive names with a registered binder, `watches` what the
        watch manager holds for the component, `display` what the display
        builder returns, `newId` the id the constructor allocates for -1. */
    method BuildComponent(own: Context, node: ComponentNode, known: set<string>, watches: seq<Watch>,
                          display: Option<DisplayObject>, id: int, newId: int)
      returns (r: BuildResult)
      requires Valid()
      requires GuardsPass(node.check, own) ==> node.name in registers
      modifies this
      ensures Valid()
      ensures !GuardsPass(node.check, own) ==> r == GuardedOut && Tables() == old(Tables()) && trace == old(trace)
      ensures GuardsPass(node.check, own) ==>
        var def := old(registers)[node.name];
        var identity := IdentityFor(id, newId);
        var k := FirstUnknown(node.directives, known);
        var front := FrontEvents(identity, id, def, node, own);
        && (k < |node.directives| ==>
              && r == UnknownDirective(node.directives[k].name)
              && Tables() == old(Tables())
              && trace == old(trace) + front + DirectiveEvents(node.directives[..k], own) + DirectiveWarning(node.directives[k], own))
        && (k == |node.directives| ==>
              && r.Built? && fresh(r.instance)
              && r.instance.id == identity && r.instance.component == node.name
              && r.instance.fields == AssignAll(Snapshot(def.ctor, id, own), NormalPairs(node.normals, own))
              && r.instance.root == display
              && instances == old(instances)[identity := r.instance]
              && nameIdMap == old(nameIdMap)[node.name := old(nameIdMap)[node.name] + [identity]]
              && registed == old(registed) && registers == old(registers) && order == old(order)
              && trace == old(trace) + BuildEvents(identity, id, def, node, own, watches, display))
    {
      if !GuardsPass(node.check, own) {
        return GuardedOut;
      }
      r := Build(own, node, registers[node.name], known, watches, display, id, newId);
    }

    /** The pipeline once the guards have passed (phases 1 to 14). */
    method Build(own: Context, node: ComponentNode, def: Definition, known: set<string>, watches: seq<Watch>,
                 display: Option<DisplayObject>, id: int, newId: int)
      returns (r: BuildResult)
      requires Valid()
      requires node.name in registers && def == registers[node.name]
      modifies this
      ensures Valid()
      ensures
        var identity := IdentityFor(id, newId);
        var k := FirstUnknown(node.directives, known);
        var front := FrontEvents(identity, id, def, node, own);
        && (k < |node.directives| ==>
              && r == UnknownDirective(node.directives[k].name)
              && Tables() == old(Tables())
              && trace == old(trace) + front + DirectiveEvents(node.directives[..k], own) + DirectiveWarning(node.directives[k], own))
        && (k == |node.directives| ==>
              && r.Built? && fresh(r.instance)
              && r.instance.id == identity && r.instance.component == node.name
              && r.instance.fields == AssignAll(Snapshot(def.ctor, id, own), NormalPairs(node.normals, own))
              && r.instance.root == display
              && instances == old(instances)[identity := r.instance]
              && nameIdMap == old(nameIdMap)[node.name := old(nameIdMap)[node.name] + [identity]]
              && registed == old(registed) && registers == old(registers) && order == old(order)
              && trace == old(trace) + BuildEvents(identity, id, def, node, own, watches, display))
    {
      var build := Instantiate(own, node, def, id, newId);
      var k := BindDirectives(node.directives, own, known);
      if k < |node.directives| {
        return UnknownDirective(node.directives[k].name);
      }
      Install(build, node.name, def, watches, display);
      AppendRegroup(old(trace), FrontEvents(build.id, id, def, node, own), DirectiveEvents(node.directives, own),
                    BackEvents(build.id, def, watches, display));
      r := Built(build);
    }

    /** Phases 1 to 4: construction, inherited-data copy, view-model
        initialisation and attribute assignment. */
    method Instantiate(own: Context, node: ComponentNode, def: Definition, id: int, newId: int)
      returns (build: Instance)
      modifies this`trace
      ensures fresh(build)
      ensures build.id == IdentityFor(id, newId) && build.component == def.ctor.name
      ensures build.fields == AssignAll(Snapshot(def.ctor, id, own), NormalPairs(node.normals, own))
      ensures build.root == None
      ensures trace == old(trace) + FrontEvents(IdentityFor(id, newId), id, def, node, own)
    {
      var identity := IdentityFor(id, newId);
      build := new Instance(def.ctor.name, identity, def.ctor.defaults);
      trace := trace + [Construct(identity)];
      ghost var copies: seq<Event> := [];
      if id > 0 {
        CopyInheritedData(build, def.ctor.inheritedData, own);
        copies := CopyEvents(def.ctor.inheritedData, own);
      }
      assert build.fields == Snapshot(def.ctor, id, own);
      trace := trace + [InitViewModel(identity, build.fields)];
      AssignNormals(build, node.name, node.normals, own);
      AppendRegroup4(old(trace), [Construct(identity)], copies, [InitViewModel(identity, Snapshot(def.ctor, id, own))],
                     NormalEvents(node.name, node.normals, own));
    }

    /** Phases 6 to 14: init hook, condition binding, store and index
        registration, watches, then the display stage. */
    method Install(build: Instance, name: string, def: Definition, watches: seq<Watch>, display: Option<DisplayObject>)
      requires Valid()
      requires name in nameIdMap
      modifies this, build`root
      ensures Valid()
      ensures build.root == display
      ensures instances == old(instances)[build.id := build]
      ensures nameIdMap == old(nameIdMap)[name := old(nameIdMap)[name] + [build.id]]
      ensures registed == old(registed) && registers == old(registers) && order == old(order)
      ensures trace == old(trace) + BackEvents(build.id, def, watches, display)
    {
      Store(build, name, def, watches);
      Materialize(build, def, display);
      AppendRegroup2(old(trace), BindEvents(build.id, def, watches), MaterializeEvents(build.id, def, display));
    }

    /** Phases 6 to 9: init hook, condition binding, store and index
        registration, watches. */
    method Store(build: Instance, name: string, def: Definition, watches: seq<Watch>)
      requires Valid()
      requires name in nameIdMap
      modifies this`instances, this`nameIdMap, this`trace
      ensures Valid()
      ensures instances == old(instances)[build.id := build]
      ensures nameIdMap == old(nameIdMap)[name := old(nameIdMap)[name] + [build.id]]
      ensures registed == old(registed) && registers == old(registers) && order == old(order)
      ensures trace == old(trace) + BindEvents(build.id, def, watches)
    {
      var identity := build.id;
      BindHookAndConditions(identity, def);
      Record(build, name);
      AttachWatches(identity, watches);
      AppendRegroup4(old(trace), if def.ctor.hasInit then [InitHook(identity)] else [], ConditionEvents(def.node.condition, identity),
                     [StoreInstance(identity)], WatchEvents(identity, watches));
    }

    /** Phase 8: the instance goes into the store under its identity and its
        identity at the end of its component's bucket. */
    method Record(build: Instance, name: string)
      requires Valid()
      requires name in nameIdMap
      modifies this`instances, this`nameIdMap, this`trace
      ensures Valid()
      ensures instances == old(instances)[build.id := build]
      ensures nameIdMap == old(nameIdMap)[name := old(nameIdMap)[name] + [build.id]]
      ensures trace == old(trace) + [StoreInstance(build.id)]
    {
      instances := instances[build.id := build];
      nameIdMap := nameIdMap[name := nameIdMap[name] + [build.id]];
      trace := trace + [StoreInstance(build.id)];
    }

    /** Phases 6 and 7: the init hook, when the prototype has one, then the
        condition entries. */
    method BindHookAndConditions(identity: int, def: Definition)
      modifies this`trace
      ensures trace == old(trace) + (if def.ctor.hasInit then [InitHook(identity)] else []) + ConditionEvents(def.node.condition, identity)
    {
      if def.ctor.hasInit {
        trace := trace + [InitHook(identity)];
      }
      BindConditions(def.node.condition, identity);
    }

    /** Phases 10 to 14: display build and attach, create hook and
        repeat-index reset. */
    method Materialize(build: Instance, def: Definition, display: Option<DisplayObject>)
      modifies this`trace, build`root
      ensures build.root == display
      ensures trace == old(trace) + MaterializeEvents(build.id, def, display)
    {
      var identity := build.id;
      trace := trace + [BuildDisplay(identity, def.node.name)];
      build.root := display;
      trace := trace + [SetRoot(identity, display)];
      if display.Some? {
        trace := trace + [AddToContainer(display.value)];
      }
      if def.ctor.hasCreate {
        trace := trace + [CreateHook(identity)];
      }
      trace := trace + [ResetRepeat(identity)];
    }

    /** Phase 2 (`newFunc['$$data'].forEach`): `build[v] = own[v]` for each
        inherited field in turn. */
    method CopyInheritedData(build: Instance, names: seq<string>, own: Context)
      modifies this`trace, build`fields
      ensures build.fields == AssignAll(old(build.fields), CopyPairs(names, own))
      ensures trace == old(trace) + CopyEvents(names, own)
    {
      ghost var pairs := CopyPairs(names, own);
      var i := 0;
      while i < |names|
        invariant 0 <= i <= |names|
        invariant AssignAll(build.fields, pairs[i..]) == AssignAll(old(build.fields), pairs)
        invariant trace == old(trace) + CopyEvents(names[..i], own)
      {
        var f := names[i];
        assert pairs[i..] == [pairs[i]] + pairs[i + 1..];
        build.fields := build.fields[f := Lookup(own, f)];
        assert names[..i + 1][..i] == names[..i];
        trace := trace + [CopyData(f, Lookup(own, f))];
        i := i + 1;
      }
      assert names[..i] == names;
    }

    /** Phase 4 (`node.normals.forEach`): each attribute is renamed, evaluated
        against the owner, warned about when undefined and assigned. */
    method AssignNormals(build: Instance, component: string, normals: seq<Normal>, own: Context)
      modifies this`trace, build`fields
      ensures build.fields == AssignAll(old(build.fields), NormalPairs(normals, own))
      ensures trace == old(trace) + NormalEvents(component, normals, own)
    {
      ghost var pairs := NormalPairs(normals, own);
      var j := 0;
      while j < |normals|
        invariant 0 <= j <= |normals|
        invariant AssignAll(build.fields, pairs[j..]) == AssignAll(old(build.fields), pairs)
        invariant trace == old(trace) + NormalEvents(component, normals[..j], own)
      {
        var attr := normals[j];
        var parsedName := Camelize(attr.name);
        var calcValue := attr.value(own);
        assert pairs[j..] == [pairs[j]] + pairs[j + 1..];
        assert normals[..j + 1][..j] == normals[..j];
        if calcValue == Undefined {
          trace := trace + [WarnNormal(component, parsedName)];
        }
        build.fields := build.fields[parsedName := calcValue];
        trace := trace + [AssignNormal(parsedName, calcValue)];
        j := j + 1;
      }
      assert normals[..j] == normals;
    }

    /** Phase 5 (`node.directives.forEach`): each expression is evaluated
        against the owner and the directive bound; the first directive
        without a binder aborts the loop. Returns how many were bound. */
    method BindDirectives(ds: seq<Directive>, own: Context, known: set<string>) returns (k: nat)
      modifies this`trace
      ensures k == FirstUnknown(ds, known)
      ensures k == |ds| ==> trace == old(trace) + DirectiveEvents(ds, own)
      ensures k < |ds| ==> trace == old(trace) + DirectiveEvents(ds[..k], own) + DirectiveWarning(ds[k], own)
    {
      k := 0;
      while k < |ds|
        invariant 0 <= k <= |ds|
        invariant forall i :: 0 <= i < k ==> ds[i].name in known
        invariant trace == old(trace) + DirectiveEvents(ds[..k], own)
      {
        var d := ds[k];
        WarnDirectiveIfUndefined(d, own);
        if d.name !in known {
          FirstUnknownAt(ds, known, k);
          return;
        }
        trace := trace + [BindDirective(d.name, d.argument, OwnerCtx)];
        DirectiveEventsSnoc(ds, k, own);
        k := k + 1;
      }
      assert ds[..k] == ds;
      FirstUnknownAt(ds, known, k);
    }

    /** A directive's expression is evaluated against the owner; an undefined
        result is warned about under the directive's name. */
    method WarnDirectiveIfUndefined(d: Directive, own: Context)
      modifies this`trace
      ensures trace == old(trace) + DirectiveWarning(d, own)
    {
      if d.value(own) == Undefined {
        trace := trace + [WarnDirective(d.name, d.argument)];
      }
    }

    /** The condition entries, bound with the instance itself as context. */
    method BindConditions(conds: seq<Directive>, identity: int)
      modifies this`trace
      ensures trace == old(trace) + ConditionEvents(conds, identity)
    {
      var c := 0;
      while c < |conds|
        invariant 0 <= c <= |conds|
        invariant trace == old(trace) + ConditionEvents(conds[..c], identity)
      {
        assert conds[..c + 1][..c] == conds[..c];
        trace := trace + [BindCondition(conds[c].argument, SelfCtx(identity))];
        c := c + 1;
      }
      assert conds[..c] == conds;
    }

    /** Phase 9 (`getWatchs(name).forEach`): each watch becomes a dependence
        of the new instance. */
    method AttachWatches(identity: int, watches: seq<Watch>)
      modifies this`trace
      ensures trace == old(trace) + WatchEvents(identity, watches)
    {
      var w := 0;
      while w < |watches|
        invariant 0 <= w <= |watches|
        invariant trace == old(trace) + WatchEvents(identity, watches[..w])
      {
        assert watches[..w + 1][..w] == watches[..w];
        trace := trace + [AttachWatch(identity, watches[w].property, watches[w].func)];
        w := w + 1;
      }
      assert watches[..w] == watches;
    }

    /** `buildRootContainer`: rebuilds only the display sub-tree of a stored
        instance from its definition's template; the tables stay as they are. */
    method BuildRootContainer(id: int, display: Option<DisplayObject>)
      requires Valid()
      requires id in instances && instances[id].component in registers
      modifies this, instances[id]
      ensures Valid()
      ensures Tables() == old(Tables())
      ensures instances[id].root == display
      ensures instances[id].fields == old(instances[id].fields)
      ensures trace == old(trace) + DisplayEvents(id, registers[instances[id].component].node.name, display) + [ResetRepeat(id)]
    {
      var instance := instances[id];
      var registe := registers[instance.component];
      trace := trace + [BuildDisplay(id, registe.node.name)];
      instance.root := display;
      trace := trace + [SetRoot(id, display)];
      if display.Some? {
        trace := trace + [AddToContainer(display.value)];
      }
      trace := trace + [ResetRepeat(id)];
    }

    /** `deleteComponent`: deletes the instance's display sub-tree, removes
        the instance from the store and its id from every bucket. */
    method DeleteComponent(id: int)
      requires Valid()
      requires id in instances && instances[id].root.Some?
      modifies this
      ensures Valid()
      ensures instances == old(instances) - {id}
      ensures nameIdMap.Keys == old(nameIdMap).Keys
      ensures forall n :: n in nameIdMap ==> nameIdMap[n] == Remove(old(nameIdMap)[n], id)
      ensures registed == old(registed) && registers == old(registers) && order == old(order)
      ensures trace == old(trace) + [DeleteDisplay(old(instances)[id].root.value.displayId)]
    {
      var rootId := instances[id].root.value.displayId;
      trace := trace + [DeleteDisplay(rootId)];
      instances := instances - {id};
      ghost var before := nameIdMap;
      var todo := nameIdMap.Keys;
      while todo != {}
        invariant todo <= before.Keys
        invariant nameIdMap.Keys == before.Keys
        invariant forall n :: n in nameIdMap ==> nameIdMap[n] == if n in todo then before[n] else Remove(before[n], id)
        decreases todo
        modifies this`nameIdMap
      {
        var n :| n in todo;
        nameIdMap := nameIdMap[n := Remove(nameIdMap[n], id)];
        todo := todo - {n};
      }
    }

    /** `deleteComponentRootCootainer`: deletes the display sub-tree but
        keeps the instance and every table as it is. */
    method DeleteComponentRootContainer(id: int)
      requires Valid()
      requires id in instances && instances[id].root.Some?
      modifies this`trace
      ensures Valid()
      ensures Tables() == old(Tables())
      ensures trace == old(trace) + [DeleteDisplay(instances[id].root.value.displayId)]
    {
      var rootId := instances[id].root.value.displayId;
      trace := trace + [DeleteDisplay(rootId)];
    }

    /** `getAllRegisters`: every registered constructor, in registration order. */
    method GetAllRegisters() returns (ret: seq<Constructor>)
      requires Valid()
      ensures |ret| == |order|
      ensures forall i :: 0 <= i < |ret| ==> ret[i] == registers[order[i]].ctor
      ensures forall n :: n in registers ==> registers[n].ctor in ret
      ensures forall c :: c in ret ==> c.name in registers && registers[c.name].ctor == c
    {
      ret := [];
      var i := 0;
      while i < |order|
        invariant 0 <= i <= |order|
        invariant |ret| == i
        invariant forall j :: 0 <= j < i ==> ret[j] == registers[order[j]].ctor
      {
        ret := ret + [registers[order[i]].ctor];
        i := i + 1;
      }
      forall n | n in registers ensures registers[n].ctor in ret {
        var j :| 0 <= j < |order| && order[j] == n;
        assert ret[j] == registers[n].ctor;
      }
    }
  }
}
