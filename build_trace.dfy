/** The calls a build makes, as event lists, and what is proved about their
    order and multiplicity. Every event of a build belongs to one step of the
    build pipeline; `Phase` numbers the steps in the order `buildComponent`
    runs them. */
module BuildTrace {
  import opened Types
  import opened AttrName
  import opened SeqUtil

  /** Step of the build pipeline an event belongs to (0: not a build step). */
  function Phase(e: Event): nat
  {
    match e
    case Construct(_) => 1
    case CopyData(_, _) => 2
    case InitViewModel(_, _) => 3
    case WarnNormal(_, _) => 4
    case AssignNormal(_, _) => 4
    case WarnDirective(_, _) => 5
    case BindDirective(_, _, _) => 5
    case InitHook(_) => 6
    case BindCondition(_, _) => 7
    case StoreInstance(_) => 8
    case AttachWatch(_, _, _) => 9
    case BuildDisplay(_, _) => 10
    case SetRoot(_, _) => 11
    case AddToContainer(_) => 12
    case CreateHook(_) => 13
    case ResetRepeat(_) => 14
    case DeleteDisplay(_) => 0
    case InitActiveProperty(_) => 0
    case FlushPending(_) => 0
  }

  /** Every event of `t` belongs to a step between `lo` and `hi`. */
  predicate Within(t: seq<Event>, lo: nat, hi: nat)
  {
    forall i :: 0 <= i < |t| ==> lo <= Phase(t[i]) <= hi
  }

  /** No event of `t` belongs to an earlier step than an event before it. */
  predicate Monotone(t: seq<Event>)
  {
    forall i, j :: 0 <= i < j < |t| ==> Phase(t[i]) <= Phase(t[j])
  }

  /** Number of events of step `p` in `t`. */
  function CountPhase(t: seq<Event>, p: nat): nat
  {
    if t == [] then 0
    else CountPhase(t[..|t| - 1], p) + (if Phase(t[|t| - 1]) == p then 1 else 0)
  }

  // ---- the per-step event lists ----

  /** The inherited-data copy (phase 2), one event per `$$data` field. */
  function CopyEvents(names: seq<string>, own: Context): (r: seq<Event>)
  {
    if names == [] then []
    else CopyEvents(names[..|names| - 1], own) + [CopyData(names[|names| - 1], Lookup(own, names[|names| - 1]))]
  }

  /** The assignments of the inherited-data copy. */
  function CopyPairs(names: seq<string>, own: Context): seq<(string, Value)>
  {
    seq(|names|, i requires 0 <= i < |names| => (names[i], Lookup(own, names[i])))
  }

  /** The instance's fields when the view model is initialised: the
      constructor's values, overwritten by the owner's on a rebuild. */
  function Snapshot(ctor: Constructor, id: int, own: Context): map<string, Value>
  {
    if id > 0 then AssignAll(ctor.defaults, CopyPairs(ctor.inheritedData, own)) else ctor.defaults
  }

  /** The assignments of the attribute step: renamed attribute, computed value. */
  function NormalPairs(normals: seq<Normal>, own: Context): seq<(string, Value)>
  {
    seq(|normals|, i requires 0 <= i < |normals| => (Camelize(normals[i].name), normals[i].value(own)))
  }

  function NormalStep(component: string, n: Normal, own: Context): (r: seq<Event>)
  {
    var v := n.value(own);
    (if v == Undefined then [WarnNormal(component, Camelize(n.name))] else []) + [AssignNormal(Camelize(n.name), v)]
  }

  function NormalEvents(component: string, normals: seq<Normal>, own: Context): (r: seq<Event>)
  {
    if normals == [] then []
    else NormalEvents(component, normals[..|normals| - 1], own) + NormalStep(component, normals[|normals| - 1], own)
  }

  /** One directive: the expression is evaluated against the owner (warning,
      under the directive's own name, when undefined), then bound with the
      owner as context. */
  function DirectiveStep(d: Directive, own: Context): (r: seq<Event>)
  {
    DirectiveWarning(d, own) + [BindDirective(d.name, d.argument, OwnerCtx)]
  }

  function DirectiveWarning(d: Directive, own: Context): seq<Event>
  {
    if d.value(own) == Undefined then [WarnDirective(d.name, d.argument)] else []
  }

  function DirectiveEvents(ds: seq<Directive>, own: Context): (r: seq<Event>)
  {
    if ds == [] then []
    else DirectiveEvents(ds[..|ds| - 1], own) + DirectiveStep(ds[|ds| - 1], own)
  }

  lemma DirectiveEventsSnoc(ds: seq<Directive>, k: nat, own: Context)
    requires k < |ds|
    ensures DirectiveEvents(ds[..k + 1], own) == DirectiveEvents(ds[..k], own) + DirectiveWarning(ds[k], own) + [BindDirective(ds[k].name, ds[k].argument, OwnerCtx)]
  {
    assert ds[..k + 1][..k] == ds[..k];
  }

  /** Condition entries are bound with the built instance as context. */
  function ConditionEvents(cs: seq<Directive>, id: int): (r: seq<Event>)
  {
    if cs == [] then []
    else ConditionEvents(cs[..|cs| - 1], id) + [BindCondition(cs[|cs| - 1].argument, SelfCtx(id))]
  }

  function WatchEvents(id: int, ws: seq<Watch>): (r: seq<Event>)
  {
    if ws == [] then []
    else WatchEvents(id, ws[..|ws| - 1]) + [AttachWatch(id, ws[|ws| - 1].property, ws[|ws| - 1].func)]
  }

  /** Display materialisation: build, set as root, add to the container only
      when something was built. Shared by a build and a root rebuild. */
  function DisplayEvents(id: int, template: string, display: Option<DisplayObject>): seq<Event>
  {
    [BuildDisplay(id, template), SetRoot(id, display)] + (if display.Some? then [AddToContainer(display.value)] else [])
  }

  /** Phases 1 to 4: construction, inherited copy, view model, attributes. */
  function FrontEvents(identity: int, id: int, def: Definition, node: ComponentNode, own: Context): seq<Event>
  {
    [Construct(identity)]
      + (if id > 0 then CopyEvents(def.ctor.inheritedData, own) else [])
      + [InitViewModel(identity, Snapshot(def.ctor, id, own))]
      + NormalEvents(node.name, node.normals, own)
  }

  /** After the directives: the init hook, the condition bindings, the
      store registration and the watches. */
  function BindEvents(identity: int, def: Definition, watches: seq<Watch>): seq<Event>
  {
    (if def.ctor.hasInit then [InitHook(identity)] else [])
      + ConditionEvents(def.node.condition, identity)
      + [StoreInstance(identity)]
      + WatchEvents(identity, watches)
  }

  /** The display sub-tree, the create hook and the repeat-index reset. */
  function MaterializeEvents(identity: int, def: Definition, display: Option<DisplayObject>): seq<Event>
  {
    DisplayEvents(identity, def.node.name, display)
      + (if def.ctor.hasCreate then [CreateHook(identity)] else [])
      + [ResetRepeat(identity)]
  }

  /** Everything after the directives. */
  function BackEvents(identity: int, def: Definition, watches: seq<Watch>, display: Option<DisplayObject>): seq<Event>
  {
    BindEvents(identity, def, watches) + MaterializeEvents(identity, def, display)
  }

  /** All calls of a build that is not guarded out and meets no unknown directive. */
  function BuildEvents(identity: int, id: int, def: Definition, node: ComponentNode, own: Context,
                       watches: seq<Watch>, display: Option<DisplayObject>): seq<Event>
  {
    FrontEvents(identity, id, def, node, own) + DirectiveEvents(node.directives, own) + BackEvents(identity, def, watches, display)
  }

  // ---- order ----

  lemma Extend(a: seq<Event>, b: seq<Event>, lo: nat, m: nat, hi: nat)
    requires lo <= m <= hi
    requires Monotone(a) && Within(a, lo, m)
    requires Monotone(b) && Within(b, m, hi)
    ensures Monotone(a + b) && Within(a + b, lo, hi)
  {
    forall i, j | 0 <= i < j < |a + b| ensures Phase((a + b)[i]) <= Phase((a + b)[j]) {
      if j < |a| {
        assert (a + b)[i] == a[i] && (a + b)[j] == a[j];
      } else if i < |a| {
        assert (a + b)[i] == a[i] && (a + b)[j] == b[j - |a|];
      } else {
        assert (a + b)[i] == b[i - |a|] && (a + b)[j] == b[j - |a|];
      }
    }
    forall i | 0 <= i < |a + b| ensures lo <= Phase((a + b)[i]) <= hi {
      if i < |a| { assert (a + b)[i] == a[i]; } else { assert (a + b)[i] == b[i - |a|]; }
    }
  }

  lemma WithinConcat(a: seq<Event>, b: seq<Event>, lo: nat, hi: nat)
    requires Within(a, lo, hi) && Within(b, lo, hi)
    ensures Within(a + b, lo, hi)
  {
    forall i | 0 <= i < |a + b| ensures lo <= Phase((a + b)[i]) <= hi {
      if i < |a| { assert (a + b)[i] == a[i]; } else { assert (a + b)[i] == b[i - |a|]; }
    }
  }

  /** Each per-step list holds only events of its own step. */
  lemma {:induction false} CopyWithin(names: seq<string>, own: Context)
    ensures Within(CopyEvents(names, own), 2, 2)
  {
    if names != [] {
      var init := names[..|names| - 1];
      CopyWithin(init, own);
      WithinConcat(CopyEvents(init, own), [CopyData(names[|names| - 1], Lookup(own, names[|names| - 1]))], 2, 2);
    }
  }

  lemma {:induction false} NormalWithin(component: string, normals: seq<Normal>, own: Context)
    ensures Within(NormalEvents(component, normals, own), 4, 4)
  {
    if normals != [] {
      var init := normals[..|normals| - 1];
      NormalWithin(component, init, own);
      WithinConcat(NormalEvents(component, init, own), NormalStep(component, normals[|normals| - 1], own), 4, 4);
    }
  }

  lemma {:induction false} DirectiveWithin(ds: seq<Directive>, own: Context)
    ensures Within(DirectiveEvents(ds, own), 5, 5)
  {
    if ds != [] {
      var init := ds[..|ds| - 1];
      DirectiveWithin(init, own);
      WithinConcat(DirectiveEvents(init, own), DirectiveStep(ds[|ds| - 1], own), 5, 5);
    }
  }

  lemma {:induction false} ConditionWithin(cs: seq<Directive>, id: int)
    ensures Within(ConditionEvents(cs, id), 7, 7)
  {
    if cs != [] {
      var init := cs[..|cs| - 1];
      ConditionWithin(init, id);
      WithinConcat(ConditionEvents(init, id), [BindCondition(cs[|cs| - 1].argument, SelfCtx(id))], 7, 7);
    }
  }

  lemma {:induction false} WatchWithin(id: int, ws: seq<Watch>)
    ensures Within(WatchEvents(id, ws), 9, 9)
  {
    if ws != [] {
      var init := ws[..|ws| - 1];
      WatchWithin(id, init);
      WithinConcat(WatchEvents(id, init), [AttachWatch(id, ws[|ws| - 1].property, ws[|ws| - 1].func)], 9, 9);
    }
  }

  /** A list whose events all belong to step `p` is ordered and lies in any
      range around `p`. */
  lemma OneStep(t: seq<Event>, p: nat, lo: nat, hi: nat)
    requires Within(t, p, p) && lo <= p <= hi
    ensures Monotone(t) && Within(t, lo, hi)
  {
  }

  lemma FrontOrdered(identity: int, id: int, def: Definition, node: ComponentNode, own: Context)
    ensures Monotone(FrontEvents(identity, id, def, node, own)) && Within(FrontEvents(identity, id, def, node, own), 1, 4)
  {
    var copies := if id > 0 then CopyEvents(def.ctor.inheritedData, own) else [];
    var s1 := [Construct(identity)];
    var s2 := [InitViewModel(identity, Snapshot(def.ctor, id, own))];
    var s3 := NormalEvents(node.name, node.normals, own);
    CopyWithin(def.ctor.inheritedData, own);
    NormalWithin(node.name, node.normals, own);
    OneStep(s1, 1, 1, 1);
    OneStep(copies, 2, 1, 2);
    Extend(s1, copies, 1, 1, 2);
    OneStep(s2, 3, 2, 3);
    Extend(s1 + copies, s2, 1, 2, 3);
    OneStep(s3, 4, 3, 4);
    Extend(s1 + copies + s2, s3, 1, 3, 4);
  }

  lemma DisplayOrdered(id: int, template: string, display: Option<DisplayObject>)
    ensures Monotone(DisplayEvents(id, template, display)) && Within(DisplayEvents(id, template, display), 10, 12)
  {
  }

  lemma BindOrdered(identity: int, def: Definition, watches: seq<Watch>)
    ensures Monotone(BindEvents(identity, def, watches)) && Within(BindEvents(identity, def, watches), 6, 9)
  {
    var s1: seq<Event> := if def.ctor.hasInit then [InitHook(identity)] else [];
    var s2 := ConditionEvents(def.node.condition, identity);
    var s3 := [StoreInstance(identity)];
    var s4 := WatchEvents(identity, watches);
    ConditionWithin(def.node.condition, identity);
    WatchWithin(identity, watches);
    OneStep(s1, 6, 6, 6);
    OneStep(s2, 7, 6, 7);
    Extend(s1, s2, 6, 6, 7);
    OneStep(s3, 8, 7, 8);
    Extend(s1 + s2, s3, 6, 7, 8);
    OneStep(s4, 9, 8, 9);
    Extend(s1 + s2 + s3, s4, 6, 8, 9);
  }

  lemma MaterializeOrdered(identity: int, def: Definition, display: Option<DisplayObject>)
    ensures Monotone(MaterializeEvents(identity, def, display)) && Within(MaterializeEvents(identity, def, display), 10, 14)
  {
    var s5 := DisplayEvents(identity, def.node.name, display);
    var s6: seq<Event> := if def.ctor.hasCreate then [CreateHook(identity)] else [];
    var s7 := [ResetRepeat(identity)];
    DisplayOrdered(identity, def.node.name, display);
    OneStep(s6, 13, 12, 13);
    Extend(s5, s6, 10, 12, 13);
    OneStep(s7, 14, 13, 14);
    Extend(s5 + s6, s7, 10, 13, 14);
  }

  lemma BackOrdered(identity: int, def: Definition, watches: seq<Watch>, display: Option<DisplayObject>)
    ensures Monotone(BackEvents(identity, def, watches, display)) && Within(BackEvents(identity, def, watches, display), 6, 14)
  {
    BindOrdered(identity, def, watches);
    MaterializeOrdered(identity, def, display);
    Extend(BindEvents(identity, def, watches), MaterializeEvents(identity, def, display), 6, 9, 14);
  }

  /** The build pipeline's order: no call of a later step is made before a
      call of an earlier one (attributes, directives, `$$init`, conditions,
      store, watches, display build, root, container add, `$$create`, reset). */
  lemma BuildEventsOrdered(identity: int, id: int, def: Definition, node: ComponentNode, own: Context,
                           watches: seq<Watch>, display: Option<DisplayObject>)
    ensures Monotone(BuildEvents(identity, id, def, node, own, watches, display))
  {
    FrontOrdered(identity, id, def, node, own);
    BackOrdered(identity, def, watches, display);
    var f := FrontEvents(identity, id, def, node, own);
    var d := DirectiveEvents(node.directives, own);
    DirectiveWithin(node.directives, own);
    OneStep(d, 5, 4, 5);
    Extend(f, d, 1, 4, 5);
    Extend(f + d, BackEvents(identity, def, watches, display), 1, 5, 14);
  }

  /** A root rebuild is ordered the same way. */
  lemma RootEventsOrdered(id: int, template: string, display: Option<DisplayObject>)
    ensures Monotone(DisplayEvents(id, template, display) + [ResetRepeat(id)])
  {
    DisplayOrdered(id, template, display);
    OneStep([ResetRepeat(id)], 14, 12, 14);
    Extend(DisplayEvents(id, template, display), [ResetRepeat(id)], 10, 12, 14);
  }

  // ---- multiplicity ----

  lemma {:induction false} CountConcat(a: seq<Event>, b: seq<Event>, p: nat)
    ensures CountPhase(a + b, p) == CountPhase(a, p) + CountPhase(b, p)
    decreases |b|
  {
    if b == [] {
      assert a + b == a;
    } else {
      var b' := b[..|b| - 1];
      assert (a + b)[..|a + b| - 1] == a + b';
      assert (a + b)[|a + b| - 1] == b[|b| - 1];
      CountConcat(a, b', p);
    }
  }

  lemma {:induction false} CountOutside(t: seq<Event>, lo: nat, hi: nat, p: nat)
    requires Within(t, lo, hi) && (p < lo || hi < p)
    ensures CountPhase(t, p) == 0
    decreases |t|
  {
    if t != [] {
      assert Within(t[..|t| - 1], lo, hi) by {
        forall i | 0 <= i < |t| - 1 ensures t[..|t| - 1][i] == t[i] { }
      }
      CountOutside(t[..|t| - 1], lo, hi, p);
    }
  }

  lemma CountSingleton(e: Event, p: nat)
    ensures CountPhase([e], p) == if Phase(e) == p then 1 else 0
  {
    assert [e][..0] == [];
  }

  lemma CountOptional(c: bool, e: Event, p: nat)
    ensures CountPhase(if c then [e] else [], p) == if c && Phase(e) == p then 1 else 0
  {
    if c { CountSingleton(e, p); }
  }

  /** How many events of step `p` the front part of a build makes. */
  lemma FrontCount(identity: int, id: int, def: Definition, node: ComponentNode, own: Context, p: nat)
    requires p != 2 && p != 4
    ensures CountPhase(FrontEvents(identity, id, def, node, own), p) == (if p == 1 || p == 3 then 1 else 0)
  {
    var copies := if id > 0 then CopyEvents(def.ctor.inheritedData, own) else [];
    var s1 := [Construct(identity)];
    var s2 := [InitViewModel(identity, Snapshot(def.ctor, id, own))];
    var s3 := NormalEvents(node.name, node.normals, own);
    CopyWithin(def.ctor.inheritedData, own);
    NormalWithin(node.name, node.normals, own);
    CountConcat(s1, copies, p);
    CountConcat(s1 + copies, s2, p);
    CountConcat(s1 + copies + s2, s3, p);
    CountSingleton(Construct(identity), p);
    CountSingleton(InitViewModel(identity, Snapshot(def.ctor, id, own)), p);
    CountOutside(copies, 2, 2, p);
    CountOutside(s3, 4, 4, p);
  }

  /** How many events of step `p` the display part makes. */
  lemma DisplayCount(id: int, template: string, display: Option<DisplayObject>, p: nat)
    ensures CountPhase(DisplayEvents(id, template, display), p)
      == (if p == 10 || p == 11 then 1 else 0) + (if p == 12 && display.Some? then 1 else 0)
  {
    var b := [BuildDisplay(id, template)];
    var r := [SetRoot(id, display)];
    var a: seq<Event> := if display.Some? then [AddToContainer(display.value)] else [];
    assert DisplayEvents(id, template, display) == b + r + a;
    CountConcat(b, r, p);
    CountConcat(b + r, a, p);
    CountSingleton(BuildDisplay(id, template), p);
    CountSingleton(SetRoot(id, display), p);
    if display.Some? { CountSingleton(AddToContainer(display.value), p); }
  }

  lemma BindCount(identity: int, def: Definition, watches: seq<Watch>, p: nat)
    requires p != 7 && p != 9
    ensures CountPhase(BindEvents(identity, def, watches), p)
      == (if p == 6 && def.ctor.hasInit then 1 else 0) + (if p == 8 then 1 else 0)
  {
    var s1: seq<Event> := if def.ctor.hasInit then [InitHook(identity)] else [];
    var s2 := ConditionEvents(def.node.condition, identity);
    var s3 := [StoreInstance(identity)];
    var s4 := WatchEvents(identity, watches);
    assert BindEvents(identity, def, watches) == s1 + s2 + s3 + s4;
    ConditionWithin(def.node.condition, identity);
    WatchWithin(identity, watches);
    CountOptional(def.ctor.hasInit, InitHook(identity), p);
    CountOutside(s2, 7, 7, p);
    CountSingleton(StoreInstance(identity), p);
    CountOutside(s4, 9, 9, p);
    var c1 := CountPhase(s1, p);
    var c3 := CountPhase(s3, p);
    CountConcat(s1, s2, p);
    assert CountPhase(s1 + s2, p) == c1;
    CountConcat(s1 + s2, s3, p);
    assert CountPhase(s1 + s2 + s3, p) == c1 + c3;
    CountConcat(s1 + s2 + s3, s4, p);
  }

  lemma MaterializeCount(identity: int, def: Definition, display: Option<DisplayObject>, p: nat)
    ensures CountPhase(MaterializeEvents(identity, def, display), p)
      == (if p == 10 || p == 11 || p == 14 then 1 else 0)
       + (if p == 12 && display.Some? then 1 else 0)
       + (if p == 13 && def.ctor.hasCreate then 1 else 0)
  {
    var s5 := DisplayEvents(identity, def.node.name, display);
    var s6: seq<Event> := if def.ctor.hasCreate then [CreateHook(identity)] else [];
    var s7 := [ResetRepeat(identity)];
    CountConcat(s5, s6, p);
    CountConcat(s5 + s6, s7, p);
    DisplayCount(identity, def.node.name, display, p);
    CountOptional(def.ctor.hasCreate, CreateHook(identity), p);
    CountSingleton(ResetRepeat(identity), p);
  }

  /** Each of the one-off calls of a build is made exactly once (the hooks
      exactly when the constructor has them, the container add exactly when
      the display builder produced something). */
  lemma BuildEventsCount(identity: int, id: int, def: Definition, node: ComponentNode, own: Context,
                         watches: seq<Watch>, display: Option<DisplayObject>, p: nat)
    requires p !in {2, 4, 5, 7, 9}
    ensures CountPhase(BuildEvents(identity, id, def, node, own, watches, display), p)
      == (if p == 1 || p == 3 || p == 8 || p == 10 || p == 11 || p == 14 then 1 else 0)
       + (if p == 6 && def.ctor.hasInit then 1 else 0)
       + (if p == 12 && display.Some? then 1 else 0)
       + (if p == 13 && def.ctor.hasCreate then 1 else 0)
  {
    var f := FrontEvents(identity, id, def, node, own);
    var d := DirectiveEvents(node.directives, own);
    DirectiveWithin(node.directives, own);
    CountConcat(f, d, p);
    CountConcat(f + d, BackEvents(identity, def, watches, display), p);
    FrontCount(identity, id, def, node, own, p);
    CountOutside(d, 5, 5, p);
    CountConcat(BindEvents(identity, def, watches), MaterializeEvents(identity, def, display), p);
    BindCount(identity, def, watches, p);
    MaterializeCount(identity, def, display, p);
  }

  // ---- contexts ----

  /** Condition entries are bound with the built instance `id` as context
      and directives with the owner. */
  predicate ContextsOK(t: seq<Event>, id: int)
  {
    forall i :: 0 <= i < |t| ==>
      (t[i].BindCondition? ==> t[i].ctx == SelfCtx(id)) && (t[i].BindDirective? ==> t[i].ctx == OwnerCtx)
  }

  lemma ContextsConcat(a: seq<Event>, b: seq<Event>, id: int)
    requires ContextsOK(a, id) && ContextsOK(b, id)
    ensures ContextsOK(a + b, id)
  {
    forall i | 0 <= i < |a + b| ensures (a + b)[i] == if i < |a| then a[i] else b[i - |a|] { }
  }

  /** Lists with no binding events trivially satisfy the context rule. */
  lemma ContextsNoBinding(t: seq<Event>, lo: nat, hi: nat, id: int)
    requires Within(t, lo, hi) && (hi < 5 || (lo == hi && hi == 6) || 7 < lo)
    ensures ContextsOK(t, id)
  {
  }

  /** Every condition entry of a build is bound with the built instance as
      context, and every directive with the owner. */
  lemma BuildEventsContexts(identity: int, id: int, def: Definition, node: ComponentNode, own: Context,
                            watches: seq<Watch>, display: Option<DisplayObject>)
    ensures ContextsOK(BuildEvents(identity, id, def, node, own, watches, display), identity)
  {
    FrontOrdered(identity, id, def, node, own);
    var f := FrontEvents(identity, id, def, node, own);
    var d := DirectiveEvents(node.directives, own);
    ContextsNoBinding(f, 1, 4, identity);
    DirectiveContexts(node.directives, own, identity);
    ContextsConcat(f, d, identity);
    var s1: seq<Event> := if def.ctor.hasInit then [InitHook(identity)] else [];
    var s2 := ConditionEvents(def.node.condition, identity);
    var s3 := [StoreInstance(identity)];
    var s4 := WatchEvents(identity, watches);
    ContextsNoBinding(s1, 6, 6, identity);
    ConditionContexts(def.node.condition, identity);
    ContextsConcat(s1, s2, identity);
    ContextsConcat(s1 + s2, s3, identity);
    WatchWithin(identity, watches);
    ContextsNoBinding(s4, 9, 9, identity);
    ContextsConcat(s1 + s2 + s3, s4, identity);
    MaterializeOrdered(identity, def, display);
    ContextsNoBinding(MaterializeEvents(identity, def, display), 10, 14, identity);
    ContextsConcat(BindEvents(identity, def, watches), MaterializeEvents(identity, def, display), identity);
    ContextsConcat(f + d, BackEvents(identity, def, watches, display), identity);
  }

  lemma {:induction false} ConditionContexts(cs: seq<Directive>, id: int)
    ensures ContextsOK(ConditionEvents(cs, id), id)
  {
    if cs != [] {
      var init := cs[..|cs| - 1];
      ConditionContexts(init, id);
      ContextsConcat(ConditionEvents(init, id), [BindCondition(cs[|cs| - 1].argument, SelfCtx(id))], id);
    }
  }

  lemma {:induction false} DirectiveContexts(ds: seq<Directive>, own: Context, id: int)
    ensures ContextsOK(DirectiveEvents(ds, own), id)
  {
    if ds != [] {
      var init := ds[..|ds| - 1];
      DirectiveContexts(init, own, id);
      ContextsConcat(DirectiveEvents(init, own), DirectiveStep(ds[|ds| - 1], own), id);
    }
  }

  // ---- the inherited-data copy ----

  /** On a rebuild (`id > 0`) the fields the view model sees hold the
      owner's values for every `$$data` field; otherwise they are exactly
      the constructor's. Fields outside `$$data` keep the constructor's value. */
  lemma SnapshotInherits(ctor: Constructor, id: int, own: Context)
    ensures id <= 0 ==> Snapshot(ctor, id, own) == ctor.defaults
    ensures id > 0 ==> forall f :: f in ctor.inheritedData ==> f in Snapshot(ctor, id, own) && Snapshot(ctor, id, own)[f] == Lookup(own, f)
    ensures forall f :: f !in ctor.inheritedData && f in ctor.defaults ==> f in Snapshot(ctor, id, own) && Snapshot(ctor, id, own)[f] == ctor.defaults[f]
  {
    if id > 0 {
      var pairs := CopyPairs(ctor.inheritedData, own);
      forall f
        ensures f in ctor.inheritedData ==> f in Snapshot(ctor, id, own) && Snapshot(ctor, id, own)[f] == Lookup(own, f)
        ensures f !in ctor.inheritedData && f in ctor.defaults ==> f in Snapshot(ctor, id, own) && Snapshot(ctor, id, own)[f] == ctor.defaults[f]
      {
        CopyLastWrite(ctor.inheritedData, own, f);
        AssignAllAt(ctor.defaults, pairs, f);
      }
    }
  }

  lemma {:induction false} CopyLastWrite(names: seq<string>, own: Context, f: string)
    ensures LastWrite(CopyPairs(names, own), f) == if f in names then Some(Lookup(own, f)) else None
  {
    if names != [] {
      var init := names[..|names| - 1];
      assert CopyPairs(names, own)[..|names| - 1] == CopyPairs(init, own);
      CopyLastWrite(init, own, f);
      assert f in names <==> f in init || f == names[|names| - 1] by {
        assert names == init + [names[|names| - 1]];
      }
    }
  }
}
