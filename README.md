# ComponentManager: the component registry and instantiation pipeline

This project models `ComponentManager`, the orchestrator of a declarative
scene/component framework that sits on top of a game engine's scene graph.
`ComponentManager` keeps four process-wide tables:

- `registed`: the set of registered component names;
- `registers`: name to definition, where a definition is the template node,
  the constructor and the active-property record;
- `instances`: identity to live component instance;
- `nameIdMap`: name to the bucket of identities built from that name.

Its operations are:

- `registerComponent` and `cancelComponent` register and forget definitions;
- `hasComponent`, `getInstance` and `getAllRegisters` are queries;
- `buildComponent` is the guarded instantiation pipeline;
- `buildRootContainer` rebuilds an instance's display sub-tree;
- `deleteComponent` and `deleteComponentRootCootainer` tear an instance down.

The model has five modules, one per file:

- `Types` (`types.dfy`) is the data model: template nodes, constructors,
  definitions, the opaque expression values, and the `Event` datatype. An
  `Event` records one call the registry makes into a collaborator.
- `AttrName` (`attr_name.dfy`) is the attribute rename. It globally replaces
  `-x` (x in a..z) by the upper-case letter, left to right.
- `SeqUtil` (`seq_util.dfy`) holds two pieces of sequence logic. `Remove`
  drops an id from a bucket. `AssignAll` applies a run of field writes, and
  `LastWrite` is its reference reading.
- `BuildTrace` (`build_trace.dfy`) gives each step of the build pipeline its
  list of events, and proves the pipeline's order, how often each call
  happens, and which context each binding gets.
- `ComponentManager` (`component_manager.dfy`) holds two classes. `Instance`
  is a component object whose fields and root container are set in place.
  `Manager` holds the four tables, the registration order and a ghost
  `trace` of events. Its methods do what the static methods do, step by step.

`Manager.Valid()` is the invariant every operation preserves:

- the three name-keyed tables have the same keys;
- a definition is stored under its constructor's name;
- every id in a bucket is a key of the store;
- every instance is stored under its own identity;
- the registration order lists each registered name exactly once.

A JS `Map` iterates in insertion order. The model stores that order as
`order`, and `getAllRegisters` returns the constructors in it.

The collaborators are parameters, because their code is not part of this
model:

- A guard is a `Context -> bool` closure. An expression is a
  `Context -> Value` closure, where a context is the field table of the
  object the expression is evaluated against.
- The directive registry is the set `known` of directive names that have a
  binder. A name outside it makes `buildComponent` throw when it calls `.bind`.
  The model returns `UnknownDirective` instead: the tables are untouched,
  and the trace ends with the events made before the throw.
- The watch registry's list for the component is the parameter `watches`.
  The display-object builder's result is the parameter `display`, which is
  `None` when nothing is built.
- The identity the component constructor allocates for the sentinel id -1
  is the parameter `newId`.
- Each call into a collaborator, and each `console.warn`, is an `Event`
  appended to `trace`.

Four facts about the code shape the model:

- `buildComponent` hands the display-object builder the definition's
  template (`registe.node`). `buildComponent` itself never reads the calling
  node's `children`; it passes the whole `node` to `condition.bind`
  (line 101), whose code is not part of this model.
- The condition entries that are bound also come from the definition's
  template (`registe.node.condition`), not from the calling node.
- Buckets are kept inside the store, but not the other way round.
  `cancelComponent` forgets a bucket and keeps its instances, so a stored
  instance need not appear in any bucket. `Valid()` therefore holds only the
  direction buckets-into-store.
- The directive loop's destructuring shadows `name`. So the undefined-value
  warning for a directive names the directive, not the component.
  `WarnDirective` records it that way.

## Model

| member | source | states |
|---|---|---|
| `AttrName.CamelizeWithoutDash` | src/ctrl/ComponentManager.ts:77-79 | an attribute name containing no `-` is assigned under its own name |
| `AttrName.CamelizeLeavesNoPair` | src/ctrl/ComponentManager.ts:77-79 | after the rename no `-` is followed by a lower-case letter: the replacement is global |
| `AttrName.CamelizeFixesNoPair` | src/ctrl/ComponentManager.ts:77-79 | a name with no `-x` pair is a fixed point of the rename |
| `AttrName.CamelizeIdempotent` | src/ctrl/ComponentManager.ts:77-79 | renaming an already renamed name changes nothing |
| `AttrName.CamelizeDasherize` | src/ctrl/ComponentManager.ts:77-79 | on dash-free camel-case names the rename inverts the dashed spelling (`max-speed` to `maxSpeed`) |
| `AttrName.Camelize` | src/ctrl/ComponentManager.ts:77-79 | the rename keeps every character except that each `-x` match becomes one letter, so the result is never longer than the name and at least half as long |
| `SeqUtil.AssignAll` | src/ctrl/ComponentManager.ts:71 | writing fields onto the instance one after another never removes a field (the values written are stated by `SeqUtil.AssignAllAt`) |
| `SeqUtil.AssignAllKeys` | src/ctrl/ComponentManager.ts:70-85 | after a run of field writes the instance has exactly its old fields plus every field written |
| `ComponentManager.SomeFails` | src/ctrl/ComponentManager.ts:62 | `check.some(v => !v(own))` holds exactly when some guard is false for the owner |
| `ComponentManager.GuardsPass` | src/ctrl/ComponentManager.ts:62-64 | the build goes ahead exactly when every guard holds for the owner |
| `SeqUtil.Remove` | src/ctrl/ComponentManager.ts:170-172 | removing an id from a bucket leaves no occurrence of it, keeps every other id, and never lengthens the bucket |
| `SeqUtil.RemoveAppend` | src/ctrl/ComponentManager.ts:170-172 | removal distributes over concatenation, so the surviving ids keep their order |
| `SeqUtil.RemoveAbsent` | src/ctrl/ComponentManager.ts:170-172 | removing an id that is not in a bucket leaves the bucket as it was |
| `SeqUtil.RemoveDistinct` | src/ctrl/ComponentManager.ts:155 | deleting a name from the registration order keeps the order duplicate-free |
| `SeqUtil.DistinctAppend` | src/ctrl/ComponentManager.ts:43-47 | a name registered for the first time joins the end of the order, which stays duplicate-free |
| `SeqUtil.AssignAllAt` | src/ctrl/ComponentManager.ts:76-85 | after a run of field writes, a field holds the value of its last write, and a field no write names keeps its value |
| `BuildTrace.SnapshotInherits` | src/ctrl/ComponentManager.ts:69-74 | on a rebuild (`id > 0`) the view model sees the owner's value for every `$$data` field, and otherwise the constructor's fields unchanged; fields outside `$$data` always keep the constructor's value |
| `BuildTrace.BuildEventsOrdered` | src/ctrl/ComponentManager.ts:60-122 | a build never calls a later step before an earlier one: construct, copy, view model, attributes, directives, `$$init`, conditions, store, watches, display build, root, container add, `$$create`, reset |
| `BuildTrace.BuildEventsCount` | src/ctrl/ComponentManager.ts:60-122 | construct, view model, store, display build, root and reset happen exactly once; `$$init` and `$$create` once iff the prototype has them; the container add once iff a display object was built |
| `BuildTrace.BuildEventsContexts` | src/ctrl/ComponentManager.ts:86-102 | every directive is bound with the owner as context and every condition entry with the built instance itself |
| `BuildTrace.RootEventsOrdered` | src/ctrl/ComponentManager.ts:127-138 | a root rebuild builds, sets the root, adds to the container, then resets the repeat index, in that order |
| `ComponentManager.FirstUnknown` | src/ctrl/ComponentManager.ts:86-93 | the index where the directive loop stops: every earlier directive has a binder, the one at the index has none |
| `ComponentManager.RegisterKeepsConsistent` | src/ctrl/ComponentManager.ts:36-52 | a registration keeps the tables consistent |
| `ComponentManager.RegisterCancelRestores` | src/ctrl/ComponentManager.ts:154-158 | registering a new name and then cancelling it gives back the name set, the definitions, the buckets and the order as they were |
| `ComponentManager.BuildDeleteRestores` | src/ctrl/ComponentManager.ts:163-173 | deleting an instance just stored under a fresh identity gives back the store and every bucket as they were before the build |
| `ComponentManager.Instance.constructor` | src/ctrl/ComponentManager.ts:69 | a new instance carries its identity and class name, holds the constructor's field values and has no root yet |
| `ComponentManager.Manager.constructor` | src/ctrl/ComponentManager.ts:31-34 | the registry starts with four empty tables and is consistent |
| `ComponentManager.Manager.HasComponent` | src/ctrl/ComponentManager.ts:143-145 | a name is reported registered exactly when it has a definition and a bucket |
| `ComponentManager.Manager.GetInstance` | src/ctrl/ComponentManager.ts:147-149 | the stored instance, absent exactly for an unknown id, and it carries the id asked for |
| `ComponentManager.Manager.RegisterComponent` | src/ctrl/ComponentManager.ts:36-52 | the name becomes known with its definition, the active-property record as created (three empty sets) and an empty bucket; the store is untouched; the record goes to the active-property manager and its pending declarations are flushed |
| `ComponentManager.Manager.CancelComponent` | src/ctrl/ComponentManager.ts:154-158 | the name leaves the name set, the definitions and the buckets; the store keeps its instances; the key sets stay equal |
| `ComponentManager.Manager.BuildComponent` | src/ctrl/ComponentManager.ts:60-122 | a failing guard changes nothing; an unknown directive aborts with the tables unchanged; otherwise the fresh instance holds the copied and assigned fields as of the attribute step, is stored under its identity (the id asked for, or the allocated `newId` for the default -1) and appended to its bucket, and the trace grows by exactly the build's calls |
| `ComponentManager.Manager.Build` | src/ctrl/ComponentManager.ts:65-122 | the pipeline once the guards have passed, with the same outcome as above |
| `ComponentManager.Manager.Instantiate` | src/ctrl/ComponentManager.ts:65-85 | construction, the `$$data` copy on a rebuild, view-model initialisation and attribute assignment, and the fields that result |
| `ComponentManager.Manager.CopyInheritedData` | src/ctrl/ComponentManager.ts:70-72 | each `$$data` field is written with the owner's value, in list order |
| `ComponentManager.Manager.AssignNormals` | src/ctrl/ComponentManager.ts:76-85 | each attribute is renamed, evaluated against the owner, warned about when undefined and written, in order |
| `ComponentManager.Manager.BindDirectives` | src/ctrl/ComponentManager.ts:86-93 | directives are evaluated and bound in order up to the first without a binder, where the loop stops |
| `ComponentManager.Manager.WarnDirectiveIfUndefined` | src/ctrl/ComponentManager.ts:87-90 | the warning is issued exactly when the directive's value is undefined |
| `ComponentManager.Manager.Install` | src/ctrl/ComponentManager.ts:94-120 | the steps after the directives: hooks, conditions, store, watches, display and reset |
| `ComponentManager.Manager.Store` | src/ctrl/ComponentManager.ts:94-109 | init hook, condition entries, store registration and watches, keeping the invariant |
| `ComponentManager.Manager.BindHookAndConditions` | src/ctrl/ComponentManager.ts:94-102 | the init hook runs iff present, then every condition entry is bound with the instance as context |
| `ComponentManager.Manager.Record` | src/ctrl/ComponentManager.ts:103-105 | the instance is stored under its identity and the identity is appended to its component's bucket |
| `ComponentManager.Manager.BindConditions` | src/ctrl/ComponentManager.ts:99-102 | every condition entry of the definition's template is bound, in order, with the instance as context |
| `ComponentManager.Manager.AttachWatches` | src/ctrl/ComponentManager.ts:106-109 | every declared watch becomes a dependence of the new identity, in order |
| `ComponentManager.Manager.Materialize` | src/ctrl/ComponentManager.ts:111-120 | the built display object becomes the root (also when nothing was built), is added to the container only when present, then the create hook and the reset run |
| `ComponentManager.Manager.BuildRootContainer` | src/ctrl/ComponentManager.ts:127-138 | the tables and the instance's fields are untouched; only the root is replaced by the rebuilt display object |
| `ComponentManager.Manager.DeleteComponent` | src/ctrl/ComponentManager.ts:163-173 | the root sub-tree is deleted, the instance leaves the store, and the id leaves every bucket with the other ids kept in order; no name is forgotten |
| `ComponentManager.Manager.DeleteComponentRootContainer` | src/ctrl/ComponentManager.ts:179-185 | only the root sub-tree is deleted; every table stays as it is |
| `ComponentManager.Manager.GetAllRegisters` | src/ctrl/ComponentManager.ts:187-193 | one constructor per registered name, in registration order, and exactly the registered ones |

## Left out

- I/O, the `window` global (line 196), and the wording of the two
  `console.warn` messages. A warning is only an event naming the component
  (or directive) and the attribute.
- The internals of the collaborators are not part of this model: the
  active-property manager, the view-model manager, the directive binders,
  the condition binder, the watch manager, the display-object builder, the
  `Is` helper and `util/Array`. Their calls are events with the arguments
  that matter.
- ComponentManager.Manager.RegisterComponent: the same `dpg` object that is
  stored in `registers` is handed to `initActiveProperty` and
  `doWaiteExecute` (lines 50-51), so it can already be filled when the call
  returns. The model stores the record as created at lines 38-42, because
  the code of that manager is not part of this model.
- ComponentManager.Manager.Instantiate: `initComponentViewModel` turns the
  fields into observable accessors. The model records the fields it sees and
  leaves the fields as plain values.
- ComponentManager.Manager.AttachWatches: `build[func].bind(build)` is
  recorded by the method's name. The bound closure and a missing method are
  left out.
- SeqUtil.Remove: `util/Array.remove` is not part of this model, and is
  taken to drop every occurrence of the id. If it drops only the first one,
  the two readings differ only for a bucket that holds the id twice, which
  happens when a build reuses an identity that is still stored. `Valid()`'s
  buckets-into-store clause depends on this reading: with first-only
  removal, such a bucket would keep an id whose instance was deleted.
- Identity allocation inside the component constructor (`new newFunc(id)`)
  is the caller-supplied `newId` for the sentinel -1. Numbers are
  unbounded integers.
- ComponentManager.Manager.BuildComponent: requires that a node whose
  guards pass names a registered component. The code throws a `TypeError`
  otherwise, and the throw is not modelled.
- ComponentManager.Manager.BuildRootContainer: requires a stored instance
  whose component is registered, where the code would throw.
- ComponentManager.Manager.DeleteComponent: requires a stored instance with
  a root, where the code would throw.
- ComponentManager.Manager.DeleteComponentRootContainer: requires a stored
  instance with a root, where the code would throw.
- ComponentManager.Manager.BuildComponent: nested builds are not modelled.
  When the owner of a build is a component, the build comes from the display
  builder materializing a parent's template (lines 111 and 132), so one call
  can store several instances and extend several buckets. The contract
  states only the instance this call stores. Writes onto `build` made by the
  directive binders (line 92), `$$init` (line 96), the condition binder
  (line 101) and `$$create` (line 118) are not modelled either, so `fields`
  is the instance as of the attribute step.
- ComponentManager.Manager.Build: the same two gaps as `BuildComponent`.
  Nested builds through the display builder are left out, and `fields` is
  the instance as of the attribute step.
- ComponentManager.Manager.Install: the instances the display builder
  stores for components nested in the template are not modelled, and
  neither are writes onto `build` by the hooks and the condition binder.
- ComponentManager.Manager.Store: writes onto `build` by `$$init` and the
  condition binder are not modelled.
- ComponentManager.Manager.Materialize: the tables and the instance's
  fields are held fixed across `buildDisplayObject` and `$$create`
  (lines 111 and 118). Nested builds and writes made by the hook are not
  modelled.
- ComponentManager.Manager.BuildRootContainer: the components nested in
  the template that `buildDisplayObject` (line 132) builds and stores are
  not modelled. The contract keeps the tables unchanged.
- ComponentManager.Manager.DeleteComponent: `deleteDisplay` (line 166) also
  deletes the components under the root (comment at lines 176-177). Their
  removal from the tables is not modelled, so only the given id leaves the
  store and the buckets.
- ComponentManager.Manager.DeleteComponentRootContainer: the components
  under the root that `deleteDisplay` (line 182) deletes are not modelled.
  The contract keeps every table unchanged.
- An exception thrown by a hook, a binder or the display builder is not
  modelled, apart from the unknown directive.
- The `children` of the calling node are carried in the data model but
  never read. `buildComponent` itself never reads them; it passes `node` to
  `condition.bind` (line 101), and what that binder reads is not modelled.
- The `container` and `game` arguments are left out, except for the
  container add, which is an event.
