/** Data model of the component registry: template nodes, definitions,
    opaque expression values and the tagged events that record each call the
    registry makes into its collaborators. */
module Types {

  datatype Option<+T> = None | Some(value: T)

  /** The result of evaluating a template expression. `Undefined` is the one
      value the registry inspects (to warn); everything else is opaque. */
  datatype Value = Undefined | Defined(datum: int)

  /** The object an expression is evaluated against (the owner, or the
      instance itself for condition entries), seen as its field table. */
  type Context = map<string, Value>

  /** `own[v]` in `buildComponent`: a field the context does not have reads as undefined. */
  function Lookup(c: Context, field: string): Value
  {
    if field in c then c[field] else Undefined
  }

  /** One attribute on a component tag: `<spin max-speed="..."/>`. */
  datatype Normal = Normal(name: string, value: Context -> Value)

  /** A parsed directive (also the shape of a condition entry). */
  datatype Directive = Directive(name: string, argument: string, value: Context -> Value, triggers: seq<string>)

  /** A parsed template node. */
  datatype ComponentNode = ComponentNode(
    name: string,
    normals: seq<Normal>,
    directives: seq<Directive>,
    children: seq<ComponentNode>,
    check: seq<Context -> bool>,
    condition: seq<Directive>)

  /** A computed property declared on a component type. */
  datatype Getter = Getter(field: string, dependsOn: set<string>)

  /** The active-property record of a component type. */
  datatype ActiveProperties = ActiveProperties(data: set<string>, prop: set<string>, getter: set<Getter>)

  /** What the registry knows of a component constructor: its class name, its
      `$$data` list (fields copied from the owner on a rebuild), the field
      values its constructor initialises, and whether its prototype carries
      the `$$init` and `$$create` hooks as functions. */
  datatype Constructor = Constructor(
    name: string,
    inheritedData: seq<string>,
    defaults: map<string, Value>,
    hasInit: bool,
    hasCreate: bool)

  /** A registered component: template, constructor and active properties. */
  datatype Definition = Definition(node: ComponentNode, ctor: Constructor, viewModel: ActiveProperties)

  /** A display object built by the display-object builder (only its id is used here). */
  datatype DisplayObject = DisplayObject(displayId: int)

  /** A declared watch: when `property` changes, call method `func`. */
  datatype Watch = Watch(property: string, func: string)

  /** The context an entry is bound with: the owner, or the built instance itself. */
  datatype Ctx = OwnerCtx | SelfCtx(id: int)

  /** One observable call made by the registry, in the order it is made. */
  datatype Event =
    | Construct(id: int)
    | CopyData(field: string, value: Value)
    | InitViewModel(id: int, fields: map<string, Value>)
    | WarnNormal(component: string, attribute: string)
    | AssignNormal(field: string, value: Value)
    | WarnDirective(directive: string, argument: string)
    | BindDirective(directive: string, argument: string, ctx: Ctx)
    | InitHook(id: int)
    | BindCondition(argument: string, ctx: Ctx)
    | StoreInstance(id: int)
    | AttachWatch(id: int, property: string, func: string)
    | BuildDisplay(id: int, template: string)
    | SetRoot(id: int, root: Option<DisplayObject>)
    | AddToContainer(display: DisplayObject)
    | CreateHook(id: int)
    | ResetRepeat(id: int)
    | DeleteDisplay(displayId: int)
    | InitActiveProperty(component: string)
    | FlushPending(component: string)
}
