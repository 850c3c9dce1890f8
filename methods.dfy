/** The method registry an action calls into (`getDefaultMethods` and the
    merge in `start`), and what running an action does: evaluate
    `$methods.<call>`, and turn a truthy `{path, value}` result into one
    commit. */
module Methods {
  import opened JsValues
  import opened PathStore

  /** A registry entry. `Set` and `Toggle` are the synchronous defaults;
      `Fetch(verb)` is one of the default `get`, `post`, `put` helpers;
      `Supplied(name)` is a method the page supplied. */
  datatype Method = Set | Toggle | Fetch(verb: string) | Supplied(name: string)

  type Registry = map<string, Method>

  /** The page's own methods, as a function of their name, their arguments
      and the store they can read; `None` when the method throws. */
  type SuppliedCode = (string, seq<Value>, Store) -> Option<Value>

  /** The object `{...getDefaultMethods(store)}` starts from. */
  function DefaultMethods(): (r: Registry)
    ensures r.Keys == {"get", "post", "put", "set", "toggle"}
    ensures r["set"] == Set && r["toggle"] == Toggle
    ensures forall name :: name in r && name != "set" && name != "toggle" ==> r[name].Fetch?
  {
    map["get" := Fetch("GET"), "post" := Fetch("POST"), "put" := Fetch("PUT"),
        "set" := Set, "toggle" := Toggle]
  }

  /** `{ ...getDefaultMethods(store), ...supplied }` when the page supplies
      methods, the defaults alone otherwise. A supplied entry replaces the
      default of the same name; every default name stays. */
  function MergeRegistry(supplied: Option<Registry>): (r: Registry)
    ensures supplied.None? ==> r == DefaultMethods()
    ensures supplied.Some? ==> r.Keys == DefaultMethods().Keys + supplied.value.Keys
    ensures supplied.Some? ==> forall name :: name in supplied.value ==> r[name] == supplied.value[name]
    ensures forall name :: name in DefaultMethods() && (supplied.None? || name !in supplied.value) ==>
              r[name] == DefaultMethods()[name]
  {
    match supplied
    case None => DefaultMethods()
    case Some(extra) => DefaultMethods() + extra
  }

  /** The `i`-th argument of a call, `undefined` when the call passed fewer. */
  function Arg(args: seq<Value>, i: nat): Value {
    if i < |args| then args[i] else Undefined
  }

  /** The object literal `{ path, value }`. */
  function ActionResult(path: Value, value: Value): Value {
    Obj(map["path" := path, "value" := value])
  }

  /** `set(path, value)`: the pair itself; it reads nothing. */
  function SetResult(args: seq<Value>): (r: Value)
    ensures Truthy(r) && r.Obj? && r.fields.Keys == {"path", "value"}
    ensures Field(r, "path") == Arg(args, 0) && Field(r, "value") == Arg(args, 1)
  {
    ActionResult(Arg(args, 0), Arg(args, 1))
  }

  /** `toggle(path)`: the path with the negation of what the store holds there. */
  function ToggleResult(args: seq<Value>, store: Store): (r: Value)
    ensures Truthy(r) && r.Obj? && r.fields.Keys == {"path", "value"}
    ensures Field(r, "path") == Arg(args, 0)
    ensures Field(r, "value") ==
              Bool(!Truthy(if Arg(args, 0).Str? then Retrieve(store, Arg(args, 0).s) else Undefined))
  {
    var path := Arg(args, 0);
    var current := if path.Str? then Retrieve(store, path.s) else Undefined;
    ActionResult(path, Bool(!Truthy(current)))
  }

  /** Calling a registry entry. The async `get`/`post`/`put` return a Promise
      at once; the request behind it is not part of this model. */
  function Invoke(m: Method, args: seq<Value>, store: Store, code: SuppliedCode): (r: Option<Value>)
    ensures !m.Supplied? ==> r.Some? && Truthy(r.value)
    ensures m.Set? || m.Toggle? ==> Field(r.value, "path") == Arg(args, 0)
    ensures m.Fetch? ==> CommitOf(r).None?
  {
    match m
    case Set => Some(SetResult(args))
    case Toggle => Some(ToggleResult(args, store))
    case Fetch(_) => Some(Opaque("[object Promise]"))
    case Supplied(name) => code(name, args, store)
  }

  /** What the text after `$methods.` denotes once evaluated with `$event`
      bound: a call `name(args)` or a plain property read `name`. */
  datatype CallExpr = Call(name: string, args: seq<Value>) | Read(name: string)

  /** The evaluator for `return $methods.<text>`; `None` when it throws
      before reaching a method (a syntax error, say). */
  type CallReader = (string, Value) -> Option<CallExpr>

  /** The value `new Function("$methods", "$event", "return $methods." + text)`
      returns; `None` when it throws. Calling a name the registry lacks
      throws; reading one yields `undefined`. */
  function EvaluateAction(text: string, event: Value, registry: Registry, store: Store,
                          read: CallReader, code: SuppliedCode): (r: Option<Value>)
    ensures read(text, event).None? ==> r.None?
    ensures read(text, event).Some? && read(text, event).value.Call? ==>
              (read(text, event).value.name !in registry ==> r.None?)
    ensures read(text, event).Some? && read(text, event).value.Read? ==>
              r.Some? && (Truthy(r.value) <==> read(text, event).value.name in registry) && CommitOf(r).None?
  {
    match read(text, event)
    case None => None
    case Some(Read(name)) => Some(if name in registry then Opaque("function") else Undefined)
    case Some(Call(name, args)) => if name in registry then Invoke(registry[name], args, store, code) else None
  }

  /** The commit an action result leads to: `if (value) store.commit(value.path, value.value)`.
      Store paths are strings; a truthy result whose `path` is not a string
      (an unawaited Promise, say) is taken to commit nothing. */
  function CommitOf(result: Option<Value>): (c: Option<Mutation>)
    ensures c.Some? <==> result.Some? && Truthy(result.value) && Field(result.value, "path").Str?
    ensures c.Some? ==> c.value == Mutation(Field(result.value, "path").s, Field(result.value, "value"))
  {
    match result
    case None => None
    case Some(v) =>
      if Truthy(v) && Field(v, "path").Str? then Some(Mutation(Field(v, "path").s, Field(v, "value")))
      else None
  }

  /** The commit one action listener makes when its event fires. */
  function DispatchOutcome(text: string, event: Value, registry: Registry, store: Store,
                           read: CallReader, code: SuppliedCode): (c: Option<Mutation>)
    ensures read(text, event).None? ==> c.None?
    ensures read(text, event).Some? && read(text, event).value.Read? ==> c.None?
    ensures c.Some? ==> var r := EvaluateAction(text, event, registry, store, read, code);
                        r.Some? && Truthy(r.value) && Field(r.value, "path").Str? && c.value == Mutation(Field(r.value, "path").s, Field(r.value, "value"))
  {
    CommitOf(EvaluateAction(text, event, registry, store, read, code))
  }

  /** An action that reads as `set(p, v)` commits exactly `v` under `p`,
      whatever the store holds, as long as `set` is still the default. */
  lemma SetCommitsItsArguments(text: string, event: Value, registry: Registry, s1: Store, s2: Store,
                               read: CallReader, code: SuppliedCode, p: string, v: Value)
    requires read(text, event) == Some(Call("set", [Str(p), v]))
    requires "set" in registry && registry["set"] == Set
    ensures DispatchOutcome(text, event, registry, s1, read, code) == Some(Mutation(p, v))
    ensures DispatchOutcome(text, event, registry, s1, read, code)
         == DispatchOutcome(text, event, registry, s2, read, code)
  {
  }

  /** An action that reads as `toggle(p)` commits the negation of what `p` holds. */
  lemma ToggleCommitsNegation(text: string, event: Value, registry: Registry, store: Store,
                              read: CallReader, code: SuppliedCode, p: string)
    requires read(text, event) == Some(Call("toggle", [Str(p)]))
    requires "toggle" in registry && registry["toggle"] == Toggle
    ensures DispatchOutcome(text, event, registry, store, read, code)
         == Some(Mutation(p, Bool(!Truthy(Retrieve(store, p)))))
  {
  }

  /** Toggling a boolean twice, committing in between, restores it. */
  lemma ToggleTwiceRestores(text: string, event: Value, registry: Registry, store: Store,
                             read: CallReader, code: SuppliedCode, p: string, b: bool)
    requires read(text, event) == Some(Call("toggle", [Str(p)]))
    requires "toggle" in registry && registry["toggle"] == Toggle
    requires Retrieve(store, p) == Bool(b)
    ensures var first := DispatchOutcome(text, event, registry, store, read, code);
            first.Some? &&
            DispatchOutcome(text, event, registry, Apply(store, [first.value]), read, code)
              == Some(Mutation(p, Bool(b)))
  {
  }

  /** A falsy result, or an evaluation that throws, commits nothing. */
  lemma FalsyCommitsNothing(text: string, event: Value, registry: Registry, store: Store,
                            read: CallReader, code: SuppliedCode)
    requires var r := EvaluateAction(text, event, registry, store, read, code); r.None? || !Truthy(r.value)
    ensures DispatchOutcome(text, event, registry, store, read, code).None?
  {
  }
}
