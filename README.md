# sprinkle: the binding engine, modelled in Dafny

sprinkle binds `<template data-sprinkle-id>` elements to a path store.
`start()` does the following, in order:

1. Creates the store and merges the default method registry (`set`, `toggle`, `get`, `post`, `put`) with any methods the page supplies.
2. Commits every template's `data-sprinkle-state` under the template's id.
3. Renders each template against the state at its path and subscribes it to that path. The path is its `data-sprinkle-namespace`, or its id when that is empty.
4. Registers a listener for every `trigger:call` spec of every `data-sprinkle-actions` element.
5. Registers an `input` listener for every named field of every `<form data-sprinkle-namespace>`.

After that, state changes only through `commit`. In this model a commit comes either from an action result or from a form field. Methods the page supplies also receive the store (index.ts:112), but here they only return a value (see "## Left out"). Every commit re-renders the templates bound to the committed path. Each re-render starts from the original markup.

A render pass (`getTemplate`) has three steps, always in this order:

- Remove every `data-sprinkle-if` element whose guard is falsy.
- Replace the content of every `data-sprinkle-for` element with one copy per item.
- Replace every `{{expr}}` by the text of its value.

The modules are:

- `JsValues` (`values.dfy`): JavaScript values, truthiness, property reads and `String(v)`. It also defines `Collect`, the result of a loop whose body may throw.
- `PathStore` (`store.dfy`): the store as a map from path to value. `Apply` and `Replay` give the store after a sequence of commits.
- `Methods` (`methods.dfy`): the registry, `set` and `toggle`, and what an action's evaluation commits.
- `Render` (`render.dfy`): the three-step render pass. Each step is a method with a loop, proved against a function that specifies it.
- `ActionSpecs` (`actions.dfy`): splitting a `data-sprinkle-actions` attribute on `;` and on `:`.
- `Forms` (`forms.dfy`): the shallow merge `{...current, [name]: value}` that a form field commits.
- `Engine` (`engine.dfy`):
  - the class `Engine`, which holds the store, the commit log (ghost), the bindings, the live views, the subscribers, the `templates` record and the listeners;
  - the method `Start`.
- `Scenarios` (`scenarios.dfy`): the repository's two non-skipped tests (index.spec.ts:13-26, 45-59), the button click and the form input, as concrete runs adapted as described below.

`Engine.Valid()` is kept by every method. It says four things:

- the store is the replay of the commit log, so nothing changes the store except a commit;
- subscriber `k` listens on binding `k`'s path;
- `templates` points every id at a binding with that id;
- every view shows the rendering of its binding's original markup against the current state at its path, whenever that rendering succeeds. This holds because expressions here read only `$state` (see "## Left out").

Expression evaluation (`new Function(...)`) is an abstract parameter `Evaluator = (string, Scope) -> Option<Value>`, where `None` means the evaluation threw. In the same way:

- `JSON.parse` is a parameter `JsonParser`;
- reading `$methods.<text>` is a `CallReader`;
- the page's own methods are `SuppliedCode`.

In the following places the code does something other than what its tests or its comments suggest. The model follows the code in each:

- Initial state is committed under the template's id (index.ts:120-123), but rendering and subscribing use the namespace (index.ts:131). The skipped test at index.spec.ts:28-41 expects a namespaced template to show its own state. `NamespacedTemplateMissesItsState` shows what the code does instead: such a template renders against `undefined`.
- The tests write interpolations as `{{= it.name }}`. The code evaluates `return <text>` with only `$methods` and `$state` bound (index.ts:99). With that text it would evaluate `return = it.name`, which does not parse, so `start()` would throw on the first render. `Scenarios` therefore writes the form test's greeting as `{{$state.name}}`.
- The per-item pattern `^{{(.*?)}}` (index.ts:106) is anchored at the start, and `outerHTML` starts with `<` (index.ts:90). So no copy of a `data-sprinkle-for` element binds `$item`, and every copy is the element's markup verbatim (`ExpansionIsVerbatim`).
- `start` stops at the first template whose first rendering throws (index.ts:135), and the later templates stay unbound (`Start`, `RenderFailed`).
- A spec without a colon is registered like any other (index.ts:156). Its call text is `undefined` (`ParseAction`), and the failure only shows when the event fires.
- Action results are not awaited (index.ts:158-160). The Promise that `get`, `post` or `put` returns is truthy but has no `path`, so it commits nothing here (`Invoke`).

The button test (index.spec.ts:13-26) commits to the nested path `name/name`, which the store library resolves inside the `name` object. Paths are opaque keys here, so `Scenarios` runs that test in a flat form:
- the template's state is the string `"unmutated."`;
- its body is `<div>This is {{$state}}</div>`;
- the button's action is `click:set('name', 'now mutated.')`.

## Model

| member | source | states |
|---|---|---|
| JsValues.CollectSome | index.ts:86-95 | a loop whose body may throw completes exactly when no iteration throws |
| JsValues.CollectInOrder | index.ts:86-95 | a completed loop yields one value per iteration, the k-th value being the k-th iteration's |
| JsValues.CollectSnoc | index.ts:86-95 | one more iteration appends its value, or its throw aborts the loop |
| JsValues.Truthy | index.ts:78 | a value is falsy exactly when it is `undefined`, `null`, `false`, `0` or the empty string |
| JsValues.ToJsString | index.ts:91 | `String(v)` of a string is the string itself, and the text of an integer reads back as that integer |
| PathStore.ApplyKeys | index.ts:160 | after a sequence of commits the store holds exactly the paths it held before plus the committed ones |
| PathStore.ApplyConcat | index.ts:160 | committing one sequence and then another is committing their concatenation |
| PathStore.RetrieveUntouched | index.ts:174 | `retrieve(p)` is unchanged by commits that never name `p` |
| PathStore.RetrieveLastCommit | index.ts:174 | `retrieve(p)` returns the value of the last commit to `p` |
| Methods.DefaultMethods | index.ts:37-71 | the defaults are exactly `get`, `post`, `put`, `set`, `toggle`; `set` and `toggle` are the synchronous ones |
| Methods.MergeRegistry | index.ts:112 | with no supplied methods the registry is the defaults; otherwise it has every default name and every supplied name, a supplied method replaces a default of the same name, and other defaults stay |
| Methods.SetResult | index.ts:63-65 | `set(path, value)` returns a truthy object with exactly the keys `path` and `value`, holding the arguments unchanged, and it takes no store |
| Methods.ToggleResult | index.ts:66-69 | `toggle(path)` returns a truthy `{path, value}` whose value is the negation of the truthiness of what the store holds at `path` |
| Methods.CommitOf | index.ts:159-161 | an action result leads to a commit exactly when it is truthy and has a string `path`, and the commit is `(value.path, value.value)` |
| Methods.DispatchOutcome | index.ts:157-161 | a listener commits nothing when its call text throws or only reads a name; when it commits, the evaluated result was truthy with a string `path`, and the commit is `(value.path, value.value)` |
| Methods.Invoke | index.ts:37-71 | the default methods never throw and return a truthy value; `set` and `toggle` return their first argument as `path`; a `get`, `post` or `put` Promise commits nothing |
| Methods.EvaluateAction | index.ts:158 | an unreadable call text throws; calling a name the registry lacks throws; reading a name without calling it yields a function when the registry has it and `undefined` otherwise, and commits nothing |
| Methods.SetCommitsItsArguments | index.ts:157-161 | an action reading `set(p, v)` commits exactly `v` under `p`, independent of the store |
| Methods.ToggleCommitsNegation | index.ts:66-69 | an action reading `toggle(p)` commits the negation of what `p` holds |
| Methods.ToggleTwiceRestores | index.ts:66-69 | toggling a boolean twice, committing in between, commits the original value back |
| Methods.FalsyCommitsNothing | index.ts:158-161 | a falsy result, or an evaluation that throws, commits nothing |
| Render.Outer | index.ts:90 | an element's `outerHTML` begins with a literal `<` |
| Render.Guard | index.ts:78 | only an element carrying `data-sprinkle-if` can be removed; its guard throws exactly when its expression does |
| Render.RemoveConditionals | index.ts:76-82 | the `data-sprinkle-if` loop returns the kept parts that `Prune` specifies, or fails when a guard throws |
| Render.PruneKeepsExactly | index.ts:76-82 | a part survives removal exactly when it was present and its guard is truthy |
| Render.PruneFailsIff | index.ts:77-78 | removal fails exactly when some guard evaluation throws |
| Render.PruneConcat | index.ts:76-82 | removal works piecewise and keeps the order of what it keeps |
| Render.PrunedElementReappears | index.ts:76-82 | an element removed under a falsy guard is present again under a state where its guard is truthy, because each pass starts from the original markup |
| Render.PruneUnguarded | index.ts:76-82 | markup without `data-sprinkle-if` is kept whole |
| Render.Items | index.ts:89 | `iterator.map` works exactly on arrays; on any other value it throws |
| Render.RenderItem | index.ts:90-91 | a copy whose markup does not start with `{{expr}}` is the markup unchanged; otherwise only that leading interpolation is replaced, evaluated with `$item` bound, and the copy fails exactly when it throws |
| Render.Expansion | index.ts:89-93 | an empty item sequence yields no content |
| Render.ExpansionConcat | index.ts:89-93 | the copies for `a + b` are the copies for `a` followed by those for `b`, in order |
| Render.ExpansionIsVerbatim | index.ts:90-92 | since the per-item pattern is anchored at the start and `outerHTML` starts with `<`, every copy is the element's markup verbatim |
| Render.ExpandPart | index.ts:86-95 | an expanded part keeps its kind, tag and guard and loses its `data-sprinkle-for`; a part without the directive is unchanged |
| Render.ExpandAllLength | index.ts:85-95 | the iteration step yields one part per part |
| Render.ExpandAllClearsDirectives | index.ts:88 | no `data-sprinkle-for` directive survives the iteration step |
| Render.ExpandAllKeepsPlainParts | index.ts:85-95 | parts without `data-sprinkle-for` come through the iteration step unchanged and in place |
| Render.ExpandUnrepeated | index.ts:85-95 | markup without `data-sprinkle-for` is unchanged by the iteration step |
| Render.ExpandRepeated | index.ts:85-95 | the `data-sprinkle-for` loop returns what `ExpandAll` specifies |
| Render.SegmentText | index.ts:98-99 | literal text is kept as is; an interpolation fails exactly when its expression, with `$methods` and `$state` bound and no `$item`, throws |
| Render.Interpolate | index.ts:98-100 | the interpolation returns the concatenated segment texts that `Interpolation` specifies, or fails when an expression throws |
| Render.InterpolationConcat | index.ts:98-100 | interpolating a concatenation concatenates the interpolations |
| Render.InterpolationOfLiterals | index.ts:98-100 | markup without `{{...}}` comes out as its literal text, whatever the state |
| Render.Render | index.ts:73-101 | `getHTML` runs removal, then iteration, then interpolation, and returns what `Rendering` specifies |
| Render.PlainMarkupRendering | index.ts:73-101 | markup without directives renders as its interpolated text |
| ActionSpecs.Split | index.ts:153 | splitting yields at least one piece and no piece contains the separator |
| ActionSpecs.SplitJoin | index.ts:153 | joining the pieces with the separator gives the attribute back |
| ActionSpecs.JoinSplit | index.ts:153 | separator-free pieces come back from splitting their join |
| ActionSpecs.SplitPrefix | index.ts:156 | separator-free text in front of a string extends its first piece |
| ActionSpecs.ParseAction | index.ts:156 | the trigger holds no colon; without a colon the spec is all trigger and the call is `undefined`; with one, the spec starts with `trigger:call` and the call holds no colon |
| ActionSpecs.WellFormedSpec | index.ts:156 | `trigger:call` with no other colon reads back as its trigger and its call |
| ActionSpecs.SecondColonTruncatesCall | index.ts:156 | a second colon cuts the call text short and what follows it is dropped |
| ActionSpecs.ParseActionsJoin | index.ts:153-156 | specs whose triggers and calls hold neither `:` nor `;`, joined as `trigger:call` with `;`, read back as exactly those specs, in order |
| Forms.FormMerge | index.ts:174-175 | the merged object has the current own entries plus the field name as keys; the field holds the typed value and every other entry is kept |
| Forms.FieldsAccumulate | index.ts:173-176 | two different fields filled in turn both end up in the namespace object, and earlier entries stay |
| Forms.SameFieldOverwrites | index.ts:175 | typing into the same field twice keeps only the latest value |
| Forms.MergeExample | index.ts:175 | `{a: 1, b: 2}` with input `b` = 9 gives `{a: 1, b: 9}` |
| Engine.NamespaceOf | index.ts:131 | the path is the namespace attribute when non-empty, the id otherwise |
| Engine.InitialCommit | index.ts:119-124 | a template commits nothing without a state and at most one value with one, always under its id and equal to the parsed state; it fails exactly when a non-empty state does not parse |
| Engine.InitialCommitsUnderIds | index.ts:118-125 | every initial commit is a template's parsed state under that template's id, and every template with a non-empty state commits it |
| Engine.InitialStateVisibleUnderId | index.ts:118-125 | after the initial commits, a template's id holds its parsed state unless a later template with the same id and a state overwrites it |
| Engine.NamespacedTemplateMissesItsState | index.ts:119-135 | a template whose namespace differs from its id commits under the id and reads `undefined` at its namespace |
| Engine.TemplateIndexKeys | index.ts:144-147 | the `templates` record has an entry for an id exactly when some template carries it |
| Engine.TemplateIndexLastWins | index.ts:144-147 | an id's entry is the last template carrying that id |
| Engine.BindingsOfPointwise | index.ts:129-131 | there is one binding per template, the k-th bound to the k-th template's path |
| Engine.FirstViewsExist | index.ts:129-135 | the first views exist exactly when every template's first rendering succeeds |
| Engine.FirstViewsInOrder | index.ts:129-135 | there is one first view per template, the k-th being the k-th template's rendering against the state at its path |
| Engine.ElementListeners | index.ts:153-157 | one listener per `;`-separated spec of an element, with that spec's trigger and call, in order |
| Engine.FieldListeners | index.ts:170-173 | one `input` listener per named field, bound to the form's namespace |
| Engine.ActionListenerSource | index.ts:151-164 | every registered action listener comes from one spec of one action element |
| Engine.ActionListenerRegistered | index.ts:151-164 | every spec of every action element registers its listener |
| Engine.ActionListenersComplete | index.ts:151-164 | the action listeners are exactly those of the specs of the action elements |
| Engine.InputListenersComplete | index.ts:167-178 | the input listeners are exactly one per named field of each form, bound to that form's namespace |
| Engine.Engine.constructor | index.ts:109 | a fresh engine has an empty store and log, no bindings and no listeners |
| Engine.Engine.Commit | index.ts:138-142 | a commit sets the store at the path and appends to the log. Views bound to the path show the rendering of their original markup against the new value, or keep their content if that rendering throws. Other views, bindings and listeners are unchanged, and `Valid` is kept |
| Engine.Engine.ViewsAfterConcat | index.ts:138-142 | re-rendering after two runs of commits in turn is re-rendering after their concatenation |
| Engine.Engine.ViewsAfterUntouched | index.ts:138-142 | a view whose path no commit names keeps its content, whatever the other views' renderings do |
| Engine.Engine.Notify | index.ts:138-142 | each subscriber of the committed path re-renders its view from the original markup; the others keep theirs |
| Engine.Engine.Dispatch | index.ts:157-161 | a firing action listener appends to the log exactly the commit its evaluation's result calls for, if any. The views are those that commit leaves (`ViewsAfter`), so a view whose re-render throws keeps its content. Subscribers, bindings and listeners are unchanged |
| Engine.Engine.Offer | index.ts:157 | a listener reacts only to its own element and trigger. A matching one commits and re-renders as `Dispatch` does; a non-matching one leaves the store and the views unchanged |
| Engine.Engine.Fire | index.ts:152-163 | an event commits what the element's listeners for that trigger commit, in registration order, each against the state the previous ones left. The views are those the whole run of commits leaves (`ViewsAfter`), and subscribers and listeners are unchanged |
| Engine.Engine.Input | index.ts:173-176 | typing into a field commits, at the form's namespace, the current value merged with the typed field. The views are those that commit leaves, and subscribers and listeners are unchanged |
| Engine.Engine.CommitInitialState | index.ts:119-124 | a template commits its parsed state under its id when it declares one; a payload that does not parse fails |
| Engine.Engine.CommitInitialStates | index.ts:118-125 | the first loop commits exactly the initial commits, or reports the first template whose payload does not parse, every earlier one having parsed |
| Engine.Engine.Bind | index.ts:129-147 | binding a template appends its binding, its first view and a subscriber on its path, and records its id; nothing changes if the first rendering throws |
| Engine.Engine.BindTemplates | index.ts:129-148 | the second loop creates exactly the bindings, first views and `templates` record of all templates, or reports the first template whose first rendering throws, every earlier one having rendered |
| Engine.Engine.RegisterElement | index.ts:153-163 | an action element registers one listener per spec, in attribute order |
| Engine.Engine.RegisterActions | index.ts:151-164 | the action loop registers exactly the listeners of all action elements |
| Engine.Engine.RegisterForm | index.ts:169-177 | a form registers one `input` listener per named field |
| Engine.Engine.RegisterForms | index.ts:167-178 | the form loop registers exactly the listeners of all forms |
| Engine.Start | index.ts:104-181 | `start` fails at the first template with a malformed initial state, or at the first template whose first rendering throws. Otherwise it yields a valid engine. Its log is the initial commits, and its views are the templates' renderings against the state after those commits. Its listeners are those of the document |
| Scenarios.PageShows | index.ts:98-100 | `<div>This is {{expr}}</div>` renders with the text that `expr` yields |
| Scenarios.OneTemplate | index.ts:129-147 | a document with one template that renders gets exactly that template's binding and first view |
| Scenarios.PageCommitsPayload | index.spec.ts:47 | the form test's template commits `{"name": "uninput."}` under `name` |
| Scenarios.GreetingShowsName | index.spec.ts:48 | the greeting renders `<div>This is NAME</div>` for the name in the state |
| Scenarios.StartPage | index.spec.ts:46-56 | after `start()` the page shows `This is uninput.` and the form field has its listener |
| Scenarios.FormScenario | index.spec.ts:45-59 | an `input` event carrying `now input.` changes the view to `This is now input.` |
| Scenarios.ButtonPageCommitsWord | index.spec.ts:15 | the button page's template commits `"unmutated."` under `name` |
| Scenarios.BannerShowsText | index.spec.ts:16 | the banner renders `<div>This is TEXT</div>` for the text in the state |
| Scenarios.SpecIsOnePiece | index.ts:153 | the button's attribute holds a single spec |
| Scenarios.SpecReadsAsSet | index.ts:156 | the spec reads as the trigger `click` and the call `set('name', 'now mutated.')` |
| Scenarios.ButtonListeners | index.spec.ts:18 | the button registers exactly one `click` listener, running that call |
| Scenarios.ClickCommits | index.ts:157-161 | the click commits `"now mutated."` under `name`, whatever the store holds |
| Scenarios.StartButtonPage | index.spec.ts:14-22 | after `start()` the page shows `This is unmutated.` and the button has its listener |
| Scenarios.ButtonScenario | index.spec.ts:13-26 | a click on the button changes the view to `This is now mutated.` |

## Left out

- The `get`, `post` and `put` defaults (index.ts:39-62) issue network requests. Calling one yields an unresolved Promise, which is a truthy value with no string `path`, so it commits nothing here.
- Render.Interpolate, Engine.Engine.Commit: expressions are taken to read only `$state`. In the code they also see `$methods`, so an interpolation such as `{{$methods.toggle('other').value}}` reads the live store at a path the view is not subscribed to (index.ts:66-67). After a commit to that path the program's view goes stale. Likewise, `get`, `post` or `put` in an interpolation starts a request on every render, and supplied methods are built from the store (index.ts:112). Neither store reads nor network effects through `$methods` are modelled here: the `Evaluator` is a function of the expression and the scope, whose `$methods` holds only the registry's entries.
- `new Function` is not interpreted. Expressions go through the abstract `Evaluator`, and action call texts through the abstract `CallReader`. The text-level plumbing of `substring.replace(regex, "$1")` is part of that evaluator.
- DOM parsing and serialisation are left out: `innerHTML` parsing, HTML escaping, `querySelectorAll` and `replaceWith`. Markup is a flat sequence of text runs and directive elements, so nested directive elements are not modelled.
- A directive element keeps its other attributes, whose values may hold `{{expr}}`. They are serialised before `data-sprinkle-if` and `data-sprinkle-for` rather than in their source order.
- Action elements and forms are taken to lie outside the templates. In the code, the action and form queries (index.ts:151, 167) run after the templates have been replaced by their views (index.ts:136). So they also find elements inside a first rendering, and the next re-render (index.ts:141) replaces those elements and their listeners. Here listeners do not depend on the views.
- Supplied methods are taken not to commit on their own. In the code they receive the store (index.ts:112) and may call `store.commit` directly. Here a supplied method only returns a value, and that value goes through `if (value) store.commit(...)`.
- The internals of the external store are left out. A path is an opaque key, and a commit to `N` notifies only the subscribers of `N`. The nested-path resolution the store library may apply (the `name/name` path in index.spec.ts:18) is not modelled.
- A truthy action result whose `path` is not a string (for example an unawaited Promise) is taken to commit nothing, because the store's behaviour for such paths is not visible.
- When a re-render throws, the view keeps its previous content and the other subscribers still run. The store's behaviour when a subscriber throws is not visible.
- When `start` throws midway, it leaves the document partly bound. The model returns the failure without the partial engine.
- Custom delimiters and the RegExp engine (index.ts:106) are fixed to `{{`/`}}`. The text scanning of `/{{(.*?)}}/g` is represented by the already-split `Segment` sequence.
- Forms.FormMerge: spreading an array or a string value copies its indices in JavaScript. Here only objects contribute entries.
- JsValues.ToJsString: numbers are integers, so floating-point formatting is not modelled.
- Promise resolution, async ordering and event propagation between elements are not modelled.
