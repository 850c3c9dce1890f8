/** Two pages end to end.

    The form page: a template bound to `name` with initial state
    `{"name": "uninput."}` renders `<div>This is {{$state.name}}</div>`, a
    form with namespace `name` has one field `name`, and typing into that
    field re-renders the template with the typed text.

    The button page: a template bound to `name` with initial state
    `"unmutated."` renders `<div>This is {{$state}}</div>`, and a button
    with the action `click:set('name', 'now mutated.')` commits the new text
    under `name`, which re-renders the template.

    The JSON parser, the expression evaluator and the call reader are
    stand-ins that understand exactly the payloads, expressions and call
    texts used here. */
module Scenarios {
  import opened JsValues
  import opened PathStore
  import opened Methods
  import opened Render
  import opened Forms
  import opened ActionSpecs
  import opened Engine

  const Payload: string := "{ \"name\": \"uninput.\" }"
  const NameExpr: string := "$state.name"

  /** `<div>This is {{expr}}</div>`, the body of both templates. */
  function Page(expr: string): Markup {
    [Text(PageSegments(expr))]
  }

  function PageSegments(expr: string): seq<Segment> {
    [Lit("<div>This is "), Interp(expr), Lit("</div>")]
  }

  lemma PageSerializes(expr: string)
    ensures Serialize(Page(expr)) == PageSegments(expr)
  {
    assert Page(expr)[..0] == [];
    assert Serialize(Page(expr)) == [] + PageSegments(expr);
  }

  lemma PageInterpolates(expr: string, state: Value, registry: Registry, eval: Evaluator, text: string)
    requires SegmentText(Interp(expr), state, registry, eval) == Some(text)
    ensures Interpolation(PageSegments(expr), state, registry, eval) == Some("<div>This is " + text + "</div>")
  {
    var segs := PageSegments(expr);
    var open := "<div>This is ";
    assert segs[..1][..0] == [];
    assert "" + open == open;
    assert Interpolation(segs[..1], state, registry, eval) == Some(open);
    assert segs[..2][..1] == segs[..1] && segs[..2][1] == segs[1];
    assert Interpolation(segs[..2], state, registry, eval) == Some(open + text);
    assert segs[..3] == segs && segs[..3][..2] == segs[..2];
  }

  /** The page shows the text its interpolation yields. */
  lemma PageShows(expr: string, state: Value, registry: Registry, eval: Evaluator, text: string)
    requires SegmentText(Interp(expr), state, registry, eval) == Some(text)
    ensures Rendering(Page(expr), state, registry, eval) == Some("<div>This is " + text + "</div>")
  {
    PlainMarkupRendering(Page(expr), state, registry, eval);
    PageSerializes(expr);
    PageInterpolates(expr, state, registry, eval, text);
  }

  function Greeting(): Markup {
    Page(NameExpr)
  }

  function NamedState(name: string): Value {
    Obj(map["name" := Str(name)])
  }

  /** `JSON.parse` on the one payload of the form page. */
  function ParsePayload(text: string): Option<Value> {
    if text == Payload then Some(NamedState("uninput.")) else None
  }

  /** `return $state.name`, with anything else taken to throw. */
  function EvalName(expr: string, scope: Scope): Option<Value> {
    if expr == NameExpr then Some(Field(scope.state, "name")) else None
  }

  function NoCall(text: string, event: Value): Option<CallExpr> {
    None
  }

  function NoCode(name: string, args: seq<Value>, store: Store): Option<Value> {
    None
  }

  /** The greeting shows whatever name the state holds. */
  lemma GreetingShowsName(name: string, registry: Registry)
    ensures Rendering(Greeting(), NamedState(name), registry, EvalName) == Some("<div>This is " + name + "</div>")
  {
    assert Field(NamedState(name), "name") == Str(name);
    PageShows(NameExpr, NamedState(name), registry, EvalName, name);
  }

  /** A document with one template binds just that template. */
  lemma OneTemplate(t: TemplateDecl, s: Store, registry: Registry, eval: Evaluator, html: string)
    requires FirstView(t, s, registry, eval) == Some(html)
    ensures FirstViews([t], s, registry, eval) == Some([html])
    ensures BindingsOf([t]) == [BindingOf(t)]
  {
    assert FirstRenderings([t], s, registry, eval) == [Some(html)];
    var rs: seq<Option<string>> := [Some(html)];
    assert rs[..0] == [];
    assert Collect(rs) == Some([] + [html]);
    assert [] + [html] == [html];
    assert [t][..0] == [];
  }

  /** The page commits its one payload under the template's id. */
  lemma PageCommitsPayload(template: TemplateDecl)
    requires template == TemplateDecl("name", "", Payload, Greeting())
    ensures InitialCommits([template], ParsePayload) == Some([Mutation("name", NamedState("uninput."))])
    ensures Retrieve(Replay([Mutation("name", NamedState("uninput."))]), "name") == NamedState("uninput.")
  {
    var initial := [Mutation("name", NamedState("uninput."))];
    assert [template][..0] == [];
    assert InitialCommit(template, ParsePayload) == Some(initial);
    assert [] + initial == initial;
    assert initial[..0] == [];
  }

  /** The two texts the form page shows, spelled out; kept apart from the
      scenario methods so that literal-string reasoning stays out of them. */
  lemma GreetingTexts()
    ensures "<div>This is " + "uninput." + "</div>" == "<div>This is uninput.</div>"
    ensures "<div>This is " + "now input." + "</div>" == "<div>This is now input.</div>"
  {
  }

  /** `start()` on the page: the template shows its initial state and the
      form field has its listener. */
  method StartPage() returns (e: Engine)
    ensures fresh(e) && e.Valid()
    ensures e.log == [Mutation("name", NamedState("uninput."))]
    ensures e.bindings == [Binding("name", "name", Greeting())]
    ensures e.views == ["<div>This is uninput.</div>"]
    ensures e.inputListeners == [InputListener(0, "name", "name")]
    ensures e.eval == EvalName
  {
    var template := TemplateDecl("name", "", Payload, Greeting());
    var doc := Document([template], [], [FormDecl("name", ["name"])]);
    PageCommitsPayload(template);
    GreetingShowsName("uninput.", MergeRegistry(None));
    GreetingTexts();
    OneTemplate(template, Replay([Mutation("name", NamedState("uninput."))]), MergeRegistry(None), EvalName,
                "<div>This is uninput.</div>");
    var r := Start(doc, None, ParsePayload, EvalName, NoCall, NoCode);
    if !r.Running? {
      assert false;
    }
    e := r.engine;
    assert doc.forms[..0] == [];
    assert e.views[0] == "<div>This is uninput.</div>";
  }

  /** Start on the page, then one `input` event carrying "now input.". */
  method FormScenario() returns (before: string, after: string)
    ensures before == "<div>This is uninput.</div>"
    ensures after == "<div>This is now input.</div>"
  {
    var e := StartPage();
    before := e.views[0];
    e.Input(0, "now input.");
    var initial := [Mutation("name", NamedState("uninput."))];
    assert FormMerge(NamedState("uninput."), "name", Str("now input.")) == NamedState("now input.");
    assert e.log == initial + [Mutation("name", NamedState("now input."))];
    assert (e.log)[..1] == initial && initial[..0] == [];
    assert Retrieve(e.store, "name") == NamedState("now input.");
    GreetingShowsName("now input.", e.registry);
    GreetingTexts();
    assert e.Shows(e.bindings[0], e.views[0], e.store);
    after := e.views[0];
  }

  // ---------------------------------------------------------------------
  // The button page

  const Word: string := "\"unmutated.\""
  const SetCall: string := "set('name', 'now mutated.')"
  const ClickSpec: string := "click:set('name', 'now mutated.')"

  function Banner(): Markup {
    Page("$state")
  }

  /** `JSON.parse` on the one payload of the button page. */
  function ParseWord(text: string): Option<Value> {
    if text == Word then Some(Str("unmutated.")) else None
  }

  /** `return $state`, with anything else taken to throw. */
  function EvalState(expr: string, scope: Scope): Option<Value> {
    if expr == "$state" then Some(scope.state) else None
  }

  /** `return $methods.set('name', 'now mutated.')`, read as a call. */
  function ReadSetCall(text: string, event: Value): Option<CallExpr> {
    if text == SetCall then Some(Call("set", [Str("name"), Str("now mutated.")])) else None
  }

  /** The banner shows whatever text the state holds. */
  lemma BannerShowsText(text: string, registry: Registry)
    ensures Rendering(Banner(), Str(text), registry, EvalState) == Some("<div>This is " + text + "</div>")
  {
    PageShows("$state", Str(text), registry, EvalState, text);
  }

  /** The attribute holds one spec: it has no `;`. */
  lemma SpecIsOnePiece()
    ensures Split(ClickSpec, ';') == [ClickSpec]
  {
    assert ';' !in ClickSpec;
    SplitPrefix(ClickSpec, "", ';');
    assert ClickSpec + "" == ClickSpec;
  }

  /** The call text has no colon, so the spec splits into exactly two halves. */
  lemma NoColonInCall()
    ensures ':' !in SetCall
  {
  }

  /** The spec reads as the trigger `click` and the call text `SetCall`. */
  lemma SpecReadsAsSet()
    ensures ParseAction(ClickSpec) == ActionSpec("click", SetCall)
  {
    NoColonInCall();
    assert ClickSpec == "click" + ":" + SetCall;
    WellFormedSpec("click", SetCall);
  }

  /** The button's attribute registers one `click` listener running `SetCall`. */
  lemma ButtonListeners()
    ensures ActionListenersOf([ClickSpec]) == [ActionListener(0, "click", SetCall)]
  {
    SpecIsOnePiece();
    SpecReadsAsSet();
    OneSpecListeners(ClickSpec);
  }

  /** A single action element whose attribute is one spec registers one listener. */
  lemma OneSpecListeners(attr: string)
    requires Split(attr, ';') == [attr]
    ensures ActionListenersOf([attr]) == [ActionListener(0, ParseAction(attr).trigger, ParseAction(attr).call)]
  {
    var ls := ElementListeners(0, attr);
    assert |ls| == 1 && ls[0] == ActionListener(0, ParseAction(attr).trigger, ParseAction(attr).call);
    assert [attr][..0] == [];
    assert ActionListenersOf([attr]) == [] + ls;
  }

  /** The click commits `"now mutated."` under `name`. */
  lemma ClickCommits(registry: Registry, s: Store)
    requires registry == MergeRegistry(None)
    ensures DispatchOutcome(SetCall, Undefined, registry, s, ReadSetCall, NoCode)
         == Some(Mutation("name", Str("now mutated.")))
  {
    SetCommitsItsArguments(SetCall, Undefined, registry, s, s, ReadSetCall, NoCode, "name", Str("now mutated."));
  }

  /** The button page commits its one payload under the template's id. */
  lemma ButtonPageCommitsWord(template: TemplateDecl)
    requires template == TemplateDecl("name", "", Word, Banner())
    ensures InitialCommits([template], ParseWord) == Some([Mutation("name", Str("unmutated."))])
    ensures Retrieve(Replay([Mutation("name", Str("unmutated."))]), "name") == Str("unmutated.")
  {
    var initial := [Mutation("name", Str("unmutated."))];
    assert [template][..0] == [];
    assert InitialCommit(template, ParseWord) == Some(initial);
    assert [] + initial == initial;
    assert initial[..0] == [];
  }

  /** The two texts the button page shows, spelled out, as for the form page. */
  lemma BannerTexts()
    ensures "<div>This is " + "unmutated." + "</div>" == "<div>This is unmutated.</div>"
    ensures "<div>This is " + "now mutated." + "</div>" == "<div>This is now mutated.</div>"
  {
  }

  /** `start()` on the button page. */
  method StartButtonPage() returns (e: Engine)
    ensures fresh(e) && e.Valid()
    ensures e.registry == MergeRegistry(None) && e.read == ReadSetCall && e.code == NoCode && e.eval == EvalState
    ensures e.log == [Mutation("name", Str("unmutated."))]
    ensures e.bindings == [Binding("name", "name", Banner())]
    ensures e.views == ["<div>This is unmutated.</div>"]
    ensures e.actionListeners == [ActionListener(0, "click", SetCall)]
  {
    var template := TemplateDecl("name", "", Word, Banner());
    var doc := Document([template], [ClickSpec], []);
    ButtonPageCommitsWord(template);
    BannerShowsText("unmutated.", MergeRegistry(None));
    BannerTexts();
    OneTemplate(template, Replay([Mutation("name", Str("unmutated."))]), MergeRegistry(None), EvalState,
                "<div>This is unmutated.</div>");
    ButtonListeners();
    var r := Start(doc, None, ParseWord, EvalState, ReadSetCall, NoCode);
    if !r.Running? {
      assert false;
    }
    e := r.engine;
    assert e.views[0] == "<div>This is unmutated.</div>";
  }

  /** Start on the button page, then one click on the button. */
  method ButtonScenario() returns (before: string, after: string)
    ensures before == "<div>This is unmutated.</div>"
    ensures after == "<div>This is now mutated.</div>"
  {
    var e := StartButtonPage();
    before := e.views[0];
    ghost var s0 := e.store;
    e.Fire(0, "click", Undefined);
    var listener := ActionListener(0, "click", SetCall);
    var commit := Mutation("name", Str("now mutated."));
    ClickCommits(e.registry, Apply(s0, []));
    assert [listener][..0] == [];
    assert e.Fired([listener], 0, "click", Undefined, s0) == [commit];
    var initial := [Mutation("name", Str("unmutated."))];
    assert e.log == initial + [commit];
    assert (e.log)[..1] == initial && initial[..0] == [];
    assert Retrieve(e.store, "name") == Str("now mutated.");
    BannerShowsText("now mutated.", e.registry);
    BannerTexts();
    assert e.Shows(e.bindings[0], e.views[0], e.store);
    after := e.views[0];
  }
}
