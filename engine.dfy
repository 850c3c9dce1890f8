/** `start`: the bound instance. It creates the store, merges the method
    registry, commits every template's initial state, renders each template
    and subscribes it to its namespace, registers the action listeners and
    the form-field listeners. Afterwards every change of state is a commit,
    from an action or a form field, and every commit re-renders, from the
    original markup, the templates bound to the committed path. */
module Engine {
  import opened JsValues
  import opened PathStore
  import opened Methods
  import opened Render
  import opened ActionSpecs
  import opened Forms

  /** A `<template data-sprinkle-id>` element. An absent
      `data-sprinkle-namespace` or `data-sprinkle-state` reads as "", which
      the engine treats like an empty attribute. */
  datatype TemplateDecl = TemplateDecl(id: string, namespace: string, state: string, markup: Markup)

  /** A `<form data-sprinkle-namespace>` and the `name` of each of its named
      input, select and textarea fields, in document order. */
  datatype FormDecl = FormDecl(namespace: string, fields: seq<string>)

  /** What `start` finds in the document: its templates, the
      `data-sprinkle-actions` attribute of each action element, its forms. */
  datatype Document = Document(templates: seq<TemplateDecl>, actions: seq<string>, forms: seq<FormDecl>)

  /** `JSON.parse`; `None` when it throws. */
  type JsonParser = string -> Option<Value>

  /** `getAttribute("data-sprinkle-namespace") || id`. */
  function NamespaceOf(t: TemplateDecl): (path: string)
    ensures t.namespace != "" ==> path == t.namespace
    ensures t.namespace == "" ==> path == t.id
  {
    if t.namespace != "" then t.namespace else t.id
  }

  /** The commit one template's initial state makes: none without a
      `data-sprinkle-state`, a commit under the template's id otherwise;
      `None` when the payload does not parse. */
  function InitialCommit(t: TemplateDecl, parse: JsonParser): (r: Option<seq<Mutation>>)
    ensures r.None? <==> t.state != "" && parse(t.state).None?
    ensures r.Some? ==> (r.value == [] <==> t.state == "") && |r.value| <= 1
    ensures r.Some? ==> forall m :: m in r.value ==> m.path == t.id && Some(m.value) == parse(t.state)
  {
    if t.state == "" then Some([])
    else
      match parse(t.state)
      case None => None
      case Some(v) => Some([Mutation(t.id, v)])
  }

  /** The commits of the first loop of `start`, in document order. */
  function InitialCommits(decls: seq<TemplateDecl>, parse: JsonParser): Option<seq<Mutation>>
    decreases |decls|
  {
    if decls == [] then Some([])
    else
      match InitialCommits(decls[..|decls| - 1], parse)
      case None => None
      case Some(done) =>
        match InitialCommit(decls[|decls| - 1], parse)
        case None => None
        case Some(c) => Some(done + c)
  }

  lemma {:induction false} InitialCommitsFailsFrom(decls: seq<TemplateDecl>, parse: JsonParser, i: nat)
    requires i <= |decls| && InitialCommits(decls[..i], parse).None?
    ensures InitialCommits(decls, parse).None?
    decreases |decls| - i
  {
    if i < |decls| {
      assert decls[..i + 1][..i] == decls[..i];
      InitialCommitsFailsFrom(decls, parse, i + 1);
    } else {
      assert decls[..i] == decls;
    }
  }

  /** Initial state goes under the template's id, never its namespace: every
      commit is the parsed state of a template with a non-empty state
      attribute, under that template's id, and every such template commits. */
  lemma {:induction false} InitialCommitsUnderIds(decls: seq<TemplateDecl>, parse: JsonParser)
    requires InitialCommits(decls, parse).Some?
    ensures var log := InitialCommits(decls, parse).value;
            (forall m :: m in log ==> exists k :: 0 <= k < |decls| && decls[k].state != "" &&
                                       parse(decls[k].state).Some? &&
                                       m == Mutation(decls[k].id, parse(decls[k].state).value)) &&
            (forall k :: 0 <= k < |decls| && decls[k].state != "" ==>
                         parse(decls[k].state).Some? && Mutation(decls[k].id, parse(decls[k].state).value) in log)
    decreases |decls|
  {
    if decls != [] {
      var n := |decls| - 1;
      var prefix := decls[..n];
      assert InitialCommits(prefix, parse).Some?;
      InitialCommitsUnderIds(prefix, parse);
      assert forall k :: 0 <= k < n ==> prefix[k] == decls[k];
      var done := InitialCommits(prefix, parse).value;
      var log := InitialCommits(decls, parse).value;
      assert log == done + InitialCommit(decls[n], parse).value;
      forall m | m in log
        ensures exists k :: 0 <= k < |decls| && decls[k].state != "" && parse(decls[k].state).Some? &&
                            m == Mutation(decls[k].id, parse(decls[k].state).value)
      {
        if m in done {
          var k :| 0 <= k < n && prefix[k].state != "" && parse(prefix[k].state).Some? &&
                   m == Mutation(prefix[k].id, parse(prefix[k].state).value);
          assert decls[k] == prefix[k];
        } else {
          assert decls[n].state != "" && m == Mutation(decls[n].id, parse(decls[n].state).value);
        }
      }
    }
  }

  /** The state a template declares is what its id holds once the initial
      commits are done, unless a later template with the same id and a
      state of its own overwrites it (last write wins). */
  lemma {:induction false} InitialStateVisibleUnderId(decls: seq<TemplateDecl>, parse: JsonParser, k: nat)
    requires InitialCommits(decls, parse).Some?
    requires k < |decls| && decls[k].state != ""
    requires forall j :: k < j < |decls| ==> decls[j].id != decls[k].id || decls[j].state == ""
    ensures parse(decls[k].state).Some?
    ensures Retrieve(Replay(InitialCommits(decls, parse).value), decls[k].id) == parse(decls[k].state).value
    decreases |decls|
  {
    var n := |decls| - 1;
    var prefix := decls[..n];
    assert InitialCommits(prefix, parse).Some?;
    var done := InitialCommits(prefix, parse).value;
    var c := InitialCommit(decls[n], parse).value;
    var log := done + c;
    assert InitialCommits(decls, parse).value == log;
    if k == n {
      assert c == [Mutation(decls[k].id, parse(decls[k].state).value)];
      assert log[..|log| - 1] == done;
    } else {
      assert forall j :: k < j < n ==> prefix[j] == decls[j];
      InitialStateVisibleUnderId(prefix, parse, k);
      if c == [] {
        assert log == done;
      } else {
        assert log[..|log| - 1] == done;
        assert c[0].path != decls[k].id;
      }
    }
  }

  /** A template whose namespace differs from its id renders from a path its
      own initial state never reaches: with no other template to fill that
      path, it renders against `undefined`. */
  lemma NamespacedTemplateMissesItsState(t: TemplateDecl, parse: JsonParser)
    requires t.namespace != "" && t.namespace != t.id
    requires t.state != "" && parse(t.state).Some?
    ensures InitialCommits([t], parse) == Some([Mutation(t.id, parse(t.state).value)])
    ensures Retrieve(Replay(InitialCommits([t], parse).value), NamespaceOf(t)) == Undefined
  {
    assert [t][..0] == [];
    var log := [Mutation(t.id, parse(t.state).value)];
    assert InitialCommit(t, parse) == Some(log);
    assert [] + log == log;
    assert log[..0] == [];
    assert Apply(map[], log[..0]) == map[];
    assert Replay(log) == map[t.id := parse(t.state).value];
  }

  /** The `templates` dictionary `start` returns: `templates[id] = ...` in
      document order. */
  function TemplateIndex(decls: seq<TemplateDecl>): map<string, nat>
    decreases |decls|
  {
    if decls == [] then map[]
    else TemplateIndex(decls[..|decls| - 1])[decls[|decls| - 1].id := |decls| - 1]
  }

  /** An id has an entry exactly when some template carries it. */
  lemma {:induction false} TemplateIndexKeys(decls: seq<TemplateDecl>, id: string)
    ensures id in TemplateIndex(decls) <==> exists k :: 0 <= k < |decls| && decls[k].id == id
    decreases |decls|
  {
    if decls != [] {
      var n := |decls| - 1;
      var prefix := decls[..n];
      TemplateIndexKeys(prefix, id);
      if id != decls[n].id {
        if id in TemplateIndex(prefix) {
          var k :| 0 <= k < n && prefix[k].id == id;
          assert decls[k].id == id;
        }
        if exists k :: 0 <= k < |decls| && decls[k].id == id {
          var k :| 0 <= k < |decls| && decls[k].id == id;
          assert prefix[k].id == id;
        }
      }
    }
  }

  /** The entry of an id is the last template carrying it (last write wins). */
  lemma {:induction false} TemplateIndexLastWins(decls: seq<TemplateDecl>, id: string)
    requires id in TemplateIndex(decls)
    ensures TemplateIndex(decls)[id] < |decls| && decls[TemplateIndex(decls)[id]].id == id
    ensures forall j :: TemplateIndex(decls)[id] < j < |decls| ==> decls[j].id != id
    decreases |decls|
  {
    var n := |decls| - 1;
    var prefix := decls[..n];
    if id != decls[n].id {
      TemplateIndexLastWins(prefix, id);
      assert forall k :: 0 <= k < n ==> prefix[k] == decls[k];
    }
  }

  /** What a template shows when it is rendered against `s`: its markup
      against the state at its path. */
  function FirstView(t: TemplateDecl, s: Store, registry: Registry, eval: Evaluator): Option<string> {
    Rendering(t.markup, Retrieve(s, NamespaceOf(t)), registry, eval)
  }

  /** A template bound to its path, with the markup every render starts from. */
  datatype Binding = Binding(id: string, path: string, model: Markup)

  function BindingOf(t: TemplateDecl): Binding {
    Binding(t.id, NamespaceOf(t), t.markup)
  }

  /** The bindings the second loop of `start` records, in document order. */
  function BindingsOf(decls: seq<TemplateDecl>): seq<Binding>
    decreases |decls|
  {
    if decls == [] then [] else BindingsOf(decls[..|decls| - 1]) + [BindingOf(decls[|decls| - 1])]
  }

  /** One binding per template, the k-th bound to the k-th template's path. */
  lemma {:induction false} BindingsOfPointwise(decls: seq<TemplateDecl>)
    ensures |BindingsOf(decls)| == |decls|
    ensures forall k :: 0 <= k < |decls| ==> BindingsOf(decls)[k] == BindingOf(decls[k])
    decreases |decls|
  {
    if decls != [] {
      var n := |decls| - 1;
      BindingsOfPointwise(decls[..n]);
      assert forall k :: 0 <= k < n ==> decls[..n][k] == decls[k];
    }
  }

  /** Each template's first rendering on its own. */
  function FirstRenderings(decls: seq<TemplateDecl>, s: Store, registry: Registry, eval: Evaluator): seq<Option<string>> {
    seq(|decls|, k requires 0 <= k < |decls| => FirstView(decls[k], s, registry, eval))
  }

  /** The first views of all templates, in document order, or None as soon
      as one first rendering throws. */
  function FirstViews(decls: seq<TemplateDecl>, s: Store, registry: Registry, eval: Evaluator): Option<seq<string>> {
    Collect(FirstRenderings(decls, s, registry, eval))
  }

  /** The views exist exactly when every template renders. */
  lemma FirstViewsExist(decls: seq<TemplateDecl>, s: Store, registry: Registry, eval: Evaluator)
    ensures FirstViews(decls, s, registry, eval).Some? <==>
              forall k :: 0 <= k < |decls| ==> FirstView(decls[k], s, registry, eval).Some?
  {
    var rs := FirstRenderings(decls, s, registry, eval);
    CollectSome(rs);
    assert forall k :: 0 <= k < |decls| ==> rs[k] == FirstView(decls[k], s, registry, eval);
  }

  /** When they exist, there is one view per template and the k-th view is
      the k-th template's first rendering. */
  lemma FirstViewsInOrder(decls: seq<TemplateDecl>, s: Store, registry: Registry, eval: Evaluator, k: nat)
    requires FirstViews(decls, s, registry, eval).Some? && k < |decls|
    ensures |FirstViews(decls, s, registry, eval).value| == |decls|
    ensures Some(FirstViews(decls, s, registry, eval).value[k]) == FirstView(decls[k], s, registry, eval)
  {
    var rs := FirstRenderings(decls, s, registry, eval);
    CollectInOrder(rs, k);
    assert rs[k] == FirstView(decls[k], s, registry, eval);
  }

  /** Binding one more template extends the views by its first rendering. */
  lemma FirstViewsSnoc(decls: seq<TemplateDecl>, n: nat, s: Store, registry: Registry, eval: Evaluator)
    requires n < |decls|
    ensures FirstViews(decls[..n + 1], s, registry, eval) ==
              if FirstViews(decls[..n], s, registry, eval).Some? && FirstView(decls[n], s, registry, eval).Some?
              then Some(FirstViews(decls[..n], s, registry, eval).value + [FirstView(decls[n], s, registry, eval).value])
              else None
  {
    var rs := FirstRenderings(decls[..n], s, registry, eval);
    var r := FirstView(decls[n], s, registry, eval);
    assert FirstRenderings(decls[..n + 1], s, registry, eval) == rs + [r];
    CollectSnoc(rs, r);
  }

  /** A `store.subscribe(path, ...)` that re-renders one binding. */
  datatype Subscriber = Subscriber(path: string, binding: nat)

  /** A listener for `trigger` on an action element, running `$methods.<call>`. */
  datatype ActionListener = ActionListener(element: nat, trigger: string, call: string)

  /** An `input` listener on a named field of a form bound to `path`. */
  datatype InputListener = InputListener(form: nat, path: string, name: string)

  /** The listeners of one action element, one per `;`-separated spec. */
  function ElementListeners(element: nat, attr: string): (ls: seq<ActionListener>)
    ensures |ls| == |Split(attr, ';')|
    ensures forall j :: 0 <= j < |ls| ==>
              ls[j] == ActionListener(element, ParseAction(Split(attr, ';')[j]).trigger,
                                      ParseAction(Split(attr, ';')[j]).call)
  {
    var specs := Split(attr, ';');
    seq(|specs|, j requires 0 <= j < |specs| =>
      ActionListener(element, ParseAction(specs[j]).trigger, ParseAction(specs[j]).call))
  }

  function ActionListenersOf(attrs: seq<string>): seq<ActionListener>
    decreases |attrs|
  {
    if attrs == [] then []
    else ActionListenersOf(attrs[..|attrs| - 1]) + ElementListeners(|attrs| - 1, attrs[|attrs| - 1])
  }

  /** The listeners of one form, one per named field. */
  function FieldListeners(form: nat, f: FormDecl): (ls: seq<InputListener>)
    ensures |ls| == |f.fields|
    ensures forall j :: 0 <= j < |ls| ==> ls[j] == InputListener(form, f.namespace, f.fields[j])
  {
    seq(|f.fields|, j requires 0 <= j < |f.fields| => InputListener(form, f.namespace, f.fields[j]))
  }

  function InputListenersOf(forms: seq<FormDecl>): seq<InputListener>
    decreases |forms|
  {
    if forms == [] then [] else InputListenersOf(forms[..|forms| - 1]) + FieldListeners(|forms| - 1, forms[|forms| - 1])
  }

  /** Every registered action listener comes from one spec of one action
      element. */
  lemma {:induction false} ActionListenerSource(attrs: seq<string>, l: ActionListener)
    requires l in ActionListenersOf(attrs)
    ensures exists i :: 0 <= i < |attrs| && l in ElementListeners(i, attrs[i])
    decreases |attrs|
  {
    var n := |attrs| - 1;
    var prefix := attrs[..n];
    if l in ActionListenersOf(prefix) {
      ActionListenerSource(prefix, l);
      var i :| 0 <= i < n && l in ElementListeners(i, prefix[i]);
      assert prefix[i] == attrs[i];
    }
  }

  /** Every spec of every action element registers its listener. */
  lemma {:induction false} ActionListenerRegistered(attrs: seq<string>, i: nat, l: ActionListener)
    requires i < |attrs| && l in ElementListeners(i, attrs[i])
    ensures l in ActionListenersOf(attrs)
    decreases |attrs|
  {
    var n := |attrs| - 1;
    if i < n {
      assert attrs[..n][i] == attrs[i];
      ActionListenerRegistered(attrs[..n], i, l);
    }
  }

  /** The registered action listeners are exactly those of the specs of the
      action elements. */
  lemma ActionListenersComplete(attrs: seq<string>, l: ActionListener)
    ensures l in ActionListenersOf(attrs) <==>
              exists i :: 0 <= i < |attrs| && l in ElementListeners(i, attrs[i])
  {
    if l in ActionListenersOf(attrs) {
      ActionListenerSource(attrs, l);
    }
    if exists i :: 0 <= i < |attrs| && l in ElementListeners(i, attrs[i]) {
      var i :| 0 <= i < |attrs| && l in ElementListeners(i, attrs[i]);
      ActionListenerRegistered(attrs, i, l);
    }
  }

  /** Every named field of every form has exactly its input listener, bound
      to the form's namespace, and there are no others. */
  lemma {:induction false} InputListenersComplete(forms: seq<FormDecl>, l: InputListener)
    ensures l in InputListenersOf(forms) <==>
              exists i, j :: 0 <= i < |forms| && 0 <= j < |forms[i].fields| &&
                             l == InputListener(i, forms[i].namespace, forms[i].fields[j])
    decreases |forms|
  {
    if forms != [] {
      var n := |forms| - 1;
      var prefix := forms[..n];
      InputListenersComplete(prefix, l);
      assert forall i :: 0 <= i < n ==> prefix[i] == forms[i];
      var mine := FieldListeners(n, forms[n]);
      if l in mine {
        var j :| 0 <= j < |mine| && mine[j] == l;
        assert l == InputListener(n, forms[n].namespace, forms[n].fields[j]);
      }
    }
  }

  function AsLog(c: Option<Mutation>): seq<Mutation> {
    if c.Some? then [c.value] else []
  }

  class Engine {
    const registry: Registry
    const eval: Evaluator
    const read: CallReader
    const code: SuppliedCode

    /** The store's contents, and (ghost) the commits that produced them. */
    var store: Store
    ghost var log: seq<Mutation>

    /** One binding, one live view (`compiledElement.innerHTML`) and one
        subscriber per bound template, in document order. */
    var bindings: seq<Binding>
    var views: seq<string>
    var subscribers: seq<Subscriber>
    var templates: map<string, nat>

    var actionListeners: seq<ActionListener>
    var inputListeners: seq<InputListener>

    /** A view shows the rendering of its template against the current state
        at its path, whenever that rendering succeeds. */
    ghost predicate Shows(b: Binding, view: string, s: Store) {
      match Rendering(b.model, Retrieve(s, b.path), registry, eval)
      case None => true
      case Some(html) => view == html
    }

    ghost predicate AllShown(bs: seq<Binding>, vs: seq<string>, s: Store) {
      && |vs| == |bs|
      && forall k {:trigger Shows(bs[k], vs[k], s)} :: 0 <= k < |bs| ==> Shows(bs[k], vs[k], s)
    }

    /** Subscriber `k` listens on the path of binding `k` and re-renders it. */
    ghost predicate Subscribed(bs: seq<Binding>, subs: seq<Subscriber>) {
      && |subs| == |bs|
      && forall k :: 0 <= k < |bs| ==> subs[k] == Subscriber(bs[k].path, k)
    }

    /** The `templates` record points each id at a binding of that id. */
    ghost predicate Indexed(index: map<string, nat>, bs: seq<Binding>) {
      forall id :: id in index ==> index[id] < |bs| && bs[index[id]].id == id
    }

    ghost predicate Valid()
      reads this
    {
      && store == Replay(log)
      && Subscribed(bindings, subscribers)
      && Indexed(templates, bindings)
      && AllShown(bindings, views, store)
    }

    /** What a subscriber leaves in its view: the fresh rendering of the
        original markup, or the previous content when rendering throws. */
    ghost function Refreshed(b: Binding, state: Value, previous: string): string {
      match Rendering(b.model, state, registry, eval)
      case None => previous
      case Some(html) => html
    }

    /** The views after one commit: each view bound to the committed path is
        refreshed, every other view keeps its content. */
    ghost function Refresh(bs: seq<Binding>, vs: seq<string>, m: Mutation): (r: seq<string>)
      ensures |r| == |vs|
    {
      seq(|vs|, k requires 0 <= k < |vs| =>
        if k < |bs| && bs[k].path == m.path then Refreshed(bs[k], m.value, vs[k]) else vs[k])
    }

    /** The views after a sequence of commits, each notifying its subscribers
        in turn. */
    ghost function ViewsAfter(bs: seq<Binding>, vs: seq<string>, commits: seq<Mutation>): (r: seq<string>)
      ensures |r| == |vs|
      decreases |commits|
    {
      if commits == [] then vs
      else Refresh(bs, ViewsAfter(bs, vs, commits[..|commits| - 1]), commits[|commits| - 1])
    }

    /** Notifying two runs of commits in turn is notifying their concatenation. */
    lemma {:induction false} ViewsAfterConcat(bs: seq<Binding>, vs: seq<string>, a: seq<Mutation>, b: seq<Mutation>)
      ensures ViewsAfter(bs, vs, a + b) == ViewsAfter(bs, ViewsAfter(bs, vs, a), b)
      decreases |b|
    {
      if b == [] {
        assert a + b == a;
      } else {
        var b' := b[..|b| - 1];
        ViewsAfterConcat(bs, vs, a, b');
        assert (a + b)[..|a + b| - 1] == a + b';
        assert (a + b)[|a + b| - 1] == b[|b| - 1];
      }
    }

    /** A view whose path no commit names keeps its content, whatever the
        other views' renderings do. */
    lemma {:induction false} ViewsAfterUntouched(bs: seq<Binding>, vs: seq<string>, commits: seq<Mutation>, k: nat)
      requires k < |vs| && k < |bs|
      requires forall m :: m in commits ==> m.path != bs[k].path
      ensures ViewsAfter(bs, vs, commits)[k] == vs[k]
      decreases |commits|
    {
      if commits != [] {
        var prefix := commits[..|commits| - 1];
        assert forall m :: m in prefix ==> m in commits;
        ViewsAfterUntouched(bs, vs, prefix, k);
        assert commits[|commits| - 1] in commits;
      }
    }

    constructor (registry: Registry, eval: Evaluator, read: CallReader, code: SuppliedCode)
      ensures Valid()
      ensures this.registry == registry && this.eval == eval && this.read == read && this.code == code
      ensures log == [] && bindings == [] && templates == map[]
      ensures actionListeners == [] && inputListeners == []
    {
      this.registry := registry;
      this.eval := eval;
      this.read := read;
      this.code := code;
      store := map[];
      log := [];
      bindings := [];
      views := [];
      subscribers := [];
      templates := map[];
      actionListeners := [];
      inputListeners := [];
    }

    /** `store.commit(path, value)`: the store takes the value, and every
        subscriber of that path re-renders its template from the original
        markup against the new value. Views bound elsewhere are untouched. */
    method Commit(path: string, value: Value)
      requires Valid()
      modifies this
      ensures Valid()
      ensures log == old(log) + [Mutation(path, value)]
      ensures store == old(store)[path := value]
      ensures bindings == old(bindings) && subscribers == old(subscribers) && templates == old(templates)
      ensures actionListeners == old(actionListeners) && inputListeners == old(inputListeners)
      ensures |views| == |old(views)|
      ensures forall k :: 0 <= k < |views| ==>
                views[k] == if bindings[k].path == path then Refreshed(bindings[k], value, old(views[k]))
                            else old(views[k])
      ensures views == Refresh(bindings, old(views), Mutation(path, value))
    {
      assert (log + [Mutation(path, value)])[..|log|] == log;
      store := store[path := value];
      log := log + [Mutation(path, value)];
      Notify(path);
      forall k | 0 <= k < |bindings|
        ensures Shows(bindings[k], views[k], store)
      {
        if bindings[k].path != path {
          assert Retrieve(store, bindings[k].path) == Retrieve(old(store), bindings[k].path);
          assert Shows(bindings[k], old(views)[k], old(store));
        }
      }
      assert views == Refresh(bindings, old(views), Mutation(path, value));
    }

    /** The store's notification after a commit to `path`: each subscriber of
        that path, in subscription order, re-renders its view against the
        value now stored there. */
    method Notify(path: string)
      requires Subscribed(bindings, subscribers) && |views| == |bindings|
      modifies this
      ensures store == old(store) && log == old(log)
      ensures bindings == old(bindings) && subscribers == old(subscribers) && templates == old(templates)
      ensures actionListeners == old(actionListeners) && inputListeners == old(inputListeners)
      ensures |views| == |old(views)|
      ensures forall k :: 0 <= k < |views| ==>
                views[k] == if bindings[k].path == path then Refreshed(bindings[k], Retrieve(store, path), old(views[k]))
                            else old(views[k])
    {
      var i := 0;
      while i < |subscribers|
        invariant 0 <= i <= |subscribers|
        invariant store == old(store) && log == old(log)
        invariant bindings == old(bindings) && subscribers == old(subscribers) && templates == old(templates)
        invariant actionListeners == old(actionListeners) && inputListeners == old(inputListeners)
        invariant |views| == |old(views)|
        invariant forall k :: 0 <= k < i ==>
                    views[k] == if bindings[k].path == path then Refreshed(bindings[k], Retrieve(store, path), old(views[k]))
                                else old(views[k])
        invariant forall k :: i <= k < |views| ==> views[k] == old(views[k])
      {
        var sub := subscribers[i];
        if sub.path == path {
          var html := Render.Render(bindings[sub.binding].model, Retrieve(store, sub.path), registry, eval);
          if html.Some? {
            views := views[sub.binding := html.value];
          }
        }
        i := i + 1;
      }
    }

    /** One action listener firing with `event`: evaluate its call, and
        commit `(value.path, value.value)` when the result is truthy. */
    method Dispatch(listener: nat, event: Value)
      requires Valid() && listener < |actionListeners|
      modifies this
      ensures Valid()
      ensures var c := AsLog(DispatchOutcome(old(actionListeners[listener].call), event, registry,
                                             old(store), read, code));
              log == old(log) + c && views == ViewsAfter(bindings, old(views), c)
      ensures bindings == old(bindings) && subscribers == old(subscribers) && templates == old(templates)
      ensures actionListeners == old(actionListeners) && inputListeners == old(inputListeners)
    {
      var l := actionListeners[listener];
      var value := EvaluateAction(l.call, event, registry, store, read, code);
      if value.Some? && Truthy(value.value) {
        var path := Field(value.value, "path");
        if path.Str? {
          var m := Mutation(path.s, Field(value.value, "value"));
          assert [m][..0] == [];
          Commit(path.s, Field(value.value, "value"));
        }
      }
    }

    /** The commits a DOM event makes when it reaches `element`: each
        listener of that element for `trigger` runs in registration order,
        against the state the previous ones left. */
    ghost function Fired(ls: seq<ActionListener>, element: nat, trigger: string, event: Value,
                         s: Store): seq<Mutation>
      decreases |ls|
    {
      if ls == [] then []
      else
        var before := Fired(ls[..|ls| - 1], element, trigger, event, s);
        var l := ls[|ls| - 1];
        if l.element == element && l.trigger == trigger then
          before + AsLog(DispatchOutcome(l.call, event, registry, Apply(s, before), read, code))
        else before
    }

    /** One more listener extends the commits by what that listener makes. */
    lemma FiredStep(ls: seq<ActionListener>, i: nat, element: nat, trigger: string, event: Value, s: Store,
                    log0: seq<Mutation>, bs: seq<Binding>, vs: seq<string>)
      requires i < |ls|
      ensures var before := Fired(ls[..i], element, trigger, event, s);
              var step := if ls[i].element == element && ls[i].trigger == trigger
                          then AsLog(DispatchOutcome(ls[i].call, event, registry, Apply(s, before), read, code))
                          else [];
              && Fired(ls[..i + 1], element, trigger, event, s) == before + step
              && log0 + Fired(ls[..i + 1], element, trigger, event, s) == (log0 + before) + step
              && ViewsAfter(bs, vs, Fired(ls[..i + 1], element, trigger, event, s))
                   == ViewsAfter(bs, ViewsAfter(bs, vs, before), step)
    {
      assert ls[..i + 1][..i] == ls[..i];
      assert ls[..i + 1][i] == ls[i];
      var before := Fired(ls[..i], element, trigger, event, s);
      var step := if ls[i].element == element && ls[i].trigger == trigger
                  then AsLog(DispatchOutcome(ls[i].call, event, registry, Apply(s, before), read, code))
                  else [];
      if step == [] {
        assert before + step == before;
      }
      ViewsAfterConcat(bs, vs, before, step);
    }

    /** Listener `i` seeing the event: it runs only if it was registered on
        `element` for `trigger`. */
    method Offer(i: nat, element: nat, trigger: string, event: Value)
      requires Valid() && i < |actionListeners|
      modifies this
      ensures Valid()
      ensures bindings == old(bindings) && subscribers == old(subscribers) && templates == old(templates)
      ensures actionListeners == old(actionListeners) && inputListeners == old(inputListeners)
      ensures var l := old(actionListeners[i]);
              var c := if l.element == element && l.trigger == trigger
                       then AsLog(DispatchOutcome(l.call, event, registry, old(store), read, code))
                       else [];
              log == old(log) + c && views == ViewsAfter(bindings, old(views), c)
      ensures var l := old(actionListeners[i]);
              !(l.element == element && l.trigger == trigger) ==> store == old(store) && views == old(views)
    {
      var l := actionListeners[i];
      if l.element == element && l.trigger == trigger {
        Dispatch(i, event);
      } else {
        assert log == log + [];
      }
    }

    /** A DOM event of type `trigger` fired on action element `element`. */
    method Fire(element: nat, trigger: string, event: Value)
      requires Valid()
      modifies this
      ensures Valid()
      ensures var c := Fired(actionListeners, element, trigger, event, old(store));
              log == old(log) + c && views == ViewsAfter(bindings, old(views), c)
      ensures bindings == old(bindings) && subscribers == old(subscribers) && templates == old(templates)
      ensures actionListeners == old(actionListeners) && inputListeners == old(inputListeners)
    {
      ghost var s0, log0, views0 := store, log, views;
      var i := 0;
      while i < |actionListeners|
        invariant 0 <= i <= |actionListeners|
        invariant Valid()
        invariant bindings == old(bindings) && subscribers == old(subscribers) && templates == old(templates)
        invariant actionListeners == old(actionListeners) && inputListeners == old(inputListeners)
        invariant log == log0 + Fired(actionListeners[..i], element, trigger, event, s0)
        invariant views == ViewsAfter(bindings, views0, Fired(actionListeners[..i], element, trigger, event, s0))
      {
        ghost var before := Fired(actionListeners[..i], element, trigger, event, s0);
        ApplyConcat(map[], log0, before);
        assert store == Apply(s0, before);
        FiredStep(actionListeners, i, element, trigger, event, s0, log0, bindings, views0);
        Offer(i, element, trigger, event);
        i := i + 1;
      }
      assert actionListeners[..i] == actionListeners;
    }

    /** The `input` listener of a form field: merge the field's value into
        the object at the form's namespace and commit it there. */
    method Input(listener: nat, value: string)
      requires Valid() && listener < |inputListeners|
      modifies this
      ensures Valid()
      ensures var l := old(inputListeners[listener]);
              var m := Mutation(l.path, FormMerge(Retrieve(old(store), l.path), l.name, Str(value)));
              log == old(log) + [m] && views == Refresh(bindings, old(views), m)
      ensures bindings == old(bindings) && subscribers == old(subscribers) && templates == old(templates)
      ensures actionListeners == old(actionListeners) && inputListeners == old(inputListeners)
    {
      var l := inputListeners[listener];
      var current := Retrieve(store, l.path);
      Commit(l.path, FormMerge(current, l.name, Str(value)));
    }

    /** One pass of the first loop of `start`: commit the template's parsed
        initial state under its id, if it declares one. */
    method CommitInitialState(t: TemplateDecl, parse: JsonParser) returns (ok: bool)
      requires Valid() && bindings == []
      modifies this
      ensures Valid() && bindings == [] && templates == old(templates)
      ensures actionListeners == old(actionListeners) && inputListeners == old(inputListeners)
      ensures ok <==> InitialCommit(t, parse).Some?
      ensures ok ==> log == old(log) + InitialCommit(t, parse).value
    {
      if t.state == "" {
        assert log == log + [];
        return true;
      }
      var parsed := parse(t.state);
      if parsed.None? {
        return false;
      }
      Commit(t.id, parsed.value);
      ok := true;
    }

    /** The first loop of `start`: commit each template's parsed initial
        state under its id. Nothing is bound yet, so nothing re-renders. */
    method CommitInitialStates(decls: seq<TemplateDecl>, parse: JsonParser) returns (malformed: Option<string>)
      requires Valid() && bindings == []
      modifies this
      ensures Valid() && bindings == [] && templates == old(templates)
      ensures actionListeners == old(actionListeners) && inputListeners == old(inputListeners)
      ensures malformed.None? <==> InitialCommits(decls, parse).Some?
      ensures malformed.None? ==> log == old(log) + InitialCommits(decls, parse).value
      ensures malformed.Some? ==> exists k :: 0 <= k < |decls| && decls[k].id == malformed.value &&
                                             decls[k].state != "" && parse(decls[k].state).None? &&
                                             InitialCommits(decls[..k], parse).Some?
    {
      var i := 0;
      while i < |decls|
        invariant 0 <= i <= |decls|
        invariant Valid() && bindings == [] && templates == old(templates)
        invariant actionListeners == old(actionListeners) && inputListeners == old(inputListeners)
        invariant InitialCommits(decls[..i], parse).Some?
        invariant log == old(log) + InitialCommits(decls[..i], parse).value
      {
        ghost var done := InitialCommits(decls[..i], parse).value;
        assert decls[..i + 1][..i] == decls[..i];
        assert decls[..i + 1][i] == decls[i];
        var ok := CommitInitialState(decls[i], parse);
        if !ok {
          InitialCommitsFailsFrom(decls, parse, i + 1);
          return Some(decls[i].id);
        }
        assert InitialCommits(decls[..i + 1], parse).value == done + InitialCommit(decls[i], parse).value;
        i := i + 1;
      }
      assert decls[..i] == decls;
      malformed := None;
    }

    /** One pass of the second loop of `start`: render the template against
        the state at its path into a fresh view, subscribe that view to the
        path and record the template under its id. Nothing changes when the
        rendering throws. */
    method Bind(t: TemplateDecl) returns (ok: bool)
      requires Valid()
      modifies this
      ensures Valid() && log == old(log) && store == old(store)
      ensures actionListeners == old(actionListeners) && inputListeners == old(inputListeners)
      ensures ok <==> FirstView(t, store, registry, eval).Some?
      ensures ok ==> bindings == old(bindings) + [BindingOf(t)] &&
                     views == old(views) + [FirstView(t, store, registry, eval).value] &&
                     templates == old(templates)[t.id := |old(bindings)|]
      ensures !ok ==> bindings == old(bindings) && views == old(views) && templates == old(templates)
    {
      var path := NamespaceOf(t);
      var html := Render.Render(t.markup, Retrieve(store, path), registry, eval);
      if html.None? {
        return false;
      }
      var k := |bindings|;
      bindings := bindings + [BindingOf(t)];
      views := views + [html.value];
      subscribers := subscribers + [Subscriber(path, k)];
      templates := templates[t.id := k];
      ok := true;
    }

    /** The second loop of `start`: bind every template, in document order. */
    method BindTemplates(decls: seq<TemplateDecl>) returns (failed: Option<string>)
      requires Valid() && bindings == [] && templates == map[]
      modifies this
      ensures Valid() && log == old(log) && store == old(store)
      ensures actionListeners == old(actionListeners) && inputListeners == old(inputListeners)
      ensures failed.None? <==> FirstViews(decls, store, registry, eval).Some?
      ensures failed.None? ==> bindings == BindingsOf(decls) && Some(views) == FirstViews(decls, store, registry, eval)
      ensures failed.None? ==> templates == TemplateIndex(decls)
      ensures failed.Some? ==>
                exists k :: 0 <= k < |decls| && decls[k].id == failed.value && FirstView(decls[k], store, registry, eval).None? &&
                            FirstViews(decls[..k], store, registry, eval).Some?
    {
      var k := 0;
      while k < |decls|
        invariant 0 <= k <= |decls|
        invariant Valid() && log == old(log) && store == old(store)
        invariant actionListeners == old(actionListeners) && inputListeners == old(inputListeners)
        invariant bindings == BindingsOf(decls[..k]) && Some(views) == FirstViews(decls[..k], store, registry, eval)
        invariant |bindings| == k && templates == TemplateIndex(decls[..k])
      {
        assert decls[..k + 1][..k] == decls[..k];
        assert decls[..k + 1][k] == decls[k];
        assert TemplateIndex(decls[..k + 1]) == TemplateIndex(decls[..k])[decls[k].id := k];
        FirstViewsSnoc(decls, k, store, registry, eval);
        var ok := Bind(decls[k]);
        if !ok {
          assert FirstViews(decls, store, registry, eval).None? by {
            FirstViewsExist(decls, store, registry, eval);
          }
          return Some(decls[k].id);
        }
        k := k + 1;
      }
      assert decls[..k] == decls;
      failed := None;
    }

    /** The listeners of one action element: one per `;`-separated spec,
        registered in the order of the attribute. */
    method RegisterElement(element: nat, attr: string)
      modifies this
      ensures store == old(store) && log == old(log)
      ensures bindings == old(bindings) && views == old(views) && subscribers == old(subscribers)
      ensures templates == old(templates) && inputListeners == old(inputListeners)
      ensures actionListeners == old(actionListeners) + ElementListeners(element, attr)
    {
      var specs := Split(attr, ';');
      var j := 0;
      while j < |specs|
        invariant 0 <= j <= |specs|
        invariant store == old(store) && log == old(log)
        invariant bindings == old(bindings) && views == old(views) && subscribers == old(subscribers)
        invariant templates == old(templates) && inputListeners == old(inputListeners)
        invariant actionListeners == old(actionListeners) + ElementListeners(element, attr)[..j]
      {
        var spec := ParseAction(specs[j]);
        assert ElementListeners(element, attr)[..j + 1]
            == ElementListeners(element, attr)[..j] + [ActionListener(element, spec.trigger, spec.call)];
        actionListeners := actionListeners + [ActionListener(element, spec.trigger, spec.call)];
        j := j + 1;
      }
      assert ElementListeners(element, attr)[..j] == ElementListeners(element, attr);
    }

    /** The action loop of `start`: every action element, in document order. */
    method RegisterActions(attrs: seq<string>)
      requires Valid() && actionListeners == []
      modifies this
      ensures Valid() && log == old(log) && store == old(store)
      ensures bindings == old(bindings) && views == old(views) && templates == old(templates)
      ensures inputListeners == old(inputListeners)
      ensures actionListeners == ActionListenersOf(attrs)
    {
      var i := 0;
      while i < |attrs|
        invariant 0 <= i <= |attrs|
        invariant Valid() && log == old(log) && store == old(store)
        invariant bindings == old(bindings) && views == old(views) && templates == old(templates)
        invariant inputListeners == old(inputListeners)
        invariant actionListeners == ActionListenersOf(attrs[..i])
      {
        assert attrs[..i + 1][..i] == attrs[..i];
        assert attrs[..i + 1][i] == attrs[i];
        RegisterElement(i, attrs[i]);
        i := i + 1;
      }
      assert attrs[..i] == attrs;
    }

    /** The `input` listeners of one form: one per named field, in order. */
    method RegisterForm(index: nat, form: FormDecl)
      modifies this
      ensures store == old(store) && log == old(log)
      ensures bindings == old(bindings) && views == old(views) && subscribers == old(subscribers)
      ensures templates == old(templates) && actionListeners == old(actionListeners)
      ensures inputListeners == old(inputListeners) + FieldListeners(index, form)
    {
      var j := 0;
      while j < |form.fields|
        invariant 0 <= j <= |form.fields|
        invariant store == old(store) && log == old(log)
        invariant bindings == old(bindings) && views == old(views) && subscribers == old(subscribers)
        invariant templates == old(templates) && actionListeners == old(actionListeners)
        invariant inputListeners == old(inputListeners) + FieldListeners(index, form)[..j]
      {
        assert FieldListeners(index, form)[..j + 1]
            == FieldListeners(index, form)[..j] + [InputListener(index, form.namespace, form.fields[j])];
        inputListeners := inputListeners + [InputListener(index, form.namespace, form.fields[j])];
        j := j + 1;
      }
      assert FieldListeners(index, form)[..j] == FieldListeners(index, form);
    }

    /** The form loop of `start`: every form with a namespace, in document order. */
    method RegisterForms(forms: seq<FormDecl>)
      requires Valid() && inputListeners == []
      modifies this
      ensures Valid() && log == old(log) && store == old(store)
      ensures bindings == old(bindings) && views == old(views) && templates == old(templates)
      ensures actionListeners == old(actionListeners)
      ensures inputListeners == InputListenersOf(forms)
    {
      var i := 0;
      while i < |forms|
        invariant 0 <= i <= |forms|
        invariant Valid() && log == old(log) && store == old(store)
        invariant bindings == old(bindings) && views == old(views) && templates == old(templates)
        invariant actionListeners == old(actionListeners)
        invariant inputListeners == InputListenersOf(forms[..i])
      {
        assert forms[..i + 1][..i] == forms[..i];
        assert forms[..i + 1][i] == forms[i];
        RegisterForm(i, forms[i]);
        i := i + 1;
      }
      assert forms[..i] == forms;
    }
  }

  /** How `start` ends: a running instance, or the exception that aborted it. */
  datatype Started = Running(engine: Engine) | MalformedState(id: string) | RenderFailed(id: string)

  /** `start(options)`. All initial states are committed before the first
      template renders, so each first rendering sees every initial state. */
  method Start(doc: Document, supplied: Option<Registry>, parse: JsonParser, eval: Evaluator,
               read: CallReader, code: SuppliedCode) returns (r: Started)
    ensures r.MalformedState? <==> InitialCommits(doc.templates, parse).None?
    ensures r.MalformedState? ==>
              exists k :: 0 <= k < |doc.templates| && doc.templates[k].id == r.id &&
                          doc.templates[k].state != "" && parse(doc.templates[k].state).None? &&
                          InitialCommits(doc.templates[..k], parse).Some?
    ensures r.RenderFailed? ==>
              var initial := InitialCommits(doc.templates, parse);
              initial.Some? &&
              FirstViews(doc.templates, Replay(initial.value), MergeRegistry(supplied), eval).None? &&
              exists k :: 0 <= k < |doc.templates| && doc.templates[k].id == r.id &&
                          FirstView(doc.templates[k], Replay(initial.value), MergeRegistry(supplied), eval).None? &&
                          FirstViews(doc.templates[..k], Replay(initial.value), MergeRegistry(supplied), eval).Some?
    ensures r.Running? ==>
              var e := r.engine;
              var decls := doc.templates;
              var initial := InitialCommits(decls, parse);
              && fresh(e) && e.Valid()
              && e.registry == MergeRegistry(supplied) && e.eval == eval && e.read == read && e.code == code
              && initial.Some? && e.log == initial.value
              && e.bindings == BindingsOf(decls) && e.templates == TemplateIndex(decls)
              && Some(e.views) == FirstViews(decls, Replay(initial.value), e.registry, eval)
              && e.actionListeners == ActionListenersOf(doc.actions)
              && e.inputListeners == InputListenersOf(doc.forms)
  {
    var e := new Engine(MergeRegistry(supplied), eval, read, code);
    var malformed := e.CommitInitialStates(doc.templates, parse);
    if malformed.Some? {
      return MalformedState(malformed.value);
    }
    assert e.log == InitialCommits(doc.templates, parse).value;
    var failed := e.BindTemplates(doc.templates);
    if failed.Some? {
      return RenderFailed(failed.value);
    }
    e.RegisterActions(doc.actions);
    e.RegisterForms(doc.forms);
    r := Running(e);
  }
}
