/** The render pass `getTemplate` returns: on a fresh copy of a template's
    markup, remove every `data-sprinkle-if` element whose guard is falsy,
    then expand every `data-sprinkle-for` element, then replace every
    `{{expr}}` by the text of its value.

    Markup is a sequence of parts: text runs, made of literal text and
    `{{expr}}` segments, and elements that carry directives. Expressions
    are evaluated by an abstract `Evaluator`; `None` stands for an
    evaluation that throws, which aborts the whole pass. */
module Render {
  import opened JsValues
  import opened Methods

  datatype Segment = Lit(text: string) | Interp(expr: string)

  datatype Part =
    | Text(segs: seq<Segment>)
    | Elem(tag: string, attrs: seq<Segment>, cond: Option<string>, iter: Option<string>, inner: seq<Segment>)

  type Markup = seq<Part>

  /** The bindings an expression sees: `$methods`, `$state` and `$item`. */
  datatype Scope = Scope(methods: Option<Registry>, state: Value, item: Option<Value>)

  type Evaluator = (string, Scope) -> Option<Value>

  /** The scope of `new Function("$state", ...)(state)` used by both directives. */
  function StateOnly(state: Value): Scope {
    Scope(None, state, None)
  }

  function Attr(name: string, value: Option<string>): string {
    match value
    case None => ""
    case Some(v) => " " + name + "=\"" + v + "\""
  }

  /** The opening tag: the tag name, the element's other attributes (whose
      values may hold `{{expr}}`), then its directives. */
  function OpenTag(e: Part): seq<Segment>
    requires e.Elem?
  {
    [Lit("<" + e.tag)] + e.attrs + [Lit(Attr("data-sprinkle-if", e.cond) + Attr("data-sprinkle-for", e.iter) + ">")]
  }

  /** `outerHTML` of an element. */
  function Outer(e: Part): (r: seq<Segment>)
    requires e.Elem?
    ensures |r| >= 1 && r[0].Lit? && |r[0].text| > 0 && r[0].text[0] == '<'
  {
    OpenTag(e) + e.inner + [Lit("</" + e.tag + ">")]
  }

  /** `innerHTML` of the container once the directives have run. */
  function Serialize(parts: Markup): seq<Segment>
    decreases |parts|
  {
    if parts == [] then []
    else
      var last := parts[|parts| - 1];
      Serialize(parts[..|parts| - 1]) + (if last.Elem? then Outer(last) else last.segs)
  }

  // ---------------------------------------------------------------------
  // Step 1: conditional removal

  /** Whether a part survives the `data-sprinkle-if` step: `!!(cond)` for an
      element carrying the directive, true for anything else. */
  function Guard(p: Part, state: Value, eval: Evaluator): (r: Option<bool>)
    ensures !(p.Elem? && p.cond.Some?) ==> r == Some(true)
    ensures r.None? <==> p.Elem? && p.cond.Some? && eval(p.cond.value, StateOnly(state)).None?
  {
    if p.Elem? && p.cond.Some? then
      match eval(p.cond.value, StateOnly(state))
      case None => None
      case Some(v) => Some(Truthy(v))
    else Some(true)
  }

  /** The parts left once every element with a falsy guard is removed. */
  function Prune(parts: Markup, state: Value, eval: Evaluator): Option<Markup>
    decreases |parts|
  {
    if parts == [] then Some([])
    else
      var last := parts[|parts| - 1];
      match Prune(parts[..|parts| - 1], state, eval)
      case None => None
      case Some(kept) =>
        match Guard(last, state, eval)
        case None => None
        case Some(keep) => Some(if keep then kept + [last] else kept)
  }

  lemma {:induction false} PruneFailsFrom(parts: Markup, state: Value, eval: Evaluator, i: nat)
    requires i <= |parts| && Prune(parts[..i], state, eval).None?
    ensures Prune(parts, state, eval).None?
    decreases |parts| - i
  {
    if i < |parts| {
      assert parts[..i + 1][..i] == parts[..i];
      PruneFailsFrom(parts, state, eval, i + 1);
    } else {
      assert parts[..i] == parts;
    }
  }

  /** The `data-sprinkle-if` loop over the copy. */
  method RemoveConditionals(parts: Markup, state: Value, eval: Evaluator) returns (kept: Option<Markup>)
    ensures kept == Prune(parts, state, eval)
  {
    var acc: Markup := [];
    var i := 0;
    while i < |parts|
      invariant 0 <= i <= |parts|
      invariant Prune(parts[..i], state, eval) == Some(acc)
    {
      assert parts[..i + 1][..i] == parts[..i];
      var present := Guard(parts[i], state, eval);
      if present.None? {
        PruneFailsFrom(parts, state, eval, i + 1);
        return None;
      }
      if present.value {
        acc := acc + [parts[i]];
      }
      i := i + 1;
    }
    assert parts[..i] == parts;
    kept := Some(acc);
  }

  /** What survives is exactly what was there with a truthy guard. */
  lemma {:induction false} PruneKeepsExactly(parts: Markup, state: Value, eval: Evaluator, p: Part)
    requires Prune(parts, state, eval).Some?
    ensures p in Prune(parts, state, eval).value <==> p in parts && Guard(p, state, eval) == Some(true)
    decreases |parts|
  {
    if parts != [] {
      var prefix := parts[..|parts| - 1];
      PruneKeepsExactly(prefix, state, eval, p);
      assert parts == prefix + [parts[|parts| - 1]];
    }
  }

  /** The pass fails exactly when some guard throws. */
  lemma {:induction false} PruneFailsIff(parts: Markup, state: Value, eval: Evaluator)
    ensures Prune(parts, state, eval).None? <==> exists i :: 0 <= i < |parts| && Guard(parts[i], state, eval).None?
    decreases |parts|
  {
    if parts != [] {
      var n := |parts| - 1;
      var prefix := parts[..n];
      PruneFailsIff(prefix, state, eval);
      if exists i :: 0 <= i < n && Guard(prefix[i], state, eval).None? {
        var i :| 0 <= i < n && Guard(prefix[i], state, eval).None?;
        assert parts[i] == prefix[i];
      }
      if exists i :: 0 <= i < |parts| && Guard(parts[i], state, eval).None? {
        var i :| 0 <= i < |parts| && Guard(parts[i], state, eval).None?;
        if i < n { assert prefix[i] == parts[i]; }
      }
    }
  }

  /** Removal keeps the order of what it keeps: it works piecewise. */
  lemma {:induction false} PruneConcat(a: Markup, b: Markup, state: Value, eval: Evaluator)
    requires Prune(a, state, eval).Some? && Prune(b, state, eval).Some?
    ensures Prune(a + b, state, eval) == Some(Prune(a, state, eval).value + Prune(b, state, eval).value)
    decreases |b|
  {
    if b == [] {
      assert a + b == a;
      assert Prune(a, state, eval).value + [] == Prune(a, state, eval).value;
    } else {
      var b' := b[..|b| - 1];
      assert (a + b)[..|a + b| - 1] == a + b';
      assert (a + b)[|a + b| - 1] == b[|b| - 1];
      assert Prune(b', state, eval).Some?;
      PruneConcat(a, b', state, eval);
      var last := b[|b| - 1];
      var ka, kb := Prune(a, state, eval).value, Prune(b', state, eval).value;
      assert Guard(last, state, eval).Some?;
      if Guard(last, state, eval).value {
        assert ka + (kb + [last]) == (ka + kb) + [last];
      }
    }
  }

  /** Removal is scoped to one pass: an element a falsy guard removed under
      one state is present under a state where its guard is truthy. */
  lemma PrunedElementReappears(parts: Markup, i: nat, before: Value, after: Value, eval: Evaluator)
    requires i < |parts| && parts[i].Elem? && parts[i].cond.Some?
    requires eval(parts[i].cond.value, StateOnly(before)).Some?
    requires !Truthy(eval(parts[i].cond.value, StateOnly(before)).value)
    requires eval(parts[i].cond.value, StateOnly(after)).Some?
    requires Truthy(eval(parts[i].cond.value, StateOnly(after)).value)
    requires Prune(parts, before, eval).Some? && Prune(parts, after, eval).Some?
    ensures parts[i] !in Prune(parts, before, eval).value
    ensures parts[i] in Prune(parts, after, eval).value
  {
    PruneKeepsExactly(parts, before, eval, parts[i]);
    PruneKeepsExactly(parts, after, eval, parts[i]);
  }

  // ---------------------------------------------------------------------
  // Step 2: iteration

  /** `iterator.map(...)` exists only on arrays; on anything else it throws. */
  function Items(v: Value): (r: Option<seq<Value>>)
    ensures r.Some? <==> v.Arr?
  {
    if v.Arr? then Some(v.items) else None
  }

  /** One item's copy: `outerHTML.replace(regex, ...)`. The pattern built in
      `start` is anchored (`^{{(.*?)}}`), so at most a leading interpolation
      is replaced, evaluated with `$item` bound. */
  function RenderItem(outer: seq<Segment>, item: Value, state: Value, registry: Registry,
                      eval: Evaluator): (r: Option<seq<Segment>>)
    ensures !(|outer| > 0 && outer[0].Interp?) ==> r == Some(outer)
    ensures r.Some? ==> |r.value| == |outer| && (|outer| > 0 ==> r.value[0].Lit? && r.value[1..] == outer[1..])
    ensures r.None? <==> |outer| > 0 && outer[0].Interp? &&
                         eval(outer[0].expr, Scope(Some(registry), state, Some(item))).None?
  {
    if |outer| > 0 && outer[0].Interp? then
      match eval(outer[0].expr, Scope(Some(registry), state, Some(item)))
      case None => None
      case Some(v) => Some([Lit(ToJsString(v))] + outer[1..])
    else Some(outer)
  }

  /** `items.map(renderItem).join("")`: one copy per item, in order. */
  function Expansion(outer: seq<Segment>, items: seq<Value>, state: Value, registry: Registry,
                     eval: Evaluator): (r: Option<seq<Segment>>)
    ensures items == [] ==> r == Some([])
    decreases |items|
  {
    if items == [] then Some([])
    else
      match Expansion(outer, items[..|items| - 1], state, registry, eval)
      case None => None
      case Some(done) =>
        match RenderItem(outer, items[|items| - 1], state, registry, eval)
        case None => None
        case Some(copy) => Some(done + copy)
  }

  /** The copies for `a + b` are the copies for `a` followed by those for `b`. */
  lemma {:induction false} ExpansionConcat(outer: seq<Segment>, a: seq<Value>, b: seq<Value>,
                                          state: Value, registry: Registry, eval: Evaluator)
    requires Expansion(outer, a, state, registry, eval).Some?
    requires Expansion(outer, b, state, registry, eval).Some?
    ensures Expansion(outer, a + b, state, registry, eval)
         == Some(Expansion(outer, a, state, registry, eval).value + Expansion(outer, b, state, registry, eval).value)
    decreases |b|
  {
    if b == [] {
      assert a + b == a;
      assert Expansion(outer, a, state, registry, eval).value + [] == Expansion(outer, a, state, registry, eval).value;
    } else {
      var b' := b[..|b| - 1];
      assert (a + b)[..|a + b| - 1] == a + b';
      assert (a + b)[|a + b| - 1] == b[|b| - 1];
      assert Expansion(outer, b', state, registry, eval).Some?;
      ExpansionConcat(outer, a, b', state, registry, eval);
      var ea, eb := Expansion(outer, a, state, registry, eval).value, Expansion(outer, b', state, registry, eval).value;
      var copy := RenderItem(outer, b[|b| - 1], state, registry, eval).value;
      assert ea + (eb + copy) == (ea + eb) + copy;
    }
  }

  /** `n` verbatim copies of `s`. */
  function Repeat(s: seq<Segment>, n: nat): (r: seq<Segment>)
    ensures |r| == n * |s|
  {
    if n == 0 then [] else Repeat(s, n - 1) + s
  }

  /** Since `outerHTML` begins with `<`, the anchored pattern never matches:
      every copy is the element's markup verbatim, and `$item` is never bound. */
  lemma {:induction false} ExpansionIsVerbatim(outer: seq<Segment>, items: seq<Value>, state: Value,
                                              registry: Registry, eval: Evaluator)
    requires |outer| > 0 && outer[0].Lit?
    ensures Expansion(outer, items, state, registry, eval) == Some(Repeat(outer, |items|))
    decreases |items|
  {
    if items != [] {
      ExpansionIsVerbatim(outer, items[..|items| - 1], state, registry, eval);
    }
  }

  /** One part after the `data-sprinkle-for` step: an element with the
      directive loses the attribute and its content becomes the copies. */
  function ExpandPart(p: Part, state: Value, registry: Registry, eval: Evaluator): (r: Option<Part>)
    ensures r.Some? ==> r.value.Elem? == p.Elem?
    ensures r.Some? && r.value.Elem? ==>
              r.value.iter.None? && r.value.tag == p.tag && r.value.attrs == p.attrs && r.value.cond == p.cond
    ensures !(p.Elem? && p.iter.Some?) ==> r == Some(p)
  {
    if p.Elem? && p.iter.Some? then
      match eval(p.iter.value, StateOnly(state))
      case None => None
      case Some(v) =>
        match Items(v)
        case None => None
        case Some(items) =>
          var stripped := p.(iter := None);
          match Expansion(Outer(stripped), items, state, registry, eval)
          case None => None
          case Some(copies) => Some(stripped.(inner := copies))
    else Some(p)
  }

  /** The `data-sprinkle-for` step applied to each part on its own. */
  function Expansions(parts: Markup, state: Value, registry: Registry, eval: Evaluator): seq<Option<Part>> {
    seq(|parts|, i requires 0 <= i < |parts| => ExpandPart(parts[i], state, registry, eval))
  }

  /** The `data-sprinkle-for` step over all parts, aborted by the first throw. */
  function ExpandAll(parts: Markup, state: Value, registry: Registry, eval: Evaluator): Option<Markup> {
    Collect(Expansions(parts, state, registry, eval))
  }

  /** The step keeps every part in place: one part out per part in. */
  lemma ExpandAllLength(parts: Markup, state: Value, registry: Registry, eval: Evaluator)
    requires ExpandAll(parts, state, registry, eval).Some?
    ensures |ExpandAll(parts, state, registry, eval).value| == |parts|
  {
    if parts != [] {
      CollectInOrder(Expansions(parts, state, registry, eval), 0);
    }
  }

  /** No `data-sprinkle-for` directive survives the step. */
  lemma ExpandAllClearsDirectives(parts: Markup, state: Value, registry: Registry, eval: Evaluator)
    requires ExpandAll(parts, state, registry, eval).Some?
    ensures forall q :: q in ExpandAll(parts, state, registry, eval).value && q.Elem? ==> q.iter.None?
  {
    var rs := Expansions(parts, state, registry, eval);
    var done := ExpandAll(parts, state, registry, eval).value;
    ExpandAllLength(parts, state, registry, eval);
    forall q | q in done && q.Elem?
      ensures q.iter.None?
    {
      var k :| 0 <= k < |done| && done[k] == q;
      CollectInOrder(rs, k);
      assert rs[k] == ExpandPart(parts[k], state, registry, eval);
    }
  }

  /** Parts without `data-sprinkle-for` come through the step unchanged. */
  lemma ExpandAllKeepsPlainParts(parts: Markup, state: Value, registry: Registry, eval: Evaluator, i: nat)
    requires ExpandAll(parts, state, registry, eval).Some?
    requires i < |parts| && !(parts[i].Elem? && parts[i].iter.Some?)
    ensures i < |ExpandAll(parts, state, registry, eval).value|
    ensures ExpandAll(parts, state, registry, eval).value[i] == parts[i]
  {
    var rs := Expansions(parts, state, registry, eval);
    CollectInOrder(rs, i);
    assert rs[i] == ExpandPart(parts[i], state, registry, eval) == Some(parts[i]);
  }

  /** The `data-sprinkle-for` loop over what the conditional step left. */
  method ExpandRepeated(parts: Markup, state: Value, registry: Registry, eval: Evaluator)
    returns (expanded: Option<Markup>)
    ensures expanded == ExpandAll(parts, state, registry, eval)
  {
    ghost var rs := Expansions(parts, state, registry, eval);
    var acc: Markup := [];
    var i := 0;
    while i < |parts|
      invariant 0 <= i <= |parts|
      invariant Collect(rs[..i]) == Some(acc)
    {
      var q := ExpandPart(parts[i], state, registry, eval);
      assert rs[..i + 1] == rs[..i] + [q];
      CollectSnoc(rs[..i], q);
      if q.None? {
        assert !rs[i].Some?;
        CollectSome(rs);
        return None;
      }
      acc := acc + [q.value];
      i := i + 1;
    }
    assert rs[..i] == rs;
    expanded := Some(acc);
  }

  // ---------------------------------------------------------------------
  // Step 3: interpolation

  /** The text one segment contributes: literal text as is, `{{expr}}` as
      the text of its value with `$methods` and `$state` bound. */
  function SegmentText(seg: Segment, state: Value, registry: Registry, eval: Evaluator): (r: Option<string>)
    ensures seg.Lit? ==> r == Some(seg.text)
    ensures r.None? <==> seg.Interp? && eval(seg.expr, Scope(Some(registry), state, None)).None?
  {
    match seg
    case Lit(t) => Some(t)
    case Interp(e) =>
      match eval(e, Scope(Some(registry), state, None))
      case None => None
      case Some(v) => Some(ToJsString(v))
  }

  function Interpolation(segs: seq<Segment>, state: Value, registry: Registry, eval: Evaluator): Option<string>
    decreases |segs|
  {
    if segs == [] then Some("")
    else
      match Interpolation(segs[..|segs| - 1], state, registry, eval)
      case None => None
      case Some(done) =>
        match SegmentText(segs[|segs| - 1], state, registry, eval)
        case None => None
        case Some(t) => Some(done + t)
  }

  lemma {:induction false} InterpolationFailsFrom(segs: seq<Segment>, state: Value, registry: Registry,
                                                 eval: Evaluator, i: nat)
    requires i <= |segs| && Interpolation(segs[..i], state, registry, eval).None?
    ensures Interpolation(segs, state, registry, eval).None?
    decreases |segs| - i
  {
    if i < |segs| {
      assert segs[..i + 1][..i] == segs[..i];
      InterpolationFailsFrom(segs, state, registry, eval, i + 1);
    } else {
      assert segs[..i] == segs;
    }
  }

  /** The final `innerHTML.replace(/{{(.*?)}}/g, ...)`. */
  method Interpolate(segs: seq<Segment>, state: Value, registry: Registry, eval: Evaluator)
    returns (html: Option<string>)
    ensures html == Interpolation(segs, state, registry, eval)
  {
    var acc := "";
    var i := 0;
    while i < |segs|
      invariant 0 <= i <= |segs|
      invariant Interpolation(segs[..i], state, registry, eval) == Some(acc)
    {
      assert segs[..i + 1][..i] == segs[..i];
      var t := SegmentText(segs[i], state, registry, eval);
      if t.None? {
        InterpolationFailsFrom(segs, state, registry, eval, i + 1);
        return None;
      }
      acc := acc + t.value;
      i := i + 1;
    }
    assert segs[..i] == segs;
    html := Some(acc);
  }

  /** Interpolating a concatenation concatenates the interpolations. */
  lemma {:induction false} InterpolationConcat(a: seq<Segment>, b: seq<Segment>, state: Value,
                                              registry: Registry, eval: Evaluator)
    requires Interpolation(a, state, registry, eval).Some? && Interpolation(b, state, registry, eval).Some?
    ensures Interpolation(a + b, state, registry, eval)
         == Some(Interpolation(a, state, registry, eval).value + Interpolation(b, state, registry, eval).value)
    decreases |b|
  {
    if b == [] {
      assert a + b == a;
      assert Interpolation(a, state, registry, eval).value + "" == Interpolation(a, state, registry, eval).value;
    } else {
      var b' := b[..|b| - 1];
      assert (a + b)[..|a + b| - 1] == a + b';
      assert (a + b)[|a + b| - 1] == b[|b| - 1];
      assert Interpolation(b', state, registry, eval).Some?;
      InterpolationConcat(a, b', state, registry, eval);
      var ta, tb := Interpolation(a, state, registry, eval).value, Interpolation(b', state, registry, eval).value;
      var t := SegmentText(b[|b| - 1], state, registry, eval).value;
      assert ta + (tb + t) == (ta + tb) + t;
    }
  }

  function LiteralText(segs: seq<Segment>): string
    requires forall i :: 0 <= i < |segs| ==> segs[i].Lit?
    decreases |segs|
  {
    if segs == [] then "" else LiteralText(segs[..|segs| - 1]) + segs[|segs| - 1].text
  }

  /** Markup without `{{...}}` comes out as its literal text, whatever the state. */
  lemma {:induction false} InterpolationOfLiterals(segs: seq<Segment>, state: Value, registry: Registry,
                                                  eval: Evaluator)
    requires forall i :: 0 <= i < |segs| ==> segs[i].Lit?
    ensures Interpolation(segs, state, registry, eval) == Some(LiteralText(segs))
    decreases |segs|
  {
    if segs != [] {
      InterpolationOfLiterals(segs[..|segs| - 1], state, registry, eval);
    }
  }

  // ---------------------------------------------------------------------
  // The whole pass

  /** The HTML the pass produces for `markup` under `state`, or `None` when
      some evaluation throws or some iterator is not an array. */
  function Rendering(markup: Markup, state: Value, registry: Registry, eval: Evaluator): Option<string> {
    match Prune(markup, state, eval)
    case None => None
    case Some(kept) =>
      match ExpandAll(kept, state, registry, eval)
      case None => None
      case Some(expanded) => Interpolation(Serialize(expanded), state, registry, eval)
  }

  /** `getHTML(state, element)`: the three steps in their fixed order. */
  method Render(markup: Markup, state: Value, registry: Registry, eval: Evaluator) returns (html: Option<string>)
    ensures html == Rendering(markup, state, registry, eval)
  {
    var kept := RemoveConditionals(markup, state, eval);
    if kept.None? { return None; }
    var expanded := ExpandRepeated(kept.value, state, registry, eval);
    if expanded.None? { return None; }
    html := Interpolate(Serialize(expanded.value), state, registry, eval);
  }

  /** Markup without directives renders as its interpolated text. */
  lemma {:induction false} PlainMarkupRendering(markup: Markup, state: Value, registry: Registry, eval: Evaluator)
    requires forall i :: 0 <= i < |markup| ==> markup[i].Text?
    ensures Rendering(markup, state, registry, eval) == Interpolation(Serialize(markup), state, registry, eval)
  {
    PruneUnguarded(markup, state, eval);
    ExpandUnrepeated(markup, state, registry, eval);
  }

  lemma {:induction false} PruneUnguarded(parts: Markup, state: Value, eval: Evaluator)
    requires forall i :: 0 <= i < |parts| ==> !(parts[i].Elem? && parts[i].cond.Some?)
    ensures Prune(parts, state, eval) == Some(parts)
    decreases |parts|
  {
    if parts != [] {
      PruneUnguarded(parts[..|parts| - 1], state, eval);
      assert parts[..|parts| - 1] + [parts[|parts| - 1]] == parts;
    }
  }

  lemma ExpandUnrepeated(parts: Markup, state: Value, registry: Registry, eval: Evaluator)
    requires forall i :: 0 <= i < |parts| ==> !(parts[i].Elem? && parts[i].iter.Some?)
    ensures ExpandAll(parts, state, registry, eval) == Some(parts)
  {
    var rs := Expansions(parts, state, registry, eval);
    forall k | 0 <= k < |rs|
      ensures rs[k].Some?
    {
      assert rs[k] == ExpandPart(parts[k], state, registry, eval);
    }
    CollectSome(rs);
    ExpandAllLength(parts, state, registry, eval);
    var done := ExpandAll(parts, state, registry, eval).value;
    forall i | 0 <= i < |parts|
      ensures done[i] == parts[i]
    {
      ExpandAllKeepsPlainParts(parts, state, registry, eval, i);
    }
    assert done == parts;
  }
}
