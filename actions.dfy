/** Reading a `data-sprinkle-actions` attribute: `split(";")` into specs,
    then `const [trigger, event] = spec.split(":")` on each. */
module ActionSpecs {
  import opened JsValues

  /** `String.prototype.split` with a one-character separator: every
      occurrence separates, empty pieces are kept, there is always a piece. */
  function Split(s: string, sep: char): (pieces: seq<string>)
    ensures |pieces| >= 1
    ensures forall i :: 0 <= i < |pieces| ==> sep !in pieces[i]
    decreases |s|
  {
    if s == [] then [""]
    else
      var rest := Split(s[1..], sep);
      if s[0] == sep then [""] + rest else [[s[0]] + rest[0]] + rest[1..]
  }

  /** Joining the pieces with the separator gives the attribute back. */
  lemma {:induction false} SplitJoin(s: string, sep: char)
    ensures Join(Split(s, sep), [sep]) == s
    decreases |s|
  {
    if s != [] {
      var rest := Split(s[1..], sep);
      SplitJoin(s[1..], sep);
      if s[0] == sep {
        assert Join([""] + rest, [sep]) == "" + [sep] + Join(rest, [sep]);
        assert s == [s[0]] + s[1..];
      } else {
        var pieces := [[s[0]] + rest[0]] + rest[1..];
        if |rest| == 1 {
          assert Join(rest, [sep]) == rest[0];
        } else {
          assert Join(rest, [sep]) == rest[0] + [sep] + Join(rest[1..], [sep]);
          assert pieces[1..] == rest[1..];
        }
        assert s == [s[0]] + s[1..];
      }
    }
  }

  /** Text without the separator extends the first piece. */
  lemma {:induction false} SplitPrefix(x: string, t: string, sep: char)
    requires sep !in x
    ensures Split(x + t, sep) == [x + Split(t, sep)[0]] + Split(t, sep)[1..]
    decreases |x|
  {
    if x != [] {
      SplitPrefix(x[1..], t, sep);
      var r := Split(t, sep);
      var rest := Split((x + t)[1..], sep);
      assert (x + t)[1..] == x[1..] + t;
      assert (x + t)[0] == x[0] != sep;
      assert rest == [x[1..] + r[0]] + r[1..];
      assert Split(x + t, sep) == [[x[0]] + rest[0]] + rest[1..];
      assert rest[0] == x[1..] + r[0] && rest[1..] == r[1..];
      assert [x[0]] + (x[1..] + r[0]) == x + r[0] by {
        assert x == [x[0]] + x[1..];
      }
    } else {
      var r := Split(t, sep);
      assert x + t == t && x + r[0] == r[0];
      assert r == [r[0]] + r[1..];
    }
  }

  /** Pieces free of the separator come back from splitting their join. */
  lemma {:induction false} JoinSplit(pieces: seq<string>, sep: char)
    requires |pieces| >= 1
    requires forall i :: 0 <= i < |pieces| ==> sep !in pieces[i]
    ensures Split(Join(pieces, [sep]), sep) == pieces
    decreases |pieces|
  {
    if |pieces| == 1 {
      SplitPrefix(pieces[0], "", sep);
      assert pieces[0] + "" == pieces[0];
    } else {
      var tail := pieces[1..];
      JoinSplit(tail, sep);
      var t := [sep] + Join(tail, [sep]);
      assert Join(pieces, [sep]) == pieces[0] + t;
      SplitPrefix(pieces[0], t, sep);
      assert t[1..] == Join(tail, [sep]);
      assert Split(t, sep) == [""] + tail;
      assert pieces[0] + "" == pieces[0];
    }
  }

  /** One `trigger:call` spec as the listener registration reads it. */
  datatype ActionSpec = ActionSpec(trigger: string, call: string)

  /** `const [trigger, event] = spec.split(":")`. Only the first two pieces
      are used; with no ":" the call text is the string "undefined", which
      is what the template literal `$methods.${event}` makes of it. */
  function ParseAction(spec: string): (a: ActionSpec)
    ensures ':' !in a.trigger
    ensures ':' !in spec ==> a == ActionSpec(spec, "undefined")
    ensures ':' in spec ==> ':' !in a.call && a.trigger + ":" + a.call <= spec
  {
    var pieces := Split(spec, ':');
    ColonSplit(spec);
    ActionSpec(pieces[0], if |pieces| > 1 then pieces[1] else "undefined")
  }

  /** Without a colon the spec is one piece; with one, the first two pieces
      and the colon between them start the spec. */
  lemma ColonSplit(spec: string)
    ensures ':' !in spec ==> Split(spec, ':') == [spec]
    ensures ':' in spec ==> |Split(spec, ':')| > 1 &&
                            Split(spec, ':')[0] + ":" + Split(spec, ':')[1] <= spec
  {
    var pieces := Split(spec, ':');
    if ':' !in spec {
      SplitPrefix(spec, "", ':');
      assert spec + "" == spec;
    } else {
      SplitJoin(spec, ':');
      var tail := Join(pieces[1..], ":");
      assert spec == pieces[0] + ":" + tail;
      if |pieces[1..]| == 1 {
        assert tail == pieces[1];
      } else {
        assert tail == pieces[1] + ":" + Join(pieces[2..], ":");
      }
      var head := pieces[0] + ":" + pieces[1];
      assert spec[..|head|] == head;
    }
  }

  /** `trigger:call` with no other colon reads back as its two halves. */
  lemma WellFormedSpec(trigger: string, call: string)
    requires ':' !in trigger && ':' !in call
    ensures ParseAction(trigger + ":" + call) == ActionSpec(trigger, call)
  {
    JoinSplit([trigger, call], ':');
    assert Join([trigger, call], [':']) == trigger + [':'] + Join([call], [':']);
  }

  /** A second colon cuts the call short: what follows it is dropped. */
  lemma SecondColonTruncatesCall(trigger: string, call: string, rest: string)
    requires ':' !in trigger && ':' !in call
    ensures ParseAction(trigger + ":" + call + ":" + rest) == ActionSpec(trigger, call)
  {
    var t1 := ":" + call + ":" + rest;
    var t2 := ":" + rest;
    assert trigger + ":" + call + ":" + rest == trigger + t1;
    SplitPrefix(trigger, t1, ':');
    assert t1 == [':'] + (call + t2);
    SplitPrefix(call, t2, ':');
    assert t2 == [':'] + rest;
    assert Split(t1, ':') == [""] + Split(call + t2, ':');
    assert Split(t2, ':') == [""] + Split(rest, ':');
  }

  /** `getAttribute("data-sprinkle-actions").split(";")`, each spec read. */
  function ParseActions(attr: string): (specs: seq<ActionSpec>)
    ensures |specs| == |Split(attr, ';')|
    ensures forall i :: 0 <= i < |specs| ==> specs[i] == ParseAction(Split(attr, ';')[i])
  {
    var parts := Split(attr, ';');
    seq(|parts|, i requires 0 <= i < |parts| => ParseAction(parts[i]))
  }

  /** The attribute text of a spec: `trigger:call`. */
  function SpecText(a: ActionSpec): string {
    a.trigger + ":" + a.call
  }

  /** Specs whose triggers and calls hold neither `:` nor `;` come back from
      reading the attribute that joins them with `;`. */
  lemma ParseActionsJoin(specs: seq<ActionSpec>)
    requires |specs| >= 1
    requires forall i :: 0 <= i < |specs| ==>
               ':' !in specs[i].trigger && ':' !in specs[i].call && ';' !in specs[i].trigger && ';' !in specs[i].call
    ensures ParseActions(Join(seq(|specs|, i requires 0 <= i < |specs| => SpecText(specs[i])), ";")) == specs
  {
    var texts := seq(|specs|, i requires 0 <= i < |specs| => SpecText(specs[i]));
    forall i | 0 <= i < |texts|
      ensures ';' !in texts[i] && ParseAction(texts[i]) == specs[i]
    {
      WellFormedSpec(specs[i].trigger, specs[i].call);
    }
    JoinSplit(texts, ';');
  }
}
