/** The value a form field's `input` listener commits:
    `{ ...currentValue, [name]: value }`. */
module Forms {
  import opened JsValues

  /** A shallow merge: the field's entry is set, every other own entry of
      the current value is kept. */
  function FormMerge(current: Value, name: string, value: Value): (r: Value)
    ensures r.Obj?
    ensures r.fields.Keys == OwnEntries(current).Keys + {name}
    ensures r.fields[name] == value
    ensures forall k :: k in OwnEntries(current) && k != name ==> r.fields[k] == OwnEntries(current)[k]
  {
    Obj(OwnEntries(current)[name := value])
  }

  /** Two fields of one form, filled one after the other, both end up in
      the namespace object; the earlier entries stay. */
  lemma FieldsAccumulate(current: Value, n1: string, v1: Value, n2: string, v2: Value)
    requires n1 != n2
    ensures var r := FormMerge(FormMerge(current, n1, v1), n2, v2);
            r.fields.Keys == OwnEntries(current).Keys + {n1, n2} &&
            r.fields[n1] == v1 && r.fields[n2] == v2 &&
            forall k :: k in OwnEntries(current) && k != n1 && k != n2 ==> r.fields[k] == OwnEntries(current)[k]
  {
  }

  /** Typing into the same field twice keeps only the latest value. */
  lemma SameFieldOverwrites(current: Value, name: string, v1: Value, v2: Value)
    ensures FormMerge(FormMerge(current, name, v1), name, v2) == FormMerge(current, name, v2)
  {
  }

  /** `{a: 1, b: 2}` with input `b` = 9 gives `{a: 1, b: 9}`. */
  lemma MergeExample()
    ensures FormMerge(Obj(map["a" := Num(1), "b" := Num(2)]), "b", Num(9))
         == Obj(map["a" := Num(1), "b" := Num(9)])
  {
  }
}
