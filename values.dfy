/** JavaScript values, as far as the binding engine inspects them: truthiness
    (`if (value)`, `!!(...)`, `!value`), property reads (`value.path`),
    object spread (`{...current}`) and string conversion (the replacement text
    of an interpolation). */
module JsValues {

  datatype Option<+T> = None | Some(value: T)

  /** What a loop whose body may throw leaves behind: the value of every
      iteration in order, or `None` as soon as one iteration threw. */
  function Collect<T>(rs: seq<Option<T>>): Option<seq<T>>
    decreases |rs|
  {
    if rs == [] then Some([])
    else
      match Collect(rs[..|rs| - 1])
      case None => None
      case Some(vs) => if rs[|rs| - 1].None? then None else Some(vs + [rs[|rs| - 1].value])
  }

  /** One more iteration: its value is appended, or its throw ends the loop. */
  lemma CollectSnoc<T>(rs: seq<Option<T>>, r: Option<T>)
    ensures Collect(rs + [r]) == if Collect(rs).Some? && r.Some? then Some(Collect(rs).value + [r.value]) else None
  {
  }

  /** The loop completes exactly when no iteration throws. */
  lemma {:induction false} CollectSome<T>(rs: seq<Option<T>>)
    ensures Collect(rs).Some? <==> forall k :: 0 <= k < |rs| ==> rs[k].Some?
    decreases |rs|
  {
    if rs != [] {
      var n := |rs| - 1;
      var prefix := rs[..n];
      CollectSome(prefix);
      if Collect(prefix).None? {
        var k :| 0 <= k < n && prefix[k].None?;
        assert rs[k].None?;
      } else if rs[n].Some? {
        forall k | 0 <= k < |rs|
          ensures rs[k].Some?
        {
          if k < n {
            assert prefix[k] == rs[k];
          }
        }
      }
    }
  }

  /** A completed loop has one value per iteration, in iteration order. */
  lemma {:induction false} CollectInOrder<T>(rs: seq<Option<T>>, k: nat)
    requires Collect(rs).Some? && k < |rs|
    ensures |Collect(rs).value| == |rs|
    ensures Some(Collect(rs).value[k]) == rs[k]
    decreases |rs|
  {
    var n := |rs| - 1;
    var prefix := rs[..n];
    var vs := Collect(prefix).value;
    if k < n {
      CollectInOrder(prefix, k);
      assert prefix[k] == rs[k];
      assert (vs + [rs[n].value])[k] == vs[k];
    } else if n > 0 {
      CollectInOrder(prefix, 0);
    }
  }

  /** A JavaScript value. Numbers are integers here. `Opaque` stands for a
      function or a Promise: truthy, with no own `path` or `value` property,
      and converted to text as `shown`. */
  datatype Value =
    | Undefined
    | Null
    | Bool(b: bool)
    | Num(n: int)
    | Str(s: string)
    | Arr(items: seq<Value>)
    | Obj(fields: map<string, Value>)
    | Opaque(shown: string)

  /** JavaScript truthiness: what `!!v` yields. The falsy values are
      `undefined`, `null`, `false`, `0` and the empty string. */
  predicate Truthy(v: Value)
    ensures Truthy(v) <==> v != Undefined && v != Null && v != Bool(false) && v != Num(0) && v != Str("")
  {
    match v
    case Undefined => false
    case Null => false
    case Bool(b) => b
    case Num(n) => n != 0
    case Str(s) => s != ""
    case _ => true
  }

  /** The property read `v.key`: an own field of an object, `undefined` otherwise. */
  function Field(v: Value, key: string): Value {
    if v.Obj? && key in v.fields then v.fields[key] else Undefined
  }

  /** The own enumerable entries that `{...v}` copies. Objects give their
      fields; `undefined`, `null`, booleans, numbers and opaque values give none. */
  function OwnEntries(v: Value): map<string, Value> {
    if v.Obj? then v.fields else map[]
  }

  /** `Array.prototype.join` over strings. */
  function Join(pieces: seq<string>, sep: string): string {
    if |pieces| == 0 then ""
    else if |pieces| == 1 then pieces[0]
    else pieces[0] + sep + Join(pieces[1..], sep)
  }

  predicate IsDigit(c: char) {
    '0' <= c <= '9'
  }

  predicate AllDigits(s: string) {
    forall i :: 0 <= i < |s| ==> IsDigit(s[i])
  }

  function DigitChar(d: nat): (c: char)
    requires d < 10
    ensures IsDigit(c) && c as int - '0' as int == d
  {
    ('0' as int + d) as char
  }

  /** The number a run of decimal digits denotes. */
  function DigitsValue(s: string): nat
    requires AllDigits(s)
    decreases |s|
  {
    if s == [] then 0 else DigitsValue(s[..|s| - 1]) * 10 + (s[|s| - 1] as int - '0' as int)
  }

  /** The decimal digits of `n`, most significant first. */
  function NatToString(n: nat): (r: string)
    ensures |r| > 0 && AllDigits(r) && DigitsValue(r) == n
    decreases n
  {
    if n < 10 then [DigitChar(n)]
    else
      var r := NatToString(n / 10) + [DigitChar(n % 10)];
      assert r[..|r| - 1] == NatToString(n / 10);
      r
  }

  /** `Number(text)` on an optional minus sign followed by decimal digits;
      `None` on any other text. */
  function ReadInteger(s: string): Option<int> {
    if |s| > 1 && s[0] == '-' && AllDigits(s[1..]) then Some(0 - DigitsValue(s[1..]) as int)
    else if |s| > 0 && AllDigits(s) then Some(DigitsValue(s))
    else None
  }

  /** `String(v)`, the text an interpolation puts into the markup. An array
      joins its items with "," and shows `null` and `undefined` items as "". */
  function ToJsString(v: Value): (r: string)
    ensures v.Str? ==> r == v.s
    ensures v.Num? ==> ReadInteger(r) == Some(v.n)
    decreases v
  {
    match v
    case Undefined => "undefined"
    case Null => "null"
    case Bool(b) => if b then "true" else "false"
    case Num(n) =>
      if n < 0 then
        var digits := NatToString(-n);
        assert ("-" + digits)[1..] == digits;
        "-" + digits
      else NatToString(n)
    case Str(s) => s
    case Arr(xs) =>
      Join(seq(|xs|, i requires 0 <= i < |xs| =>
             if xs[i].Undefined? || xs[i].Null? then "" else ToJsString(xs[i])), ",")
    case Obj(_) => "[object Object]"
    case Opaque(shown) => shown
  }
}
