/** The interface the engine uses of its path store (`createStore`, `commit`,
    `retrieve`): a map from path to value whose every change is a commit.
    The store's own internals are not part of this model; a path is an
    opaque key. */
module PathStore {
  import opened JsValues

  type Store = map<string, Value>

  /** One `commit(path, value)`. */
  datatype Mutation = Mutation(path: string, value: Value)

  /** `retrieve(path)`: the committed value, `undefined` for a path never committed. */
  function Retrieve(s: Store, path: string): Value {
    if path in s then s[path] else Undefined
  }

  /** The store after the commits of `log`, in order, starting from `s`. */
  function Apply(s: Store, log: seq<Mutation>): Store
    decreases |log|
  {
    if log == [] then s
    else
      var last := log[|log| - 1];
      Apply(s, log[..|log| - 1])[last.path := last.value]
  }

  /** The paths present afterwards are those present before and those committed. */
  lemma {:induction false} ApplyKeys(s: Store, log: seq<Mutation>)
    ensures Apply(s, log).Keys == s.Keys + set i | 0 <= i < |log| :: log[i].path
    decreases |log|
  {
    if log != [] {
      var prefix := log[..|log| - 1];
      ApplyKeys(s, prefix);
      assert forall i :: 0 <= i < |prefix| ==> prefix[i] == log[i];
      assert (set i | 0 <= i < |log| :: log[i].path)
          == (set i | 0 <= i < |prefix| :: prefix[i].path) + {log[|log| - 1].path};
    }
  }

  /** The store a fresh `createStore({})` reaches after the commits of `log`. */
  function Replay(log: seq<Mutation>): Store {
    Apply(map[], log)
  }

  /** Committing one log and then another is committing their concatenation. */
  lemma {:induction false} ApplyConcat(s: Store, a: seq<Mutation>, b: seq<Mutation>)
    ensures Apply(s, a + b) == Apply(Apply(s, a), b)
    decreases |b|
  {
    if b == [] {
      assert a + b == a;
    } else {
      var b' := b[..|b| - 1];
      assert (a + b)[..|a + b| - 1] == a + b';
      ApplyConcat(s, a, b');
    }
  }

  /** A path that no commit of the log names keeps the value it had. */
  lemma {:induction false} RetrieveUntouched(s: Store, log: seq<Mutation>, p: string)
    requires forall i :: 0 <= i < |log| ==> log[i].path != p
    ensures Retrieve(Apply(s, log), p) == Retrieve(s, p)
    decreases |log|
  {
    if log != [] {
      var prefix := log[..|log| - 1];
      assert forall i :: 0 <= i < |prefix| ==> prefix[i] == log[i];
      RetrieveUntouched(s, prefix, p);
    }
  }

  /** `retrieve(p)` after a sequence of commits returns the value of the
      last commit to `p`. */
  lemma {:induction false} RetrieveLastCommit(s: Store, log: seq<Mutation>, p: string, i: nat)
    requires i < |log| && log[i].path == p
    requires forall j :: i < j < |log| ==> log[j].path != p
    ensures Retrieve(Apply(s, log), p) == log[i].value
    decreases |log|
  {
    var n := |log| - 1;
    if i < n {
      var prefix := log[..n];
      assert forall j :: 0 <= j < n ==> prefix[j] == log[j];
      RetrieveLastCommit(s, prefix, p, i);
    }
  }
}
