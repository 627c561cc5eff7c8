/** The built-in merge modifiers, stated as updates of a result mapping, and the table
    that names them. The imperative bodies that perform these updates on an accumulator
    are the `Modify…` methods of `CaptureResult.CaptureResult`; each is proved to
    produce exactly the mapping given here. */
module Modifiers {
  import opened Wrappers
  import opened Errors
  import opened Values

  /** The body of a modifier defined in a selector: an opaque update of the mapping, which
      may throw (a failure carrying the thrown error). */
  type ModifierBody = (map<string, Value>, string, Value, seq<Literal>) -> Result<map<string, Value>, Error>

  datatype ModifierFn =
    | AddModifier
    | ForceAddModifier
    | CandidateModifier
    | ArrayModifier
    | SpreadModifier
    | UserModifier(body: ModifierBody)

  /** `defaultModifierDict`. */
  const DefaultModifierDict: map<string, ModifierFn> :=
    map["add" := AddModifier, "forceAdd" := ForceAddModifier, "candidate" := CandidateModifier,
        "array" := ArrayModifier, "spread" := SpreadModifier]

  /** Every key other than `key` is present and bound exactly as before. */
  ghost predicate OthersUnchanged(before: map<string, Value>, after: map<string, Value>, key: string) {
    forall k :: k != key ==> (k in after <==> k in before) && Lookup(after, k) == Lookup(before, k)
  }

  /** A value worth storing under `add`: neither null/undefined nor an empty object. */
  predicate Meaningful(v: Value) {
    !IsNullish(v) && !IsEmptyObject(v)
  }

  /** `add`: store the value unless it is null, undefined or an empty object. */
  function Add(m: map<string, Value>, key: string, v: Value): (r: map<string, Value>)
    ensures Meaningful(v) ==> key in r && r[key] == v
    ensures !Meaningful(v) ==> r == m
    ensures OthersUnchanged(m, r, key)
  {
    if Meaningful(v) then m[key := v] else m
  }

  /** `forceAdd`: always store the value, null included. */
  function ForceAdd(m: map<string, Value>, key: string, v: Value): (r: map<string, Value>)
    ensures key in r && r[key] == v
    ensures OthersUnchanged(m, r, key)
  {
    m[key := v]
  }

  /** `candidate`: store the value only while the current one is falsy. */
  function Candidate(m: map<string, Value>, key: string, v: Value): (r: map<string, Value>)
    ensures Truthy(Lookup(m, key)) ==> r == m
    ensures !Truthy(Lookup(m, key)) ==> key in r && r[key] == v
    ensures OthersUnchanged(m, r, key)
  {
    if !Truthy(Lookup(m, key)) then m[key := v] else m
  }

  /** `array`: append to the stored array, or start one when the stored value is falsy.
      A truthy stored value that is not an array has no `push`: a TypeError. */
  function Array(m: map<string, Value>, key: string, v: Value): (r: Result<map<string, Value>, Error>)
    ensures r.Err? <==> Truthy(Lookup(m, key)) && !Lookup(m, key).Arr?
    ensures r.Err? ==> r.error == TypeError
    ensures r.Ok? && !Truthy(Lookup(m, key)) ==> key in r.value && r.value[key] == Arr([v])
    ensures r.Ok? && Truthy(Lookup(m, key)) ==> key in r.value && r.value[key] == Arr(Lookup(m, key).items + [v])
    ensures r.Ok? ==> OthersUnchanged(m, r.value, key)
  {
    var current := Lookup(m, key);
    if !Truthy(current) then Ok(m[key := Arr([v])])
    else if current.Arr? then Ok(m[key := Arr(current.items + [v])])
    else Err(TypeError)
  }

  /** The prefix `spread` puts before each key: its first argument, or else the capture key;
      the self key gives the empty prefix. */
  function SpreadPrefix(key: string, args: seq<Literal>): (p: string)
    ensures |args| == 0 && key != DefaultCaptureKey ==> p == key
    ensures |args| == 0 && key == DefaultCaptureKey ==> p == ""
    ensures |args| > 0 && args[0] != LStr(DefaultCaptureKey) ==> p == LiteralToString(args[0])
    ensures |args| > 0 && args[0] == LStr(DefaultCaptureKey) ==> p == ""
  {
    if |args| == 0 then (if key == DefaultCaptureKey then "" else key)
    else if args[0] == LStr(DefaultCaptureKey) then ""
    else LiteralToString(args[0])
  }

  lemma PrefixCancels(prefix: string, a: string, b: string)
    requires prefix + a == prefix + b
    ensures a == b
  {
    assert a == (prefix + a)[|prefix|..];
    assert b == (prefix + b)[|prefix|..];
  }

  /** The entries of `entries`, each key written with `prefix` in front. */
  function Prefixed(prefix: string, entries: map<string, Value>): (r: map<string, Value>)
    ensures forall k :: k in entries ==> prefix + k in r && r[prefix + k] == entries[k]
    ensures forall k :: k in r ==> exists j :: j in entries && k == prefix + j
  {
    assert forall a, b :: prefix + a == prefix + b ==> a == b by {
      forall a, b | prefix + a == prefix + b ensures a == b { PrefixCancels(prefix, a, b); }
    }
    map k | k in entries :: prefix + k := entries[k]
  }

  /** `spread`: for a value that is neither null nor undefined, store each own entry `k`
      of the value under `prefix + k`. */
  function Spread(m: map<string, Value>, key: string, v: Value, args: seq<Literal>): (r: map<string, Value>)
    ensures IsNullish(v) ==> r == m
    ensures !IsNullish(v) ==> forall k :: k in OwnEntries(v) ==>
              SpreadPrefix(key, args) + k in r && r[SpreadPrefix(key, args) + k] == OwnEntries(v)[k]
    ensures !IsNullish(v) ==> forall k :: k in r && k !in Prefixed(SpreadPrefix(key, args), OwnEntries(v)) ==>
              k in m && r[k] == m[k]
    ensures r.Keys >= m.Keys
  {
    if IsNullish(v) then m else m + Prefixed(SpreadPrefix(key, args), OwnEntries(v))
  }

  /** Invoking a modifier function on a mapping. */
  function ApplyModifier(fn: ModifierFn, m: map<string, Value>, key: string, v: Value, args: seq<Literal>): (r: Result<map<string, Value>, Error>)
    ensures r.Err? && !fn.UserModifier? ==> fn.ArrayModifier? && r.error == TypeError
    ensures r.Ok? && !fn.SpreadModifier? && !fn.UserModifier? ==> OthersUnchanged(m, r.value, key)
    ensures fn.SpreadModifier? ==> r.Ok? && r.value.Keys >= m.Keys
  {
    match fn
    case AddModifier => Ok(Add(m, key, v))
    case ForceAddModifier => Ok(ForceAdd(m, key, v))
    case CandidateModifier => Ok(Candidate(m, key, v))
    case ArrayModifier => Array(m, key, v)
    case SpreadModifier => Ok(Spread(m, key, v, args))
    case UserModifier(body) => body(m, key, v, args)
  }

  /** Merging `vs` one after another under `key` with `candidate`. */
  function CandidateAll(m: map<string, Value>, key: string, vs: seq<Value>): map<string, Value>
    decreases vs
  {
    if vs == [] then m else CandidateAll(Candidate(m, key, vs[0]), key, vs[1..])
  }

  /** Once a truthy value is stored, later `candidate` merges leave the mapping unchanged. */
  lemma {:induction false} CandidateKeepsTruthy(m: map<string, Value>, key: string, vs: seq<Value>)
    requires Truthy(Lookup(m, key))
    ensures CandidateAll(m, key, vs) == m
    decreases vs
  {
    if vs != [] {
      CandidateKeepsTruthy(m, key, vs[1..]);
    }
  }

  /** Starting from a falsy value, the first truthy value merged with `candidate` is the one
      that survives all the merges. */
  lemma {:induction false} CandidateFirstTruthyWins(m: map<string, Value>, key: string, vs: seq<Value>, i: nat)
    requires !Truthy(Lookup(m, key))
    requires i < |vs| && Truthy(vs[i])
    requires forall j :: 0 <= j < i ==> !Truthy(vs[j])
    ensures Lookup(CandidateAll(m, key, vs), key) == vs[i]
    decreases vs
  {
    var m' := Candidate(m, key, vs[0]);
    if i == 0 {
      CandidateKeepsTruthy(m', key, vs[1..]);
    } else {
      CandidateFirstTruthyWins(m', key, vs[1..], i - 1);
    }
  }

  /** Merging `vs` one after another under `key` with `array`. */
  function ArrayAll(m: map<string, Value>, key: string, vs: seq<Value>): Result<map<string, Value>, Error>
    decreases vs
  {
    if vs == [] then Ok(m)
    else
      var m' :- Array(m, key, vs[0]);
      ArrayAll(m', key, vs[1..])
  }

  /** `array` merges onto a stored array append to it, in merge order. */
  lemma {:induction false} ArrayAppendsInOrder(m: map<string, Value>, key: string, vs: seq<Value>)
    requires Lookup(m, key).Arr?
    ensures ArrayAll(m, key, vs) == Ok(m[key := Arr(Lookup(m, key).items + vs)])
    decreases vs
  {
    var items := Lookup(m, key).items;
    if vs == [] {
      assert items + vs == items;
      assert m[key := Arr(items)] == m;
    } else {
      var m' := m[key := Arr(items + [vs[0]])];
      assert Array(m, key, vs[0]) == Ok(m');
      ArrayAppendsInOrder(m', key, vs[1..]);
      assert (items + [vs[0]]) + vs[1..] == items + vs;
      assert m'[key := Arr(items + vs)] == m[key := Arr(items + vs)];
    }
  }

  /** N merges with `array` into a key holding nothing (or a falsy value) give a list of
      length N holding the merged values in merge order. */
  lemma ArrayAccumulates(m: map<string, Value>, key: string, vs: seq<Value>)
    requires !Truthy(Lookup(m, key))
    requires vs != []
    ensures ArrayAll(m, key, vs) == Ok(m[key := Arr(vs)])
  {
    var m' := m[key := Arr([vs[0]])];
    ArrayAppendsInOrder(m', key, vs[1..]);
    assert [vs[0]] + vs[1..] == vs;
    assert m'[key := Arr(vs)] == m[key := Arr(vs)];
  }
}
