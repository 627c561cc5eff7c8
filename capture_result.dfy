/** The scope accumulator: a mutable key→value mapping that routes every captured value
    through the capture's filter chain and hands it to a named merge modifier. */
module CaptureResult {
  import opened Wrappers
  import opened Errors
  import opened Values
  import opened Syntax
  import opened Pipeline
  import opened Modifiers

  /** The per-call filter table; every accumulator of one call shares it. */
  class FilterDict {
    var entries: map<string, FilterFn>

    constructor (entries: map<string, FilterFn>)
      ensures this.entries == entries
    {
      this.entries := entries;
    }
  }

  /** The per-call modifier table; every accumulator of one call shares it. */
  class ModifierDict {
    var entries: map<string, ModifierFn>

    constructor (entries: map<string, ModifierFn>)
      ensures this.entries == entries
    {
      this.entries := entries;
    }
  }

  /** The modifiers `add` and `forceAdd` fall back on when a capture names none. */
  const AddDefault: Modifier := Modifier("add", [])
  const ForceAddDefault: Modifier := Modifier("forceAdd", [])

  /** `capture.modifier || defaultModifier`. */
  function EffectiveModifier(capture: Capture, default: Modifier): (mod: Modifier)
    ensures capture.modifier.Some? ==> mod == capture.modifier.value
    ensures capture.modifier.None? ==> mod == default
  {
    if capture.modifier.Some? then capture.modifier.value else default
  }

  /** What `exec` does to the mapping `m`: look the modifier up (an unknown name fails before
      any filter runs), run the value through the filter chain, then invoke the modifier
      exactly once with the capture's name, the filtered value and the modifier's arguments. */
  function Merge(filters: map<string, FilterFn>, modifiers: map<string, ModifierFn>, members: Members,
                 m: map<string, Value>, capture: Capture, v: Value, default: Modifier): (r: Result<map<string, Value>, Error>)
    ensures EffectiveModifier(capture, default).name !in modifiers ==>
              r == Err(InvalidModifier(EffectiveModifier(capture, default).name))
    ensures EffectiveModifier(capture, default).name in modifiers ==>
              r == match FilterChain(filters, members, v, capture.filterList)
                   case Err(e) => Err(e)
                   case Ok(w) => ApplyModifier(modifiers[EffectiveModifier(capture, default).name], m, capture.name, w,
                                               EffectiveModifier(capture, default).args)
  {
    var modifier := EffectiveModifier(capture, default);
    if modifier.name !in modifiers then Err(InvalidModifier(modifier.name))
    else
      var w :- FilterChain(filters, members, v, capture.filterList);
      ApplyModifier(modifiers[modifier.name], m, capture.name, w, modifier.args)
  }

  /** `getResult`: the self key's value when that key is present, whatever else is stored;
      otherwise the mapping itself; and an empty object becomes null. */
  function Collapse(m: map<string, Value>): (r: Value)
    ensures DefaultCaptureKey in m && !IsEmptyObject(m[DefaultCaptureKey]) ==> r == m[DefaultCaptureKey]
    ensures DefaultCaptureKey !in m && m != map[] ==> r == Obj(m)
    ensures r.Null? <==> if DefaultCaptureKey in m then m[DefaultCaptureKey].Null? || IsEmptyObject(m[DefaultCaptureKey])
                         else m == map[]
    ensures !IsEmptyObject(r)
  {
    var v := if DefaultCaptureKey in m then m[DefaultCaptureKey] else Obj(m);
    if IsEmptyObject(v) then Null else v
  }

  /** A key is in `Prefixed(prefix, d)` exactly when it is `prefix` followed by a key of `d`. */
  lemma PrefixedAt(prefix: string, d: map<string, Value>, x: string)
    ensures x in Prefixed(prefix, d) <==> |prefix| <= |x| && x[..|prefix|] == prefix && x[|prefix|..] in d
    ensures x in Prefixed(prefix, d) ==> |prefix| <= |x| && Prefixed(prefix, d)[x] == d[x[|prefix|..]]
  {
    if |prefix| <= |x| && x[..|prefix|] == prefix {
      assert x == prefix + x[|prefix|..];
    }
    if x in Prefixed(prefix, d) {
      var j :| j in d && x == prefix + j;
      assert x[..|prefix|] == prefix && x[|prefix|..] == j;
    }
  }

  lemma PrefixedStep(prefix: string, d: map<string, Value>, k: string, v: Value)
    ensures Prefixed(prefix, d[k := v]) == Prefixed(prefix, d)[prefix + k := v]
  {
    var l := Prefixed(prefix, d[k := v]);
    var r := Prefixed(prefix, d)[prefix + k := v];
    forall x
      ensures (x in l <==> x in r) && (x in l ==> l[x] == r[x])
    {
      PrefixedAt(prefix, d[k := v], x);
      PrefixedAt(prefix, d, x);
      PrefixedAt(prefix, d, prefix + k);
      PrefixedAt(prefix, d[k := v], prefix + k);
      assert (prefix + k)[..|prefix|] == prefix && (prefix + k)[|prefix|..] == k;
      if |prefix| <= |x| && x[..|prefix|] == prefix {
        assert x == prefix + x[|prefix|..];
      }
    }
    assert l == r;
  }

  /** One iteration of `spread`'s loop moves one key from "to do" to "done". */
  lemma SpreadStep(m: map<string, Value>, prefix: string, entries: map<string, Value>, keys: set<string>, k: string)
    requires k in keys && keys <= entries.Keys
    ensures (m + Prefixed(prefix, entries - keys))[prefix + k := entries[k]] == m + Prefixed(prefix, entries - (keys - {k}))
  {
    RestrictStep(entries, keys, k);
    PrefixedStep(prefix, entries - keys, k, entries[k]);
    UnionUpdate(m, Prefixed(prefix, entries - keys), prefix + k, entries[k]);
  }

  lemma RestrictStep(entries: map<string, Value>, keys: set<string>, k: string)
    requires k in keys && keys <= entries.Keys
    ensures (entries - keys)[k := entries[k]] == entries - (keys - {k})
  {
  }

  lemma UnionUpdate(m: map<string, Value>, p: map<string, Value>, x: string, y: Value)
    ensures (m + p)[x := y] == m + p[x := y]
  {
  }

  class CaptureResult {
    var result: map<string, Value>
    const filterDict: FilterDict
    const modifierDict: ModifierDict
    const members: Members

    constructor (filterDict: FilterDict, modifierDict: ModifierDict, members: Members)
      ensures result == map[]
      ensures this.filterDict == filterDict && this.modifierDict == modifierDict && this.members == members
    {
      this.result := map[];
      this.filterDict := filterDict;
      this.modifierDict := modifierDict;
      this.members := members;
    }

    /** `get`: the stored value, or undefined for a key never set. */
    function Get(key: string): (v: Value)
      reads this
      ensures key in result ==> v == result[key]
      ensures key !in result ==> v.Undefined?
    {
      Lookup(result, key)
    }

    /** `set`: overwrite one key; `get` of that key then returns the value, and no other key changes. */
    method Set(key: string, value: Value)
      modifies this
      ensures result == old(result)[key := value]
      ensures Get(key) == value && OthersUnchanged(old(result), result, key)
    {
      result := result[key := value];
    }

    /** `add`: merge with the capture's own modifier, `add` when it has none. */
    method Add(capture: Capture, value: Value) returns (out: Outcome<Error>)
      modifies this
      ensures Reflects(out, old(result), result,
                       Merge(filterDict.entries, modifierDict.entries, members, old(result), capture, value, AddDefault))
    {
      out := Exec(capture, value, AddDefault);
    }

    /** `forceAdd`: merge with the capture's own modifier, `forceAdd` when it has none. */
    method ForceAdd(capture: Capture, value: Value) returns (out: Outcome<Error>)
      modifies this
      ensures Reflects(out, old(result), result,
                       Merge(filterDict.entries, modifierDict.entries, members, old(result), capture, value, ForceAddDefault))
    {
      out := Exec(capture, value, ForceAddDefault);
    }

    method Exec(capture: Capture, value: Value, default: Modifier) returns (out: Outcome<Error>)
      modifies this
      ensures Reflects(out, old(result), result,
                       Merge(filterDict.entries, modifierDict.entries, members, old(result), capture, value, default))
    {
      var modifier := EffectiveModifier(capture, default);
      if modifier.name !in modifierDict.entries {
        return Fail(InvalidModifier(modifier.name));
      }
      var fn := modifierDict.entries[modifier.name];
      var filtered := FilterChain(filterDict.entries, members, value, capture.filterList);
      if filtered.Err? {
        return Fail(filtered.error);
      }
      var key, v := capture.name, filtered.value;
      out := Pass;
      match fn
      case AddModifier => ModifyAdd(key, v);
      case ForceAddModifier => ModifyForceAdd(key, v);
      case CandidateModifier => ModifyCandidate(key, v);
      case ArrayModifier => out := ModifyArray(key, v);
      case SpreadModifier => ModifySpread(key, v, modifier.args);
      case UserModifier(body) =>
        var next := body(result, key, v, modifier.args);
        if next.Err? {
          return Fail(next.error);
        }
        result := next.value;
    }

    /** `getResult`: the self key's value when it is stored, else the whole mapping; an
        empty object becomes null, so the output is never an empty object. */
    function GetResult(): (v: Value)
      reads this
      ensures DefaultCaptureKey in result && !IsEmptyObject(result[DefaultCaptureKey]) ==> v == result[DefaultCaptureKey]
      ensures DefaultCaptureKey !in result && result != map[] ==> v == Obj(result)
      ensures !IsEmptyObject(v)
    {
      Collapse(result)
    }

    method ModifyAdd(key: string, value: Value)
      modifies this
      ensures result == Modifiers.Add(old(result), key, value)
    {
      if !IsNullish(value) && !IsEmptyObject(value) {
        Set(key, value);
      }
    }

    method ModifyForceAdd(key: string, value: Value)
      modifies this
      ensures result == Modifiers.ForceAdd(old(result), key, value)
    {
      Set(key, value);
    }

    method ModifyCandidate(key: string, value: Value)
      modifies this
      ensures result == Modifiers.Candidate(old(result), key, value)
    {
      var oldValue := Get(key);
      if !Truthy(oldValue) {
        Set(key, value);
      }
    }

    method ModifyArray(key: string, value: Value) returns (out: Outcome<Error>)
      modifies this
      ensures Reflects(out, old(result), result, Modifiers.Array(old(result), key, value))
    {
      var current := Get(key);
      var stored := if Truthy(current) then current else Arr([]);
      if !stored.Arr? {
        return Fail(TypeError);
      }
      assert !Truthy(current) ==> stored.items + [value] == [value];
      Set(key, Arr(stored.items + [value]));
      out := Pass;
    }

    /** `spread` sets one key per own key of the value. The keys are distinct, so the order
        in which they are visited does not change the outcome. */
    method ModifySpread(key: string, value: Value, args: seq<Literal>)
      modifies this
      ensures result == Modifiers.Spread(old(result), key, value, args)
    {
      if IsNullish(value) {
        return;
      }
      var prefix := SpreadPrefix(key, args);
      var entries := OwnEntries(value);
      var keys := entries.Keys;
      while keys != {}
        invariant keys <= entries.Keys
        invariant result == old(result) + Prefixed(prefix, entries - keys)
        decreases keys
      {
        var k :| k in keys;
        SpreadStep(old(result), prefix, entries, keys, k);
        Set(prefix + k, entries[k]);
        keys := keys - {k};
      }
      assert entries - keys == entries;
    }
  }

  /** With no modifier of its own, a capture merged by `add` uses the `add` modifier and one
      merged by `forceAdd` uses `forceAdd`; a null value is then dropped by the first and
      written by the second. */
  lemma DefaultModifiers(filters: map<string, FilterFn>, members: Members, m: map<string, Value>, capture: Capture)
    requires capture.modifier.None? && capture.filterList == []
    ensures Merge(filters, DefaultModifierDict, members, m, capture, Null, AddDefault) == Ok(m)
    ensures Merge(filters, DefaultModifierDict, members, m, capture, Null, ForceAddDefault) == Ok(m[capture.name := Null])
  {
  }
}
