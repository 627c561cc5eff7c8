/** The snippet resolver: expand sites are replaced, recursively, by the bodies of the
    snippets they name, with the chain of snippets being expanded kept to catch cycles. */
module Snippets {
  import opened Wrappers
  import opened Errors
  import opened Syntax

  /** A selector list with no `snippet-expand` left in it. */
  predicate NoExpandSites(sels: seq<Selector>) {
    forall i :: 0 <= i < |sels| ==> !sels[i].SnippetExpand?
  }

  /** The snippet names not yet on the expansion chain: the measure that makes expansion stop. */
  function Unexpanded(snippets: map<string, seq<Selector>>, expanded: seq<string>): set<string> {
    snippets.Keys - set n | n in expanded
  }

  lemma UnexpandedShrinks(snippets: map<string, seq<Selector>>, expanded: seq<string>, name: string)
    requires name in snippets && name !in expanded
    ensures |Unexpanded(snippets, expanded + [name])| < |Unexpanded(snippets, expanded)|
  {
    assert Unexpanded(snippets, expanded + [name]) == Unexpanded(snippets, expanded) - {name};
    assert name in Unexpanded(snippets, expanded);
  }

  /** The result of expanding `a`, then `b`, joined; the first failure wins. */
  function Joined(ra: Result<seq<Selector>, Error>, rb: Result<seq<Selector>, Error>): Result<seq<Selector>, Error> {
    match ra
    case Err(e) => Err(e)
    case Ok(xa) =>
      match rb
      case Err(e) => Err(e)
      case Ok(xb) => Ok(xa + xb)
  }

  lemma JoinedAssociative(x: Result<seq<Selector>, Error>, y: Result<seq<Selector>, Error>, z: Result<seq<Selector>, Error>)
    ensures Joined(x, Joined(y, z)) == Joined(Joined(x, y), z)
  {
    if x.Ok? && y.Ok? && z.Ok? {
      assert x.value + (y.value + z.value) == (x.value + y.value) + z.value;
    }
  }

  /** `expandSnippets(selectorArray, expanded)`: each selector in turn is pushed as it is or,
      for an expand site, replaced by the expansion of its snippet's body. */
  function Expand(snippets: map<string, seq<Selector>>, sels: seq<Selector>, expanded: seq<string>): (r: Result<seq<Selector>, Error>)
    ensures r.Ok? ==> NoExpandSites(r.value)
    decreases |Unexpanded(snippets, expanded)|, |sels|
  {
    if sels == [] then Ok([])
    else Joined(ExpandSite(snippets, sels[0], expanded), Expand(snippets, sels[1..], expanded))
  }

  /** What one selector expands to: itself, or, for an expand site, the expanded body of the
      snippet it names, after checking that the snippet exists and is not already on the chain. */
  function ExpandSite(snippets: map<string, seq<Selector>>, s: Selector, expanded: seq<string>): (r: Result<seq<Selector>, Error>)
    ensures r.Ok? ==> NoExpandSites(r.value)
    decreases |Unexpanded(snippets, expanded)|, 0
  {
    match s
    case SnippetExpand(name) =>
      if name !in snippets then Err(SnippetNotDefined(name))
      else if name in expanded then Err(CircularSnippetExpansion(expanded + [name]))
      else
        UnexpandedShrinks(snippets, expanded, name);
        Expand(snippets, snippets[name], expanded + [name])
    case _ => Ok([s])
  }

  /** A list with no expand sites expands to itself. */
  lemma {:induction false} ExpandIdentity(snippets: map<string, seq<Selector>>, sels: seq<Selector>, expanded: seq<string>)
    requires NoExpandSites(sels)
    ensures Expand(snippets, sels, expanded) == Ok(sels)
    decreases |sels|
  {
    if sels != [] {
      ExpandIdentity(snippets, sels[1..], expanded);
      assert ExpandSite(snippets, sels[0], expanded) == Ok([sels[0]]);
      assert [sels[0]] + sels[1..] == sels;
    }
  }

  /** Expansion works site by site: expanding `a + b` is expanding `a` and `b` and joining. */
  lemma {:induction false} ExpandAppend(snippets: map<string, seq<Selector>>, a: seq<Selector>, b: seq<Selector>, expanded: seq<string>)
    ensures Expand(snippets, a + b, expanded) == Joined(Expand(snippets, a, expanded), Expand(snippets, b, expanded))
    decreases |a|
  {
    if a == [] {
      assert a + b == b;
      var rb := Expand(snippets, b, expanded);
      if rb.Ok? { assert [] + rb.value == rb.value; }
    } else {
      assert (a + b)[0] == a[0];
      assert (a + b)[1..] == a[1..] + b;
      ExpandAppend(snippets, a[1..], b, expanded);
      JoinedAssociative(ExpandSite(snippets, a[0], expanded), Expand(snippets, a[1..], expanded), Expand(snippets, b, expanded));
    }
  }

  /** An expand site between selectors that are not expand sites is replaced in place by its
      snippet's expanded body; the selectors around it keep their order. Expanding a name
      that is not defined fails, and so does a name already on the chain. */
  lemma ExpandInPlace(snippets: map<string, seq<Selector>>, a: seq<Selector>, name: string, b: seq<Selector>, expanded: seq<string>)
    requires NoExpandSites(a) && NoExpandSites(b)
    ensures name !in snippets ==> Expand(snippets, a + [SnippetExpand(name)] + b, expanded) == Err(SnippetNotDefined(name))
    ensures name in snippets && name in expanded ==>
              Expand(snippets, a + [SnippetExpand(name)] + b, expanded) == Err(CircularSnippetExpansion(expanded + [name]))
    ensures name in snippets && name !in expanded ==>
              Expand(snippets, a + [SnippetExpand(name)] + b, expanded) ==
              Joined(Joined(Ok(a), Expand(snippets, snippets[name], expanded + [name])), Ok(b))
  {
    ExpandAppend(snippets, a + [SnippetExpand(name)], b, expanded);
    ExpandAppend(snippets, a, [SnippetExpand(name)], expanded);
    ExpandIdentity(snippets, a, expanded);
    ExpandIdentity(snippets, b, expanded);
    assert [SnippetExpand(name)][1..] == [];
    if name in snippets && name !in expanded {
      var r := Expand(snippets, snippets[name], expanded + [name]);
      if r.Ok? {
        assert r.value + [] == r.value;
      }
    }
  }

  /** A list fails to expand as soon as one of its selectors does. */
  lemma FailingSiteFails(snippets: map<string, seq<Selector>>, sels: seq<Selector>, k: nat, expanded: seq<string>)
    requires k < |sels| && Expand(snippets, [sels[k]], expanded).Err?
    ensures Expand(snippets, sels, expanded).Err?
  {
    assert sels == sels[..k] + ([sels[k]] + sels[k + 1..]);
    ExpandAppend(snippets, sels[..k], [sels[k]] + sels[k + 1..], expanded);
    ExpandAppend(snippets, [sels[k]], sels[k + 1..], expanded);
  }

  /** `chain` is a cycle of snippets, each one's body holding an expand site of the next. */
  ghost predicate Cycle(snippets: map<string, seq<Selector>>, chain: seq<string>) {
    && |chain| >= 2
    && chain[0] == chain[|chain| - 1]
    && forall i :: 0 <= i < |chain| - 1 ==> chain[i] in snippets && SnippetExpand(chain[i + 1]) in snippets[chain[i]]
  }

  lemma {:induction false} CycleFailsFrom(snippets: map<string, seq<Selector>>, chain: seq<string>, k: nat, expanded: seq<string>)
    requires Cycle(snippets, chain)
    requires 1 <= k < |chain|
    requires forall i :: 0 <= i < k ==> chain[i] in expanded
    ensures Expand(snippets, [SnippetExpand(chain[k])], expanded).Err?
    decreases |chain| - k
  {
    var name := chain[k];
    if k == |chain| - 1 {
      assert name == chain[0] && name in expanded;
    } else if name !in expanded {
      var body := snippets[name];
      var next := expanded + [name];
      CycleFailsFrom(snippets, chain, k + 1, next);
      var j :| 0 <= j < |body| && body[j] == SnippetExpand(chain[k + 1]);
      FailingSiteFails(snippets, body, j, next);
      assert ExpandSite(snippets, SnippetExpand(name), expanded).Err?;
    }
  }

  /** A snippet that expands itself, directly or through other snippets, always fails to
      expand (and expansion always terminates, by its decreasing measure). */
  lemma CycleFails(snippets: map<string, seq<Selector>>, chain: seq<string>)
    requires Cycle(snippets, chain)
    ensures Expand(snippets, [SnippetExpand(chain[0])], []).Err?
  {
    var name := chain[0];
    var body := snippets[name];
    CycleFailsFrom(snippets, chain, 1, [name]);
    var j :| 0 <= j < |body| && body[j] == SnippetExpand(chain[1]);
    FailingSiteFails(snippets, body, j, [name]);
    assert [] + [name] == [name];
    assert ExpandSite(snippets, SnippetExpand(name), []).Err?;
  }

  /** A snippet whose body starts by expanding itself fails with the chain `[name, name]`. */
  lemma SelfExpansionReportsChain(snippets: map<string, seq<Selector>>, name: string)
    requires name in snippets && |snippets[name]| > 0 && snippets[name][0] == SnippetExpand(name)
    ensures Expand(snippets, [SnippetExpand(name)], []) == Err(CircularSnippetExpansion([name, name]))
  {
    assert [name] + [name] == [name, name];
    assert [] + [name] == [name];
    assert ExpandSite(snippets, snippets[name][0], [name]) == Err(CircularSnippetExpansion([name, name]));
    assert Expand(snippets, snippets[name], [name]) == Err(CircularSnippetExpansion([name, name]));
    assert ExpandSite(snippets, SnippetExpand(name), []) == Err(CircularSnippetExpansion([name, name]));
  }
}
