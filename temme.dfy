/** The interpreter: the per-call registries, the definitions pass, and the evaluation of a
    selector list against a node into a fresh accumulator, recursing into the children of
    array captures. The pure functions state what each step yields; the class `Call`
    performs the steps on shared mutable registries and is proved to yield exactly that. */
module Temme {
  import opened Wrappers
  import opened Errors
  import opened Values
  import opened Syntax
  import opened Pipeline
  import opened Modifiers
  import opened CaptureResult
  import opened Procedures
  import opened Snippets
  import opened DomAdapter

  /** The four per-call registries. */
  datatype Tables = Tables(filters: map<string, FilterFn>, modifiers: map<string, ModifierFn>,
                           procedures: map<string, ProcedureFn>, snippets: map<string, seq<Selector>>)

  /** What the interpreter takes from its surroundings: the value members filters fall back on,
      the CSS string builder, and the compilation of the bodies defined in selectors. */
  datatype Host = Host(
    members: Members,
    makeCss: seq<Section> -> string,
    compileFilter: (string, string) -> FilterFn,
    compileModifier: (string, string) -> ModifierBody,
    compileProcedure: (string, string) -> ProcedureBody)

  /** Every entry of `a` is in `b`, bound to the same thing. */
  ghost predicate SubMap<V>(a: map<string, V>, b: map<string, V>) {
    forall k :: k in a ==> k in b && b[k] == a[k]
  }

  /** `u` keeps every registration of `t` and may add new ones. */
  ghost predicate Extends(t: Tables, u: Tables) {
    && SubMap(t.filters, u.filters)
    && SubMap(t.modifiers, u.modifiers)
    && SubMap(t.procedures, u.procedures)
    && SubMap(t.snippets, u.snippets)
  }

  /** The registries of one call: each default table overridden by the caller's extras, and
      no snippets. */
  function InitialTables(defaultFilters: map<string, FilterFn>, extraFilters: map<string, FilterFn>,
                         extraModifiers: map<string, ModifierFn>, extraProcedures: map<string, ProcedureFn>): (t: Tables)
    ensures t.filters.Keys == defaultFilters.Keys + extraFilters.Keys
    ensures t.modifiers.Keys == DefaultModifierDict.Keys + extraModifiers.Keys
    ensures t.procedures.Keys == DefaultProcedureDict.Keys + extraProcedures.Keys
    ensures forall k :: k in extraFilters ==> t.filters[k] == extraFilters[k]
    ensures forall k :: k in extraModifiers ==> t.modifiers[k] == extraModifiers[k]
    ensures forall k :: k in extraProcedures ==> t.procedures[k] == extraProcedures[k]
    ensures forall k :: k in defaultFilters && k !in extraFilters ==> t.filters[k] == defaultFilters[k]
    ensures forall k :: k in DefaultModifierDict && k !in extraModifiers ==> t.modifiers[k] == DefaultModifierDict[k]
    ensures forall k :: k in DefaultProcedureDict && k !in extraProcedures ==> t.procedures[k] == DefaultProcedureDict[k]
    ensures t.snippets == map[]
  {
    Tables(defaultFilters + extraFilters, DefaultModifierDict + extraModifiers,
           DefaultProcedureDict + extraProcedures, map[])
  }

  /** The selector defines a name that its registry already holds. */
  predicate Clashes(t: Tables, s: Selector) {
    match s
    case SnippetDefine(name, _) => name in t.snippets
    case FilterDefine(name, _, _) => name in t.filters
    case ModifierDefine(name, _, _) => name in t.modifiers
    case ProcedureDefine(name, _, _) => name in t.procedures
    case _ => false
  }

  /** The selector is one of the four define kinds, which only the definitions pass acts on. */
  predicate IsDefinition(s: Selector) {
    s.SnippetDefine? || s.FilterDefine? || s.ModifierDefine? || s.ProcedureDefine?
  }

  /** The error of a define whose name is already registered. */
  predicate IsRedefinition(e: Error) {
    e.SnippetAlreadyDefined? || e.FilterAlreadyDefined? || e.ModifierAlreadyDefined? || e.ProcedureAlreadyDefined?
  }

  /** Two selectors define the same name in the same registry. */
  predicate SameDefinition(a: Selector, b: Selector) {
    || (a.SnippetDefine? && b.SnippetDefine? && a.name == b.name)
    || (a.FilterDefine? && b.FilterDefine? && a.name == b.name)
    || (a.ModifierDefine? && b.ModifierDefine? && a.name == b.name)
    || (a.ProcedureDefine? && b.ProcedureDefine? && a.name == b.name)
  }

  /** The registration a define selector makes is present in `t`. */
  ghost predicate Registered(h: Host, t: Tables, s: Selector) {
    match s
    case SnippetDefine(name, body) => name in t.snippets && t.snippets[name] == body
    case FilterDefine(name, argsPart, code) => name in t.filters && t.filters[name] == h.compileFilter(argsPart, code)
    case ModifierDefine(name, argsPart, code) =>
      name in t.modifiers && t.modifiers[name] == UserModifier(h.compileModifier(argsPart, code))
    case ProcedureDefine(name, argsPart, code) =>
      name in t.procedures && t.procedures[name] == UserProcedure(h.compileProcedure(argsPart, code))
    case _ => true
  }

  /** One step of the definitions pass: register a define selector whose name is free. */
  function DefineOne(h: Host, t: Tables, s: Selector): (r: Result<Tables, Error>)
    ensures r.Err? <==> Clashes(t, s)
    ensures r.Ok? ==> Extends(t, r.value) && Registered(h, r.value, s)
    ensures r.Ok? ==> forall b :: SameDefinition(s, b) ==> Clashes(r.value, b)
  {
    match s
    case SnippetDefine(name, body) =>
      if name in t.snippets then Err(SnippetAlreadyDefined(name))
      else Ok(t.(snippets := t.snippets[name := body]))
    case FilterDefine(name, argsPart, code) =>
      if name in t.filters then Err(FilterAlreadyDefined(name))
      else Ok(t.(filters := t.filters[name := h.compileFilter(argsPart, code)]))
    case ModifierDefine(name, argsPart, code) =>
      if name in t.modifiers then Err(ModifierAlreadyDefined(name))
      else Ok(t.(modifiers := t.modifiers[name := UserModifier(h.compileModifier(argsPart, code))]))
    case ProcedureDefine(name, argsPart, code) =>
      if name in t.procedures then Err(ProcedureAlreadyDefined(name))
      else Ok(t.(procedures := t.procedures[name := UserProcedure(h.compileProcedure(argsPart, code))]))
    case _ => Ok(t)
  }

  /** The definitions pass of one scope, in list order. */
  function DefinePass(h: Host, t: Tables, sels: seq<Selector>): (r: Result<Tables, Error>)
    ensures r.Err? ==> IsRedefinition(r.error)
    ensures (forall i :: 0 <= i < |sels| ==> !IsDefinition(sels[i])) ==> r == Ok(t)
    decreases |sels|
  {
    if sels == [] then Ok(t)
    else
      var t1 :- DefineOne(h, t, sels[0]);
      DefinePass(h, t1, sels[1..])
  }

  lemma ExtendsTransitive(t: Tables, u: Tables, v: Tables)
    requires Extends(t, u) && Extends(u, v)
    ensures Extends(t, v)
  {
  }

  lemma ClashPersists(t: Tables, u: Tables, s: Selector)
    requires Extends(t, u) && Clashes(t, s)
    ensures Clashes(u, s)
  {
  }

  lemma RegisteredPersists(h: Host, t: Tables, u: Tables, s: Selector)
    requires Extends(t, u) && Registered(h, t, s)
    ensures Registered(h, u, s)
  {
  }

  /** A successful definitions pass keeps every earlier registration, registers every define
      selector of the list, and so can only have met names that were free: none already in
      its registry (built-in, extra or defined earlier in the call), and no two in the list
      the same. */
  lemma {:induction false} DefinePassRegisters(h: Host, t: Tables, sels: seq<Selector>)
    ensures DefinePass(h, t, sels).Ok? ==> Extends(t, DefinePass(h, t, sels).value)
    ensures DefinePass(h, t, sels).Ok? ==> forall i :: 0 <= i < |sels| ==> Registered(h, DefinePass(h, t, sels).value, sels[i])
    ensures DefinePass(h, t, sels).Ok? ==> forall i :: 0 <= i < |sels| ==> !Clashes(t, sels[i])
    ensures DefinePass(h, t, sels).Ok? ==> forall i, j :: 0 <= i < j < |sels| ==> !SameDefinition(sels[i], sels[j])
    decreases |sels|
  {
    if sels != [] && DefinePass(h, t, sels).Ok? {
      var t1 := DefineOne(h, t, sels[0]).value;
      var rest := sels[1..];
      var u := DefinePass(h, t, sels).value;
      DefinePassRegisters(h, t1, rest);
      assert DefinePass(h, t1, rest) == Ok(u);
      ExtendsTransitive(t, t1, u);
      RegisteredPersists(h, t1, u, sels[0]);
      forall i | 0 <= i < |sels|
        ensures Registered(h, u, sels[i]) && !Clashes(t, sels[i])
      {
        if i > 0 {
          assert sels[i] == rest[i - 1];
          if Clashes(t, sels[i]) { ClashPersists(t, t1, sels[i]); }
        }
      }
      forall i, j | 0 <= i < j < |sels|
        ensures !SameDefinition(sels[i], sels[j])
      {
        assert sels[j] == rest[j - 1];
        if i > 0 {
          assert sels[i] == rest[i - 1];
        } else {
          assert !Clashes(t1, rest[j - 1]);
        }
      }
    }
  }

  /** One qualifier of the captured section: an attribute qualifier whose value is a capture
      merges the attribute's value via `add`, and only when the node has the attribute. */
  function QualifierStep(h: Host, dom: Dom, t: Tables, node: NodeId, q: Qualifier, m: map<string, Value>): (r: Result<map<string, Value>, Error>)
    ensures !CapturesOn(dom, node, q) ==> r == Ok(m)
    ensures CapturesOn(dom, node, q) ==>
              r == Merge(t.filters, t.modifiers, h.members, m, q.value.capture, Str(dom.attr(node, q.attribute).value), AddDefault)
  {
    match q
    case AttributeQualifier(attribute, _, CaptureOf(capture)) =>
      (match dom.attr(node, attribute)
       case None => Ok(m)
       case Some(text) => Merge(t.filters, t.modifiers, h.members, m, capture, Str(text), AddDefault))
    case _ => Ok(m)
  }

  /** The attribute captures of a section, in qualifier order. */
  function AttributeCaptures(h: Host, dom: Dom, t: Tables, node: NodeId, quals: seq<Qualifier>, m: map<string, Value>): (r: Result<map<string, Value>, Error>)
    ensures r.Err? ==> exists i :: 0 <= i < |quals| && CapturesOn(dom, node, quals[i])
    decreases |quals|
  {
    if quals == [] then Ok(m)
    else
      var m1 :- QualifierStep(h, dom, t, node, quals[0], m);
      AttributeCaptures(h, dom, t, node, quals[1..], m1)
  }

  /** The qualifier would capture on `node`: it is an attribute capture and the attribute exists. */
  predicate CapturesOn(dom: Dom, node: NodeId, q: Qualifier) {
    q.AttributeQualifier? && q.value.CaptureOf? && dom.attr(node, q.attribute).Some?
  }

  /** A section none of whose attribute captures finds its attribute on the node merges nothing. */
  lemma {:induction false} AbsentAttributesCaptureNothing(h: Host, dom: Dom, t: Tables, node: NodeId, quals: seq<Qualifier>, m: map<string, Value>)
    requires forall i :: 0 <= i < |quals| ==> !CapturesOn(dom, node, quals[i])
    ensures AttributeCaptures(h, dom, t, node, quals, m) == Ok(m)
    decreases |quals|
  {
    if quals != [] {
      assert !CapturesOn(dom, node, quals[0]);
      assert QualifierStep(h, dom, t, node, quals[0], m) == Ok(m);
      AbsentAttributesCaptureNothing(h, dom, t, node, quals[1..], m);
    }
  }

  /** `capture`: the attribute captures of the section, then the selector's procedure, if any,
      looked up by name in the call's procedure registry. A missing section (an empty
      section list) is a TypeError. */
  function CaptureStep(h: Host, dom: Dom, t: Tables, node: NodeId, section: Option<Section>, procedure: Option<Procedure>,
                       m: map<string, Value>): (r: Result<map<string, Value>, Error>)
    ensures section.None? ==> r == Err(TypeError)
    ensures r.Ok? && procedure.Some? ==> procedure.value.name in t.procedures
  {
    if section.None? then Err(TypeError)
    else
      var m1 :- AttributeCaptures(h, dom, t, node, section.value.qualifiers, m);
      if procedure.None? then Ok(m1)
      else if procedure.value.name !in t.procedures then Err(InvalidProcedure(procedure.value.name))
      else Run(t.procedures[procedure.value.name], t.filters, t.modifiers, h.members, dom, m1, node, procedure.value.args)
  }

  /** Without a procedure only the attribute captures apply; a procedure name the registry
      lacks fails once the attribute captures have merged, whatever the arguments. */
  lemma CaptureProcedure(h: Host, dom: Dom, t: Tables, node: NodeId, section: Section, procedure: Option<Procedure>, m: map<string, Value>)
    ensures procedure.None? ==> CaptureStep(h, dom, t, node, Some(section), procedure, m) == AttributeCaptures(h, dom, t, node, section.qualifiers, m)
    ensures procedure.Some? && procedure.value.name !in t.procedures ==>
              CaptureStep(h, dom, t, node, Some(section), procedure, m) ==
              (if AttributeCaptures(h, dom, t, node, section.qualifiers, m).Ok? then Err(InvalidProcedure(procedure.value.name))
               else AttributeCaptures(h, dom, t, node, section.qualifiers, m))
    ensures CaptureStep(h, dom, t, node, None, procedure, m) == Err(TypeError)
  {
  }

  /** `helper(node, sels)`: the definitions pass, then snippet expansion with the registry it
      leaves, then evaluation of the expanded list into a fresh, empty accumulator. */
  function Scope(h: Host, dom: Dom, t: Tables, node: NodeId, sels: seq<Selector>): (r: Result<(Tables, map<string, Value>), Error>)
    requires dom.Valid()
    ensures sels == [] ==> r == Ok((t, map[]))
    ensures r.Ok? ==> forall i :: 0 <= i < |sels| ==> !Clashes(t, sels[i])
    decreases dom.height(node), 3, 0
  {
    DefinePassRegisters(h, t, sels);
    var t1 :- DefinePass(h, t, sels);
    var list :- Expand(t1.snippets, sels, []);
    EvalList(h, dom, t1, node, list, map[])
  }

  /** The second pass over an expanded list, selector by selector. */
  function EvalList(h: Host, dom: Dom, t: Tables, node: NodeId, list: seq<Selector>, m: map<string, Value>): (r: Result<(Tables, map<string, Value>), Error>)
    requires dom.Valid()
    ensures (forall i :: 0 <= i < |list| ==> IsDefinition(list[i])) ==> r == Ok((t, m))
    decreases dom.height(node), 2, |list|
  {
    if list == [] then Ok((t, m))
    else
      var r :- EvalOne(h, dom, t, node, list[0], m);
      EvalList(h, dom, r.0, node, list[1..], r.1)
  }

  /** One selector of the second pass. A normal selector captures on its first match only,
      then, with an array capture, merges via `add` the list of its children's results, one
      per match; a parent reference captures on the node itself when it matches; an
      assignment merges its literal via `forceAdd`; definitions do nothing. */
  function EvalOne(h: Host, dom: Dom, t: Tables, node: NodeId, s: Selector, m: map<string, Value>): (r: Result<(Tables, map<string, Value>), Error>)
    requires dom.Valid()
    ensures IsDefinition(s) ==> r == Ok((t, m))
    ensures r.Ok? && !(s.NormalSelector? && s.arrayCapture.Some?) ==> r.value.0 == t
    decreases dom.height(node), 1, 0
  {
    match s
    case NormalSelector(sections, procedure, arrayCapture, children) =>
      var css := h.makeCss(sections);
      var subs := dom.queryAll(node, css);
      var m1 :- if |subs| > 0 then CaptureStep(h, dom, t, subs[0], LastSection(sections), procedure, m) else Ok(m);
      if arrayCapture.None? then Ok((t, m1))
      else
        var r :- EvalMatches(h, dom, t, node, css, children, 0, []);
        var m2 :- Merge(r.0.filters, r.0.modifiers, h.members, m1, arrayCapture.value, Arr(r.1), AddDefault);
        Ok((r.0, m2))
    case ParentRefSelector(section, procedure) =>
      if dom.matches(node, h.makeCss([section])) then
        var m1 :- CaptureStep(h, dom, t, node, Some(section), procedure, m);
        Ok((t, m1))
      else Ok((t, m))
    case Assignment(capture, value) =>
      var m1 :- Merge(t.filters, t.modifiers, h.members, m, capture, FromLiteral(value), ForceAddDefault);
      Ok((t, m1))
    case _ => Ok((t, m))
  }

  /** The children of an array capture evaluated on each match from the `j`-th on, each in its
      own scope, the collapsed results appended to `items` in match order. */
  function EvalMatches(h: Host, dom: Dom, t: Tables, node: NodeId, css: string, children: seq<Selector>, j: nat,
                       items: seq<Value>): (r: Result<(Tables, seq<Value>), Error>)
    requires dom.Valid()
    ensures r.Ok? ==> |items| <= |r.value.1| && r.value.1[..|items|] == items
    ensures r.Ok? && j <= |dom.queryAll(node, css)| ==> |r.value.1| == |items| + |dom.queryAll(node, css)| - j
    ensures r.Ok? ==> forall k :: |items| <= k < |r.value.1| ==> !IsEmptyObject(r.value.1[k])
    decreases dom.height(node), 0, |dom.queryAll(node, css)| - j
  {
    var subs := dom.queryAll(node, css);
    if j >= |subs| then Ok((t, items))
    else
      var r :- Scope(h, dom, t, subs[j], children);
      EvalMatches(h, dom, r.0, node, css, children, j + 1, items + [Collapse(r.1)])
  }

  /** `temme(root, sels)`: null for an empty selector list, without looking at the document;
      otherwise the collapsed result of the root scope, evaluated with the call's registries. */
  function Evaluate(h: Host, dom: Dom, t: Tables, root: NodeId, sels: seq<Selector>): (r: Result<Value, Error>)
    requires dom.Valid()
    ensures sels == [] ==> r == Ok(Null)
    ensures r.Ok? ==> !IsEmptyObject(r.value)
  {
    if sels == [] then Ok(Null)
    else
      var s :- Scope(h, dom, t, root, sels);
      Ok(Collapse(s.1))
  }

  /** Evaluation only ever adds registrations: the registries a scope leaves extend the ones
      it started from. */
  lemma {:induction false} ScopeExtends(h: Host, dom: Dom, t: Tables, node: NodeId, sels: seq<Selector>)
    requires dom.Valid()
    ensures Scope(h, dom, t, node, sels).Ok? ==> Extends(t, Scope(h, dom, t, node, sels).value.0)
    decreases dom.height(node), 3, 0
  {
    if Scope(h, dom, t, node, sels).Ok? {
      DefinePassRegisters(h, t, sels);
      var t1 := DefinePass(h, t, sels).value;
      var list := Expand(t1.snippets, sels, []).value;
      EvalListExtends(h, dom, t1, node, list, map[]);
      ExtendsTransitive(t, t1, Scope(h, dom, t, node, sels).value.0);
    }
  }

  lemma {:induction false} EvalListExtends(h: Host, dom: Dom, t: Tables, node: NodeId, list: seq<Selector>, m: map<string, Value>)
    requires dom.Valid()
    ensures EvalList(h, dom, t, node, list, m).Ok? ==> Extends(t, EvalList(h, dom, t, node, list, m).value.0)
    decreases dom.height(node), 2, |list|
  {
    if list != [] && EvalList(h, dom, t, node, list, m).Ok? {
      var r := EvalOne(h, dom, t, node, list[0], m).value;
      EvalOneExtends(h, dom, t, node, list[0], m);
      EvalListExtends(h, dom, r.0, node, list[1..], r.1);
      ExtendsTransitive(t, r.0, EvalList(h, dom, t, node, list, m).value.0);
    }
  }

  lemma {:induction false} EvalOneExtends(h: Host, dom: Dom, t: Tables, node: NodeId, s: Selector, m: map<string, Value>)
    requires dom.Valid()
    ensures EvalOne(h, dom, t, node, s, m).Ok? ==> Extends(t, EvalOne(h, dom, t, node, s, m).value.0)
    decreases dom.height(node), 1, 0
  {
    if s.NormalSelector? && s.arrayCapture.Some? {
      EvalMatchesExtends(h, dom, t, node, h.makeCss(s.sections), s.children, 0, []);
    }
  }

  lemma {:induction false} EvalMatchesExtends(h: Host, dom: Dom, t: Tables, node: NodeId, css: string, children: seq<Selector>,
                                              j: nat, items: seq<Value>)
    requires dom.Valid()
    ensures EvalMatches(h, dom, t, node, css, children, j, items).Ok? ==>
              Extends(t, EvalMatches(h, dom, t, node, css, children, j, items).value.0)
    decreases dom.height(node), 0, |dom.queryAll(node, css)| - j
  {
    var subs := dom.queryAll(node, css);
    if j < |subs| && EvalMatches(h, dom, t, node, css, children, j, items).Ok? {
      var r := Scope(h, dom, t, subs[j], children).value;
      ScopeExtends(h, dom, t, subs[j], children);
      EvalMatchesExtends(h, dom, r.0, node, css, children, j + 1, items + [Collapse(r.1)]);
      ExtendsTransitive(t, r.0, EvalMatches(h, dom, t, node, css, children, j, items).value.0);
    }
  }

  /** The registries are shared by the whole call, not scoped: a snippet defined among the
      children of an array capture is registered again for every match, so with two or more
      matches the capture fails. */
  lemma SnippetDefinedPerMatchFails(h: Host, dom: Dom, t: Tables, node: NodeId, sections: seq<Section>,
                                    procedure: Option<Procedure>, c: Capture, children: seq<Selector>, k: nat,
                                    m: map<string, Value>)
    requires dom.Valid()
    requires k < |children| && children[k].SnippetDefine?
    requires |dom.queryAll(node, h.makeCss(sections))| >= 2
    ensures EvalOne(h, dom, t, node, NormalSelector(sections, procedure, Some(c), children), m).Err?
  {
    var css := h.makeCss(sections);
    var subs := dom.queryAll(node, css);
    var first := Scope(h, dom, t, subs[0], children);
    if first.Ok? {
      DefinePassRegisters(h, t, children);
      var t1 := DefinePass(h, t, children).value;
      assert Registered(h, t1, children[k]);
      EvalListExtends(h, dom, t1, subs[0], Expand(t1.snippets, children, []).value, map[]);
      var u := first.value.0;
      assert Clashes(u, children[k]);
      DefinePassRegisters(h, u, children);
      assert Scope(h, dom, u, subs[1], children).Err?;
      assert EvalMatches(h, dom, u, node, css, children, 1, [Collapse(first.value.1)]).Err?;
    }
    assert EvalMatches(h, dom, t, node, css, children, 0, []).Err?;
  }

  /** When no child scope registers anything, an array capture collects exactly one item per
      match, in match order: the collapsed result of the children evaluated on that match in a
      fresh accumulator. */
  lemma {:induction false} ArrayCaptureCollectsMatches(h: Host, dom: Dom, t: Tables, node: NodeId, css: string,
                                                       children: seq<Selector>, j: nat, items: seq<Value>)
    requires dom.Valid()
    requires j <= |dom.queryAll(node, css)|
    requires forall k :: j <= k < |dom.queryAll(node, css)| ==>
               Scope(h, dom, t, dom.queryAll(node, css)[k], children).Ok? &&
               Scope(h, dom, t, dom.queryAll(node, css)[k], children).value.0 == t
    ensures EvalMatches(h, dom, t, node, css, children, j, items).Ok?
    ensures EvalMatches(h, dom, t, node, css, children, j, items).value.0 == t
    ensures |EvalMatches(h, dom, t, node, css, children, j, items).value.1| == |items| + |dom.queryAll(node, css)| - j
    ensures EvalMatches(h, dom, t, node, css, children, j, items).value.1[..|items|] == items
    ensures forall k :: j <= k < |dom.queryAll(node, css)| ==>
              EvalMatches(h, dom, t, node, css, children, j, items).value.1[|items| + k - j] ==
              Collapse(Scope(h, dom, t, dom.queryAll(node, css)[k], children).value.1)
    decreases |dom.queryAll(node, css)| - j
  {
    var subs := dom.queryAll(node, css);
    if j < |subs| {
      var c := Collapse(Scope(h, dom, t, subs[j], children).value.1);
      var next := items + [c];
      ArrayCaptureCollectsMatches(h, dom, t, node, css, children, j + 1, next);
      var r := EvalMatches(h, dom, t, node, css, children, j, items);
      assert r == EvalMatches(h, dom, t, node, css, children, j + 1, next);
      assert r.value.1[..|next|] == next;
      assert r.value.1[..|items|] == next[..|items|];
      assert r.value.1[|items|] == next[|items|];
    }
  }

  /** The selectors without a match: a normal selector with no match captures nothing (an
      array capture then still merges an empty list), a parent reference whose node does not
      match captures nothing; an assignment of null with the default modifiers writes null. */
  lemma SelectorsWithoutMatch(h: Host, dom: Dom, t: Tables, node: NodeId, m: map<string, Value>,
                              sections: seq<Section>, procedure: Option<Procedure>, children: seq<Selector>,
                              section: Section, c: Capture)
    requires dom.Valid()
    requires c.filterList == [] && c.modifier.None?
    ensures |dom.queryAll(node, h.makeCss(sections))| == 0 ==>
              EvalOne(h, dom, t, node, NormalSelector(sections, procedure, None, children), m) == Ok((t, m))
    ensures |dom.queryAll(node, h.makeCss(sections))| == 0 && t.modifiers == DefaultModifierDict ==>
              EvalOne(h, dom, t, node, NormalSelector(sections, procedure, Some(c), children), m) == Ok((t, m[c.name := Arr([])]))
    ensures !dom.matches(node, h.makeCss([section])) ==>
              EvalOne(h, dom, t, node, ParentRefSelector(section, procedure), m) == Ok((t, m))
    ensures t.modifiers == DefaultModifierDict ==>
              EvalOne(h, dom, t, node, Assignment(c, LNull), m) == Ok((t, m[c.name := Null]))
  {
  }

  /** One call of `temme`: the registries it copies from the defaults and the caller's extras,
      shared by every scope of the call, and the scopes evaluated against them. */
  class Call {
    const dom: Dom
    const host: Host
    const filterDict: FilterDict
    const modifierDict: ModifierDict
    var procedureDict: map<string, ProcedureFn>
    var snippetsMap: map<string, seq<Selector>>

    /** The registries as they stand. */
    function State(): Tables
      reads this, filterDict, modifierDict
    {
      Tables(filterDict.entries, modifierDict.entries, procedureDict, snippetsMap)
    }

    /** Copies each default table, overridden by the caller's extras; no snippets yet. */
    constructor (dom: Dom, host: Host, defaultFilters: map<string, FilterFn>, extraFilters: map<string, FilterFn>,
                 extraModifiers: map<string, ModifierFn>, extraProcedures: map<string, ProcedureFn>)
      ensures State() == InitialTables(defaultFilters, extraFilters, extraModifiers, extraProcedures)
      ensures this.dom == dom && this.host == host
      ensures fresh(filterDict) && fresh(modifierDict)
    {
      this.dom := dom;
      this.host := host;
      filterDict := new FilterDict(defaultFilters + extraFilters);
      modifierDict := new ModifierDict(DefaultModifierDict + extraModifiers);
      procedureDict := DefaultProcedureDict + extraProcedures;
      snippetsMap := map[];
    }

    /** `helper(node, sels)`: a fresh accumulator, the definitions pass over `sels`, then
        each selector of their expansion evaluated against `node` in turn. */
    method Helper(node: NodeId, sels: seq<Selector>) returns (out: Outcome<Error>, res: CaptureResult)
      requires dom.Valid()
      modifies this, filterDict, modifierDict
      ensures Yields(out, (State(), res.result), Scope(host, dom, old(State()), node, sels))
      decreases dom.height(node), 3
    {
      res := new CaptureResult(filterDict, modifierDict, host.members);
      var i := 0;
      while i < |sels|
        invariant i <= |sels|
        invariant res.result == map[]
        invariant DefinePass(host, old(State()), sels) == DefinePass(host, State(), sels[i..])
      {
        assert sels[i..][1..] == sels[i + 1..];
        match sels[i] {
          case SnippetDefine(name, body) =>
            if name in snippetsMap {
              return Fail(SnippetAlreadyDefined(name)), res;
            }
            snippetsMap := snippetsMap[name := body];
          case FilterDefine(name, argsPart, code) =>
            if name in filterDict.entries {
              return Fail(FilterAlreadyDefined(name)), res;
            }
            filterDict.entries := filterDict.entries[name := host.compileFilter(argsPart, code)];
          case ModifierDefine(name, argsPart, code) =>
            if name in modifierDict.entries {
              return Fail(ModifierAlreadyDefined(name)), res;
            }
            modifierDict.entries := modifierDict.entries[name := UserModifier(host.compileModifier(argsPart, code))];
          case ProcedureDefine(name, argsPart, code) =>
            if name in procedureDict {
              return Fail(ProcedureAlreadyDefined(name)), res;
            }
            procedureDict := procedureDict[name := UserProcedure(host.compileProcedure(argsPart, code))];
          case _ =>
        }
        i := i + 1;
      }
      var expansion := Expand(snippetsMap, sels, []);
      if expansion.Err? {
        return Fail(expansion.error), res;
      }
      var list := expansion.value;
      var k := 0;
      while k < |list|
        invariant k <= |list|
        invariant Scope(host, dom, old(State()), node, sels) == EvalList(host, dom, State(), node, list[k..], res.result)
      {
        assert list[k..][1..] == list[k + 1..];
        var o := EvalSelector(res, node, list[k]);
        if o.Fail? {
          return o, res;
        }
        k := k + 1;
      }
      out := Pass;
    }

    /** One selector of the second pass, merged into `res`. */
    method EvalSelector(res: CaptureResult, node: NodeId, s: Selector) returns (out: Outcome<Error>)
      requires dom.Valid()
      requires res.filterDict == filterDict && res.modifierDict == modifierDict && res.members == host.members
      modifies this, filterDict, modifierDict, res
      ensures Yields(out, (State(), res.result), EvalOne(host, dom, old(State()), node, s, old(res.result)))
      decreases dom.height(node), 1
    {
      out := Pass;
      match s
      case NormalSelector(sections, procedure, arrayCapture, children) =>
        var css := host.makeCss(sections);
        var subs := dom.queryAll(node, css);
        if |subs| > 0 {
          out := CaptureNode(res, subs[0], LastSection(sections), procedure);
          if out.Fail? {
            return;
          }
        }
        if arrayCapture.Some? {
          ghost var t0, m1 := State(), res.result;
          var items := [];
          var j := 0;
          while j < |subs|
            invariant j <= |subs|
            invariant res.result == m1
            invariant EvalMatches(host, dom, t0, node, css, children, 0, []) == EvalMatches(host, dom, State(), node, css, children, j, items)
          {
            var o, child := Helper(subs[j], children);
            if o.Fail? {
              return o;
            }
            items := items + [child.GetResult()];
            j := j + 1;
          }
          out := res.Add(arrayCapture.value, Arr(items));
        }
      case ParentRefSelector(section, procedure) =>
        if dom.matches(node, host.makeCss([section])) {
          out := CaptureNode(res, node, Some(section), procedure);
        }
      case Assignment(capture, value) =>
        out := res.ForceAdd(capture, FromLiteral(value));
      case _ =>
    }

    /** `capture(res, node, selector)`: the section's attribute captures, then the procedure. */
    method CaptureNode(res: CaptureResult, node: NodeId, section: Option<Section>, procedure: Option<Procedure>) returns (out: Outcome<Error>)
      requires res.filterDict == filterDict && res.modifierDict == modifierDict && res.members == host.members
      modifies res
      ensures Yields(out, res.result, CaptureStep(host, dom, State(), node, section, procedure, old(res.result)))
    {
      if section.None? {
        return Fail(TypeError);
      }
      var quals := section.value.qualifiers;
      var i := 0;
      while i < |quals|
        invariant i <= |quals|
        invariant AttributeCaptures(host, dom, State(), node, quals, old(res.result)) ==
                  AttributeCaptures(host, dom, State(), node, quals[i..], res.result)
      {
        assert quals[i..][1..] == quals[i + 1..];
        match quals[i] {
          case AttributeQualifier(attribute, _, CaptureOf(capture)) =>
            var value := dom.attr(node, attribute);
            if value.Some? {
              var o := res.Add(capture, Str(value.value));
              if o.Fail? {
                return o;
              }
            }
          case _ =>
        }
        i := i + 1;
      }
      if procedure.None? {
        return Pass;
      }
      var name := procedure.value.name;
      if name !in procedureDict {
        return Fail(InvalidProcedure(name));
      }
      out := Invoke(procedureDict[name], res, dom, node, procedure.value.args);
    }
  }

  /** `temme(root, sels, extras…)`: null for no selectors; otherwise the collapsed result of
      the root scope of a new call. */
  method Temme(dom: Dom, host: Host, defaultFilters: map<string, FilterFn>, extraFilters: map<string, FilterFn>,
               extraModifiers: map<string, ModifierFn>, extraProcedures: map<string, ProcedureFn>,
               root: NodeId, sels: seq<Selector>) returns (out: Result<Value, Error>)
    requires dom.Valid()
    ensures out == Evaluate(host, dom, InitialTables(defaultFilters, extraFilters, extraModifiers, extraProcedures), root, sels)
  {
    if sels == [] {
      return Ok(Null);
    }
    var call := new Call(dom, host, defaultFilters, extraFilters, extraModifiers, extraProcedures);
    var o, res := call.Helper(root, sels);
    if o.Fail? {
      return Err(o.error);
    }
    out := Ok(res.GetResult());
  }
}
