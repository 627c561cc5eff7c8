/** The built-in procedures: per-node extraction strategies that merge into the accumulator. */
module Procedures {
  import opened Wrappers
  import opened Errors
  import opened Values
  import opened Syntax
  import opened Pipeline
  import opened Modifiers
  import opened CaptureResult
  import opened DomAdapter

  /** The body of a procedure defined in a selector: an opaque update of the mapping, which
      may throw (a failure carrying the thrown error). */
  type ProcedureBody = (map<string, Value>, NodeId, seq<Arg>) -> Result<map<string, Value>, Error>

  datatype ProcedureFn =
    | TextProcedure
    | HtmlProcedure
    | NodeProcedure
    | FindProcedure
    | AssignProcedure
    | UserProcedure(body: ProcedureBody)

  /** The procedure run when a capture names none, and the one assignments use. */
  const DefaultProcedureName: string := "text"
  const AssignProcedureName: string := "assign"

  /** `defaultProcedureDict`. */
  const DefaultProcedureDict: map<string, ProcedureFn> :=
    map[DefaultProcedureName := TextProcedure, AssignProcedureName := AssignProcedure,
        "html" := HtmlProcedure, "node" := NodeProcedure, "find" := FindProcedure]

  lemma DefaultProcedureTable()
    ensures DefaultProcedureDict.Keys == {DefaultProcedureName, AssignProcedureName, "html", "node", "find"}
    ensures DefaultProcedureDict[DefaultProcedureName] == TextProcedure
    ensures DefaultProcedureDict[AssignProcedureName] == AssignProcedure
    ensures DefaultProcedureDict["html"] == HtmlProcedure && DefaultProcedureDict["find"] == FindProcedure
  {
  }

  /** `t` occurs in `s` starting at index `i`. */
  predicate OccursAt(s: string, t: string, i: nat) {
    i + |t| <= |s| && s[i..i + |t|] == t
  }

  /** `t` occurs somewhere in `s`. */
  ghost predicate Contains(s: string, t: string) {
    exists k: nat :: OccursAt(s, t, k)
  }

  /** `s.indexOf(t, from)`: the first occurrence of `t` at or after `from`. */
  function IndexOf(s: string, t: string, from: nat): (r: Option<nat>)
    requires from <= |s|
    ensures r.Some? ==> from <= r.value && OccursAt(s, t, r.value)
    ensures r.Some? ==> forall j :: from <= j < r.value ==> !OccursAt(s, t, j)
    ensures r.None? ==> forall j :: from <= j ==> !OccursAt(s, t, j)
    decreases |s| - from
  {
    if OccursAt(s, t, from) then Some(from)
    else if from == |s| then None
    else IndexOf(s, t, from + 1)
  }

  /** The first occurrence is unique: any `i` with an occurrence and none before it is it. */
  lemma IndexOfIsFirst(s: string, t: string, from: nat, i: nat)
    requires from <= i && OccursAt(s, t, i)
    requires forall j :: from <= j < i ==> !OccursAt(s, t, j)
    ensures i <= |s| && from <= |s| && IndexOf(s, t, from) == Some(i)
  {
  }

  function IsString(a: Arg): bool {
    a.Lit? && a.literal.LStr?
  }

  /** The argument shapes `find` accepts: (string, capture), (capture, string) and
      (string, capture, string). */
  predicate FindShape(args: seq<Arg>): (b: bool)
    ensures b ==> 2 <= |args| <= 3
    ensures b ==> exists k :: 0 <= k < |args| && args[k].Cap? && forall l :: 0 <= l < |args| && l != k ==> IsString(args[l])
  {
    || (|args| == 2 && ((IsString(args[0]) && args[1].Cap?) || (args[0].Cap? && IsString(args[1]))))
    || (|args| == 3 && IsString(args[0]) && args[1].Cap? && IsString(args[2]))
  }

  /** What `find` captures from the text `s`: the capture and the substring to merge, or
      nothing when an anchor is missing; malformed arguments fail. */
  function FindCapture(s: string, args: seq<Arg>): (r: Result<Option<(Capture, string)>, Error>)
    ensures r.Err? <==> !FindShape(args)
    ensures r.Err? ==> r.error == InvalidArguments
    ensures r.Ok? && r.value.Some? ==> Cap(r.value.value.0) in args
  {
    if |args| == 2 then
      if IsString(args[0]) && args[1].Cap? then
        var before := args[0].literal.s;
        match IndexOf(s, before, 0)
        case None => Ok(None)
        case Some(i) => Ok(Some((args[1].capture, s[i + |before|..])))
      else if args[0].Cap? && IsString(args[1]) then
        match IndexOf(s, args[1].literal.s, 0)
        case None => Ok(None)
        case Some(i) => Ok(Some((args[0].capture, s[..i])))
      else Err(InvalidArguments)
    else if |args| == 3 && IsString(args[0]) && args[1].Cap? && IsString(args[2]) then
      var before, after := args[0].literal.s, args[2].literal.s;
      match IndexOf(s, before, 0)
      case None => Ok(None)
      case Some(i) =>
        match IndexOf(s, after, i + |before|)
        case None => Ok(None)
        case Some(j) => Ok(Some((args[1].capture, s[i + |before|..j])))
    else Err(InvalidArguments)
  }

  /** `find(before, $c)`: when `before` first occurs at `i`, the text after it is captured,
      so the text up to `i`, `before` and the capture make up the whole text. */
  lemma FindAfterAnchor(s: string, before: string, c: Capture, i: nat)
    requires OccursAt(s, before, i) && forall j :: 0 <= j < i ==> !OccursAt(s, before, j)
    ensures FindCapture(s, [Lit(LStr(before)), Cap(c)]) == Ok(Some((c, s[i + |before|..])))
    ensures s[..i] + before + s[i + |before|..] == s
  {
    IndexOfIsFirst(s, before, 0, i);
    assert s == s[..i] + s[i..i + |before|] + s[i + |before|..];
  }

  /** `find($c, after)`: when `after` first occurs at `i`, the text before it is captured,
      and the capture followed by `after` is a prefix of the text. */
  lemma FindBeforeAnchor(s: string, after: string, c: Capture, i: nat)
    requires OccursAt(s, after, i) && forall j :: 0 <= j < i ==> !OccursAt(s, after, j)
    ensures FindCapture(s, [Cap(c), Lit(LStr(after))]) == Ok(Some((c, s[..i])))
    ensures s[..i] + after == s[..i + |after|]
  {
    IndexOfIsFirst(s, after, 0, i);
    assert s[..i + |after|] == s[..i] + s[i..i + |after|];
  }

  /** `find(before, $c, after)`: the capture starts right after the first `before` and ends at
      the first `after` found after it; it does not overlap `before` and holds no `after`. */
  lemma FindBetweenAnchors(s: string, before: string, after: string, c: Capture, i: nat, j: nat)
    requires OccursAt(s, before, i) && forall k :: 0 <= k < i ==> !OccursAt(s, before, k)
    requires i + |before| <= j && OccursAt(s, after, j)
    requires forall k :: i + |before| <= k < j ==> !OccursAt(s, after, k)
    ensures FindCapture(s, [Lit(LStr(before)), Cap(c), Lit(LStr(after))]) == Ok(Some((c, s[i + |before|..j])))
    ensures s[..i] + before + s[i + |before|..j] + s[j..] == s
    ensures |after| > 0 ==> !Contains(s[i + |before|..j], after)
  {
    IndexOfIsFirst(s, before, 0, i);
    IndexOfIsFirst(s, after, i + |before|, j);
    var args := [Lit(LStr(before)), Cap(c), Lit(LStr(after))];
    assert IsString(args[0]) && args[1].Cap? && IsString(args[2]);
    assert s == s[..i] + s[i..i + |before|] + s[i + |before|..j] + s[j..];
    if |after| > 0 {
      NoAnchorInside(s, after, i + |before|, j);
    }
  }

  lemma NoAnchorInside(s: string, t: string, lo: nat, hi: nat)
    requires lo <= hi <= |s| && |t| > 0
    requires forall k :: lo <= k < hi ==> !OccursAt(s, t, k)
    ensures !Contains(s[lo..hi], t)
  {
    var x := s[lo..hi];
    forall k: nat
      ensures !OccursAt(x, t, k)
    {
      if k + |t| <= |x| {
        var inX, inS := x[k..k + |t|], s[lo + k..lo + k + |t|];
        forall d | 0 <= d < |t| ensures inX[d] == inS[d] {
          assert x[k + d] == s[lo + k + d];
        }
        assert inX == inS;
        assert !OccursAt(s, t, lo + k);
      }
    }
  }

  /** A missing anchor, in any of the three forms, captures nothing and is not an error. */
  lemma FindMissingAnchor(s: string, args: seq<Arg>)
    requires FindShape(args)
    requires exists a :: a in args && IsString(a) && !Contains(s, a.literal.s)
    ensures FindCapture(s, args) == Ok(None)
  {
  }

  /** `find(before, $c, after)` where `before` occurs but `after` does not occur after its
      first occurrence (though it may occur earlier): nothing is captured. */
  lemma FindAfterAnchorMissing(s: string, before: string, after: string, c: Capture, i: nat)
    requires OccursAt(s, before, i) && forall k :: 0 <= k < i ==> !OccursAt(s, before, k)
    requires forall k :: i + |before| <= k ==> !OccursAt(s, after, k)
    ensures FindCapture(s, [Lit(LStr(before)), Cap(c), Lit(LStr(after))]) == Ok(None)
  {
    IndexOfIsFirst(s, before, 0, i);
    assert IndexOf(s, after, i + |before|).None?;
  }

  /** `args[0]` as the capture a procedure merges into. A missing or non-capture first
      argument makes the source read members of a non-capture: a TypeError. */
  function CaptureArg(args: seq<Arg>): Option<Capture> {
    if |args| > 0 && args[0].Cap? then Some(args[0].capture) else None
  }

  /** The literal `assign` writes: its second argument (undefined when absent). */
  function AssignedValue(args: seq<Arg>): Value {
    if |args| > 1 && args[1].Lit? then FromLiteral(args[1].literal) else Undefined
  }

  /** What running procedure `fn` on `node` with `args` does to the mapping `m`. */
  function Run(fn: ProcedureFn, filters: map<string, FilterFn>, modifiers: map<string, ModifierFn>, members: Members,
               dom: Dom, m: map<string, Value>, node: NodeId, args: seq<Arg>): (r: Result<map<string, Value>, Error>)
    ensures !fn.FindProcedure? && !fn.UserProcedure? && CaptureArg(args).None? ==> r == Err(TypeError)
    ensures fn.FindProcedure? && !FindShape(args) ==> r == Err(InvalidArguments)
    ensures fn.FindProcedure? && FindCapture(dom.text(node), args) == Ok(None) ==> r == Ok(m)
  {
    match fn
    case TextProcedure =>
      if CaptureArg(args).None? then Err(TypeError)
      else Merge(filters, modifiers, members, m, CaptureArg(args).value, Str(dom.text(node)), AddDefault)
    case HtmlProcedure =>
      if CaptureArg(args).None? then Err(TypeError)
      else Merge(filters, modifiers, members, m, CaptureArg(args).value, Str(dom.html(node)), AddDefault)
    case NodeProcedure =>
      if CaptureArg(args).None? then Err(TypeError)
      else Merge(filters, modifiers, members, m, CaptureArg(args).value, Document(node), AddDefault)
    case FindProcedure =>
      (match FindCapture(dom.text(node), args)
       case Err(e) => Err(e)
       case Ok(None) => Ok(m)
       case Ok(Some((c, x))) => Merge(filters, modifiers, members, m, c, Str(x), AddDefault))
    case AssignProcedure =>
      if CaptureArg(args).None? then Err(TypeError)
      else Merge(filters, modifiers, members, m, CaptureArg(args).value, AssignedValue(args), ForceAddDefault)
    case UserProcedure(body) => body(m, node, args)
  }

  /** Runs `fn` against the accumulator `r`. */
  method Invoke(fn: ProcedureFn, r: CaptureResult, dom: Dom, node: NodeId, args: seq<Arg>) returns (out: Outcome<Error>)
    modifies r
    ensures Reflects(out, old(r.result), r.result,
                     Run(fn, r.filterDict.entries, r.modifierDict.entries, r.members, dom, old(r.result), node, args))
  {
    match fn
    case TextProcedure => out := Text(r, dom, node, args);
    case HtmlProcedure => out := Html(r, dom, node, args);
    case NodeProcedure => out := Node(r, dom, node, args);
    case FindProcedure => out := Find(r, dom, node, args);
    case AssignProcedure => out := Assign(r, node, args);
    case UserProcedure(body) =>
      var next := body(r.result, node, args);
      if next.Err? {
        return Fail(next.error);
      }
      r.result := next.value;
      out := Pass;
  }

  /** `text`: merge the node's text via `add`. */
  method Text(r: CaptureResult, dom: Dom, node: NodeId, args: seq<Arg>) returns (out: Outcome<Error>)
    modifies r
    ensures Reflects(out, old(r.result), r.result,
                     Run(TextProcedure, r.filterDict.entries, r.modifierDict.entries, r.members, dom, old(r.result), node, args))
  {
    if CaptureArg(args).None? {
      return Fail(TypeError);
    }
    out := r.Add(args[0].capture, Str(dom.text(node)));
  }

  /** `html`: merge the node's inner markup via `add`. */
  method Html(r: CaptureResult, dom: Dom, node: NodeId, args: seq<Arg>) returns (out: Outcome<Error>)
    modifies r
    ensures Reflects(out, old(r.result), r.result,
                     Run(HtmlProcedure, r.filterDict.entries, r.modifierDict.entries, r.members, dom, old(r.result), node, args))
  {
    if CaptureArg(args).None? {
      return Fail(TypeError);
    }
    out := r.Add(args[0].capture, Str(dom.html(node)));
  }

  /** `node`: merge an opaque sub-document made from the node via `add`. */
  method Node(r: CaptureResult, dom: Dom, node: NodeId, args: seq<Arg>) returns (out: Outcome<Error>)
    modifies r
    ensures Reflects(out, old(r.result), r.result,
                     Run(NodeProcedure, r.filterDict.entries, r.modifierDict.entries, r.members, dom, old(r.result), node, args))
  {
    if CaptureArg(args).None? {
      return Fail(TypeError);
    }
    out := r.Add(args[0].capture, Document(node));
  }

  /** `find`: anchor-based substring capture from the node's text. */
  method Find(r: CaptureResult, dom: Dom, node: NodeId, args: seq<Arg>) returns (out: Outcome<Error>)
    modifies r
    ensures Reflects(out, old(r.result), r.result,
                     Run(FindProcedure, r.filterDict.entries, r.modifierDict.entries, r.members, dom, old(r.result), node, args))
  {
    var s := dom.text(node);
    var found := FindCapture(s, args);
    if found.Err? {
      return Fail(found.error);
    }
    if found.value.None? {
      return Pass;
    }
    var (capture, x) := found.value.value;
    out := r.Add(capture, Str(x));
  }

  /** `assign`: merge a literal via `forceAdd`, so that even null is written. */
  method Assign(r: CaptureResult, node: NodeId, args: seq<Arg>) returns (out: Outcome<Error>)
    modifies r
    ensures forall dom: Dom :: Reflects(out, old(r.result), r.result,
                     Run(AssignProcedure, r.filterDict.entries, r.modifierDict.entries, r.members, dom, old(r.result), node, args))
  {
    if CaptureArg(args).None? {
      return Fail(TypeError);
    }
    out := r.ForceAdd(args[0].capture, AssignedValue(args));
  }

  /** `text` and `html` merge through `add`, so an empty-object or null value never lands;
      `assign` merges through `forceAdd`, so a null literal is written. */
  lemma AssignWritesNull(filters: map<string, FilterFn>, members: Members, dom: Dom,
                         m: map<string, Value>, node: NodeId, c: Capture)
    requires c.modifier.None? && c.filterList == []
    ensures Run(AssignProcedure, filters, DefaultModifierDict, members, dom, m, node, [Cap(c), Lit(LNull)]) == Ok(m[c.name := Null])
    ensures Run(TextProcedure, filters, DefaultModifierDict, members, dom, m, node, [Cap(c)]) == Ok(m[c.name := Str(dom.text(node))])
    ensures Run(HtmlProcedure, filters, DefaultModifierDict, members, dom, m, node, [Cap(c)]) == Ok(m[c.name := Str(dom.html(node))])
  {
  }
}
