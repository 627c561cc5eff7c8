/** The selector-language syntax tree, as the external parser produces it. */
module Syntax {
  import opened Wrappers
  import opened Values

  /** A filter application `|name(args)`, or `||name(args)` for an array filter. */
  datatype Filter = Filter(name: string, args: seq<Literal>, isArrayFilter: bool)

  /** A merge modifier `!name(args)`. */
  datatype Modifier = Modifier(name: string, args: seq<Literal>)

  /** A capture `$name|filters!modifier`; without a name it targets `DefaultCaptureKey`. */
  datatype Capture = Capture(name: string, filterList: seq<Filter>, modifier: Option<Modifier>)

  /** A positional procedure argument: a literal or a capture. */
  datatype Arg = Lit(literal: Literal) | Cap(capture: Capture)

  /** A trailing extraction directive `name(args)`. */
  datatype Procedure = Procedure(name: string, args: seq<Arg>)

  /** The value side of an attribute qualifier `[attribute=value]`. */
  datatype AttributeValue = NoValue | Text(text: string) | CaptureOf(capture: Capture)

  /** A qualifier of a compound section. Only attribute qualifiers carry captures; the
      others matter only to the CSS string built from the section. */
  datatype Qualifier =
    | AttributeQualifier(attribute: string, operator: string, value: AttributeValue)
    | OtherQualifier(text: string)

  /** A compound CSS section with its combinator. */
  datatype Section = Section(combinator: string, element: string, qualifiers: seq<Qualifier>)

  datatype Selector =
    | NormalSelector(sections: seq<Section>, procedure: Option<Procedure>,
                     arrayCapture: Option<Capture>, children: seq<Selector>)
    | ParentRefSelector(section: Section, procedure: Option<Procedure>)
    | Assignment(capture: Capture, value: Literal)
    | SnippetDefine(name: string, selectors: seq<Selector>)
    | SnippetExpand(name: string)
    | FilterDefine(name: string, argsPart: string, code: string)
    | ModifierDefine(name: string, argsPart: string, code: string)
    | ProcedureDefine(name: string, argsPart: string, code: string)

  /** `last(sections)`: the section a normal selector's captures are read from. */
  function LastSection(sections: seq<Section>): (s: Option<Section>)
    ensures s.Some? <==> |sections| > 0
    ensures s.Some? ==> s.value == sections[|sections| - 1]
  {
    if |sections| == 0 then None else Some(sections[|sections| - 1])
  }
}
