/** The failures the interpreter raises. Each corresponds to a failed `invariant(...)` check
    of the source (its message text is not modelled), except `TypeError`, which stands for a
    JavaScript TypeError the source runs into without a guard of its own. */
module Errors {

  datatype Error =
    | InvalidModifier(modifier: string)
    | InvalidFilter(filter: string)
    | ArrayFilterAppliedToNonArrayValue(filter: string)
    | InvalidProcedure(procedure: string)
    | InvalidArguments
    | SnippetAlreadyDefined(snippet: string)
    | FilterAlreadyDefined(filter: string)
    | ModifierAlreadyDefined(modifier: string)
    | ProcedureAlreadyDefined(procedure: string)
    | SnippetNotDefined(snippet: string)
    | CircularSnippetExpansion(chain: seq<string>)
    | TypeError
}
