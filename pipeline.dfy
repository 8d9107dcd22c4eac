/**
 * One analysis run once the file has been read and parsed (core/src/rag.ts): extract the
 * descriptors of the tree, apply the rules, and wrap the sorted violations in a result
 * record.
 */
module Pipeline {
  import opened Wrappers
  import opened Model
  import opened Syntax
  import Parser
  import Engine

  /** The violations reported for a parsed file. */
  function ReportOf(root: Node): seq<Violation>
  {
    Engine.SortByLocation(Engine.RuleResults(Parser.CollectedFunctions(root)))
  }

  /** `parseFile` followed by `analyze`, and the result record built from them. */
  method AnalyzeTree(filePath: string, root: Node) returns (result: AnalysisResult)
    ensures result.schemaVersion == SCHEMA_VERSION && result.filePath == filePath
    ensures result.violations == ReportOf(root)
    ensures Engine.Sorted(result.violations)
    ensures |result.violations| <= |Parser.CollectedFunctions(root)|
  {
    var functions := Parser.ParseTree(root);
    var violations := Engine.Analyze(functions);
    Engine.RuleResultsCount(functions);
    result := MakeResult(filePath, violations);
  }
}
