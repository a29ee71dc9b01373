/**
 * What the checks report. The script prints each finding as one line
 * starting with `E: `; here the findings are collected in order instead.
 */
module Findings {
  import opened CMakeText

  datatype Finding =
    | RedundantInclude(moduleName: string, file: string)
    | MissingInclude(moduleName: string, file: string)
    | UnusedFindModule(file: string)
    | UnusedUtilityModule(file: string)

  /** The line printed for a finding. */
  function Message(f: Finding): (line: string)
    ensures |line| > 3 && line[..3] == "E: "
    ensures EndsWith(line, f.file)
  {
    match f
    case RedundantInclude(m, file) => "E: redundant include(" + m + ") in " + file
    case MissingInclude(m, file) => "E: missing include(" + m + ") in " + file
    case UnusedFindModule(file) => "E: unused find module " + file
    case UnusedUtilityModule(file) => "E: unused utility module " + file
  }

  /** The status a check returns: 1 as soon as it reported anything. */
  function StatusOf(findings: seq<Finding>): int {
    if findings == [] then 0 else 1
  }
}
