/** What a rule reports. */
module Violations {
  datatype Violation = Violation(ruleId: string, file: string, line: int, message: string)
}
