/** Values shared by the installer's run logic: optional values and the way a run ends. */
module Outcomes {

  datatype Option<+T> = None | Some(value: T)

  /** What the installer hands to its exit handler: a numeric status or one of the symbolic codes. */
  datatype ExitCode = Status(code: int) | UnknownScenario | ScenarioError

  /** A step either lets the run continue with a value or ends it with an exit code. */
  datatype Outcome<+T> = Continue(value: T) | Exit(code: ExitCode)
}
