/** Process exit statuses of the registry resource (registry/src/main.rs:20-25). */
module Exits {

  /** Every way the process can terminate; `Code` gives the status number it exits with. */
  datatype ExitCode =
    | Success
    | InvalidParameter
    | InvalidInput
    | RegistryError
    | NotInDesiredState
    | JsonSerializationFailed
  {
    function Code(): int {
      match this
      case Success => 0
      case InvalidParameter => 1
      case InvalidInput => 2
      case RegistryError => 3
      case NotInDesiredState => 4
      case JsonSerializationFailed => 5
    }
  }

  /** Distinct outcomes exit with distinct numbers, all in 0..5. */
  lemma CodesAreDistinct(a: ExitCode, b: ExitCode)
    ensures 0 <= a.Code() <= 5
    ensures a.Code() == b.Code() <==> a == b
  {
  }
}
