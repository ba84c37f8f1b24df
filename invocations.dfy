/**
 * The parts of one command invocation that the pipeline reads: the sender
 * (a stable identifier and the permissions it holds) and the command's
 * name and raw arguments.
 */
module Invocations {

  /** A platform sender; `hasPermission` is membership in `permissions`. */
  datatype Sender = Sender(identifier: string, permissions: set<string>)
  {
    predicate HasPermission(permission: string) {
      permission in permissions
    }
  }

  datatype Invocation = Invocation(sender: Sender, name: string, arguments: seq<string>)
}
