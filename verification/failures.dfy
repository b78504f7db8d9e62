/** Everything the mojo can throw, and the Java exception class each one surfaces as. */
module Failures {

  /** The cause of an `IOException` raised while connecting or reading a script. */
  datatype IoCause =
    | UnknownHost(host: string)                  // `ServerAddress` could not resolve a host
    | ReadFailed(path: string, message: string)  // opening, un-gzipping, decoding or reading a script

  datatype Failure =
      // configuration checks of `checkDbSettings`; `block` names the settings block
    | ServerNotFound(block: string, serverId: string)
    | ServerUsernameEmpty(block: string, serverId: string)
    | NoHostOrReplicaSet(block: string)
      // structural checks of the batch runner
    | NotADirectory(name: string)
    | NotAFile(name: string)
    | DirectoriesUndefined
      // a raw `IOException`, and the same cause once rewrapped by `executeForDirectories`
    | Io(cause: IoCause)
    | ScriptsFailed(cause: IoCause)
      // unchecked exceptions that nothing catches
    | PortNotNumeric(text: string)      // `Integer.parseInt` on a seed's port text
    | ServerEntryMissing(serverId: string)  // `getDatabase` dereferencing an absent server

  datatype ExceptionClass =
    | MojoFailureException
    | MojoExecutionException
    | IOException
    | NumberFormatException
    | NullPointerException

  function ClassOf(f: Failure): ExceptionClass {
    match f
    case ServerNotFound(_, _) => MojoFailureException
    case ServerUsernameEmpty(_, _) => MojoFailureException
    case NoHostOrReplicaSet(_) => MojoFailureException
    case NotADirectory(_) => MojoFailureException
    case NotAFile(_) => MojoFailureException
    case DirectoriesUndefined => MojoExecutionException
    case Io(_) => IOException
    case ScriptsFailed(_) => MojoExecutionException
    case PortNotNumeric(_) => NumberFormatException
    case ServerEntryMissing(_) => NullPointerException
  }
}
