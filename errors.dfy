/** The ways a client call fails. Each stands for an exception the client
  * lets propagate to its caller. */
module Errors {

  datatype Error =
    /** The command name is not in the command table (`"Unknown command " + command`). */
    | UnknownCommand(command: string)
    /** The signing key was refused: `SecretKeySpec` rejects an empty key. */
    | SigningError
    /** The server answered with a status other than 200; its body is kept verbatim. */
    | ServerError(status: int, body: string)
    /** The response body is not JSON text (`JSONParser.parse` throws). */
    | ParseError
    /** The parsed response does not have the expected shape: a cast of the
      * top-level value, of an element or of a field fails, or a `null` is dereferenced. */
    | DecodeError
}
