/** Values shared by the services and the controller: Java's nullable references,
    the exceptions the core throws or lets through, and a result that carries
    either a value or the exception a call ended with. */
module Base {

  /** A Java reference that may be null. */
  datatype Option<+T> = None | Some(value: T) {
    /** `x != null ? x : default` */
    function GetOr(default: T): T {
      match this
      case Some(v) => v
      case None => default
    }
  }

  /** The exception classes that the modelled code throws, or that reach it from
      the libraries it calls. Every one carries its `getMessage()` text. */
  datatype Exception =
    | IllegalArgument(message: Option<string>)   // java.lang.IllegalArgumentException
    | Security(message: Option<string>)          // java.lang.SecurityException
    | UsernameNotFound(message: Option<string>)  // Spring's UsernameNotFoundException (an AuthenticationException)
    | BadCredentials(message: Option<string>)    // any other AuthenticationException of the AuthenticationManager
    | NoSuchElement(message: Option<string>)     // Optional.orElseThrow() on an empty Optional
    | NullPointer(message: Option<string>)       // java.lang.NullPointerException
    | Runtime(message: Option<string>)           // any other unchecked exception of a foreign call (JWT parsing, ...)

  /** Spring's AuthenticationException hierarchy, as far as the model distinguishes it. */
  predicate IsAuthenticationException(e: Exception) {
    e.UsernameNotFound? || e.BadCredentials?
  }

  /** The outcome of a Java call: its return value, or the exception it threw. */
  datatype Result<+T> = Ok(value: T) | Err(error: Exception)
}
