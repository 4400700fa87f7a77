/** The exceptions the core raises or lets through, each with the text that str(e) gives it. */
module Exceptions {

  datatype Error =
    | ValueError(message: string)
    | ValidationError(message: string)
    | UnboundLocalError(variable: string)
    | Raised(text: string)
  {
    /** Python's str(e). A Django ValidationError built from one message renders as the
        repr of a one-element list; the content gate's own message contains no quote
        character, so that repr puts it between single quotes. UnboundLocalError uses
        the wording of Python 3.11 and later. Raised stands for an exception from a
        collaborator that is known only through its text; an error a collaborator
        raises is meant to be Raised(text), with the text str(e) gives it. */
    function Str(): string {
      match this
      case ValueError(m) => m
      case ValidationError(m) => "['" + m + "']"
      case UnboundLocalError(v) => "cannot access local variable '" + v + "' where it is not associated with a value"
      case Raised(t) => t
    }
  }
}
