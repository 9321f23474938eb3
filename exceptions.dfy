/** The Python exceptions the modelled code can raise. Each ends the
    computation that raised it; nothing in the model catches them. */
module Exceptions {

  datatype Failure =
    | KeyError(key: string)     // a required key is absent
    | TypeError(key: string)    // a `null` where a string is needed
    | ValueError(text: string)  // a timestamp `strptime` rejects
}
