/** Failure values of the path finder and the wrappers that carry them. */
module Outcomes {

  /** The failures the path finder reports; message texts are not modelled. */
  datatype Error =
    | DuplicateId(id: string)    // a node with this id is already in the graph
    | NodeNotFound(id: string)   // no node with this id in the graph
    | MissingEndpoint            // solve without a starting or an ending node
    | Unreachable                // the back-pointer chain breaks before the start
    | NotSolved                  // distance asked before a successful solve

  datatype Option<+T> = None | Some(value: T)

  datatype Result<+T> = Ok(value: T) | Err(error: Error)

  datatype Outcome = Pass | Fail(error: Error)
}
