/** Shared result types of the discovery-and-reconciliation engine. */
module Outcomes {

  datatype Option<T> = None | Some(value: T)

  /** The ways a discovery or reconciliation run can fail. */
  datatype Error =
    | StoreUnavailable    // a `scan` call on the key-value store was rejected
    | NoQueueFound        // getBullQueues found no queue name (the "No queue found." error)
    | RegistryUndefined   // refresh read `queueList.map` while the registry was `undefined`

  datatype Result<T> = Ok(value: T) | Err(error: Error)
}
