/** Outcome types shared by the allocation registry: an optional value and
    the result of a registry call, which either succeeds or is rejected with
    one of the registry's error conditions. A rejected call changes nothing:
    the caller keeps the registry it had. */
module Results {

  /** The conditions under which the registry rejects a call. The contract's
      revert strings are not modelled, only which condition applies. */
  datatype Error =
    | AccessDenied          // the caller is not a data manager
    | SharesMustSumToTotal  // the eight shares do not add up to 10000
    | AllocationNotFound    // no allocation data with the given id
    | NoCoverageForTree     // no range entry starts at or before the tree id

  datatype Option<+T> = None | Some(value: T)

  datatype Result<+T> = Ok(value: T) | Err(error: Error)
}
