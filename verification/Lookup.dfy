/** The index of shortened IDs that every store keeps beside its tables. */
module Lookup {

  /** Exactly one of the IDs starts with the prefix. */
  predicate UniquePrefix(ids: set<string>, prefix: string) {
    exists id :: id in ids && prefix <= id && forall other :: other in ids && prefix <= other ==> other == id
  }

  /** The key finds an ID that it is or shortens. */
  predicate Shortens(ids: set<string>, key: string) {
    key != "" && UniquePrefix(ids, key)
  }
}
