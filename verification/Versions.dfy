/** The (epoch, version) pair that orders the states of one stream. */
module Versions {
  import opened Ints

  datatype Version = Version(epoch: uint64, version: uint64) {
    /** Lexicographically after `other`. */
    predicate Newer(other: Version) {
      if epoch != other.epoch then epoch > other.epoch else version > other.version
    }

    /** Never set. */
    predicate Zero() {
      epoch == 0 && version == 0
    }

    /** Names a published document; a half-zero pair does not. */
    predicate Committed() {
      epoch > 0 && version > 0
    }
  }

  const NO_VERSION := Version(0, 0)
}
