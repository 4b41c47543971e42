// What several modules share: a few helpers, and the bits and marks of the stored words
// (data-structure/VersionBlock/VertexVersionBlock/VersionBlock.h and AllVBManager.h).
module Basics {

  datatype Option<T> = None | Some(value: T)

  const TMPVB_MASK: nat := 0x8000_0000                // every epoch stays below it
  const DELETION_MASK: nat := 0x8000_0000_0000_0000   // every destination stays below it
  const NONE: nat := 0xffff_ffff                      // MY_NO_TRANSACTION

  function Min(a: nat, b: nat): nat {
    if a < b then a else b
  }

  function Max(a: nat, b: nat): nat {
    if a < b then b else a
  }

  function Fill<T>(n: nat, x: T): seq<T> {
    seq(n, _ => x)
  }
}
