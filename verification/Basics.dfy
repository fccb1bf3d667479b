/** Notions shared by the modules. */
module Basics {

  datatype Option<+T> = None | Some(value: T)

  type Bytes = seq<bv8>

  ghost predicate Sorted(ts: seq<int>) {
    forall i, j :: 0 <= i < j < |ts| ==> ts[i] <= ts[j]
  }

  /** A caller's key is scoped to another project; an admin's key has no project. */
  predicate ScopedElsewhere(keyProject: Option<string>, projectId: Option<string>) {
    keyProject.Some? && keyProject.value != "" && projectId != keyProject
  }
}
