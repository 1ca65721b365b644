/**
 Which IDs of an append-only list of records are deleted: latest write wins
 (src/query/liveness.rs).
 */
module Liveness {

  datatype Id = Id(text: string)

  // What a record does to the liveness of an ID.
  datatype Write = NodeWrite(id: Id, temporal: bool) | EdgeWrite(id: Id, temporal: bool) | TombstoneOf(deletedId: Id)

  predicate IsWriteOf(w: Write, id: Id) {
    !w.TombstoneOf? && w.id == id
  }

  // The tombstone is the most recent write of the ID.
  predicate TombstoneActive(writes: seq<Write>, id: Id) {
    exists i :: 0 <= i < |writes| && writes[i] == TombstoneOf(id)
      && forall j :: i < j < |writes| ==> !IsWriteOf(writes[j], id)
  }

  predicate HasTemporal(writes: seq<Write>, id: Id) {
    exists i :: 0 <= i < |writes| && IsWriteOf(writes[i], id) && writes[i].temporal
  }

  predicate Deleted(writes: seq<Write>, id: Id) {
    !HasTemporal(writes, id) && TombstoneActive(writes, id)
  }

  predicate IsLatestEdgeVersion(writes: seq<Write>, i: nat)
    requires i < |writes|
  {
    writes[i].EdgeWrite? && forall j :: i < j < |writes| ==> !(writes[j].EdgeWrite? && writes[j].id == writes[i].id)
  }
}
