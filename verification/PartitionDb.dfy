/** The partition database of the Secure Partition Manager: one row per registered partition. */
module PartitionDb {
  import opened Words

  const INVALID_PARTITION_IDX: u32 := 0xFFFF_FFFF
  const INVALID_PARTITION_ID: u32 := 0xFFFF_FFFF
  const NON_SECURE_ID: u32 := 0
  const CORE_ID: u32 := 1
  const MAX_PARTITIONS: nat := 8

  datatype Level = Level1 | Level3

  datatype PartitionState = Uninit | Idle | Running | Suspended | Blocked | Closed

  datatype Share = Disable | NsCode | Scratch | Priv | Default

  datatype Row = Row(
    // static data
    id: u32, secure: bool, trusted: bool, init: u32,
    // memory data
    stackBottom: u32, stackTop: u32,
    // runtime data
    state: PartitionState, caller: u32,
    origPsp: u32, origPsplim: u32, origLr: u32,
    share: Share, stackPtr: u32)

  /** The index of the first row from `from` on that carries `id`. */
  function FirstWithId(rows: seq<Row>, id: u32, from: nat): (i: u32)
    requires from <= |rows| <= MAX_PARTITIONS
    ensures i != INVALID_PARTITION_IDX ==> i < |rows| && rows[i].id == id
    decreases |rows| - from
  {
    if from == |rows| then INVALID_PARTITION_IDX
    else if rows[from].id == id then from
    else FirstWithId(rows, id, from + 1)
  }

  lemma {:induction false} FirstWithIdExact(rows: seq<Row>, id: u32, from: nat)
    requires from <= |rows| <= MAX_PARTITIONS
    ensures var i := FirstWithId(rows, id, from);
            && (i != INVALID_PARTITION_IDX ==> from <= i && forall j :: from <= j < i ==> rows[j].id != id)
            && (i == INVALID_PARTITION_IDX <==> forall j :: from <= j < |rows| ==> rows[j].id != id)
    decreases |rows| - from
  {
    if from == |rows| {
    } else {
      FirstWithIdExact(rows, id, from + 1);
    }
  }

  function PartitionIdx(rows: seq<Row>, id: u32): (i: u32)
    requires |rows| <= MAX_PARTITIONS
    ensures i != INVALID_PARTITION_IDX ==> i < |rows| && rows[i].id == id
  {
    if id == INVALID_PARTITION_ID then INVALID_PARTITION_IDX else FirstWithId(rows, id, 0)
  }

  /** The look-up gives the first row with the ID, or the invalid index exactly when no row has it or the ID is
      the invalid one. */
  lemma PartitionIdxExact(rows: seq<Row>, id: u32)
    requires |rows| <= MAX_PARTITIONS
    ensures var i := PartitionIdx(rows, id);
            && (i != INVALID_PARTITION_IDX ==> i < |rows| && rows[i].id == id && forall j :: 0 <= j < i ==> rows[j].id != id)
            && (i == INVALID_PARTITION_IDX <==>
                id == INVALID_PARTITION_ID || forall j :: 0 <= j < |rows| ==> rows[j].id != id)
  {
    FirstWithIdExact(rows, id, 0);
  }

  /** The fields written once by the database set-up. */
  predicate SameStatic(a: Row, b: Row) {
    && a.id == b.id && a.secure == b.secure && a.trusted == b.trusted && a.init == b.init
    && a.stackBottom == b.stackBottom && a.stackTop == b.stackTop
  }

  lemma {:induction false} PartitionIdxByIds(a: seq<Row>, b: seq<Row>, id: u32, from: nat)
    requires |a| == |b| <= MAX_PARTITIONS && from <= |a|
    requires forall i :: 0 <= i < |a| ==> a[i].id == b[i].id
    ensures FirstWithId(a, id, from) == FirstWithId(b, id, from)
    decreases |a| - from
  {
    if from == |a| {
    } else {
      PartitionIdxByIds(a, b, id, from + 1);
    }
  }
}
