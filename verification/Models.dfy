/** The business side: model rows keyed by their integer primary key, and how a model is registered. */
module Models {
  import opened Wrappers
  import opened Documents

  /** A database row: its columns other than deleted_at, and deleted_at. */
  datatype Record = Record(columns: Doc, deletedAt: Option<int>) {
    predicate Live() { deletedAt.None? }
  }

  type Rows = map<int, Record>

  datatype SoftDeleteMode = SoftDeleteModeUpdate | SoftDeleteModeDelete

  /** A registered model. `getId` is the model's GetID on a row with the given primary key. */
  datatype ModelEntry = ModelEntry(
    tableName: string, indexName: string, batchSize: int, unsigned: bool,
    hasSoftDelete: bool, softDeleteMode: SoftDeleteMode, fullDocUpdate: bool, autoSync: bool,
    getId: int -> string)
  {
    /** fullSyncQuery lifts the default scope exactly in this case. */
    predicate Unscoped() {
      hasSoftDelete && softDeleteMode.SoftDeleteModeUpdate?
    }

    /** Whether the full-sync query returns this row. */
    predicate Scans(record: Record) {
      Unscoped() || !hasSoftDelete || record.Live()
    }

    ghost predicate IdsDistinct() {
      forall a: int, b: int :: getId(a) == getId(b) ==> a == b
    }
  }

  const DELETED_AT := "deleted_at"

  /** The row as JSON: deleted_at is a column like the others, null for a live row. */
  function Json(entry: ModelEntry, record: Record): Doc {
    if entry.hasSoftDelete then
      record.columns[DELETED_AT := if record.Live() then Null else Moment(record.deletedAt.value)]
    else
      record.columns
  }
}
