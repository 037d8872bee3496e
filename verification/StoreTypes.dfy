/** The values that cross the Store interface. */
module StoreTypes {

  /** Times are only carried along, never compared. */
  type Time = int

  type Overrides = map<string, string>

  datatype ChangeEvent = ChangeEvent(
    namespace: string, key: string, oldValue: string, newValue: string,
    changedBy: string, changedAt: Time)

  datatype SetEntry = SetEntry(namespace: string, key: string, value: string, changedBy: string)

  datatype AuditEntry = AuditEntry(
    id: nat, namespace: string, key: string, oldValue: string, newValue: string,
    changedBy: string, changedAt: Time)

  const DEFAULT_HISTORY_LIMIT: nat := 50

  datatype HistoryOptions = HistoryOptions(limit: int, offset: int) {
    /** The defaults every History implementation applies first. */
    function Normalised(): (r: HistoryOptions)
      ensures 0 < r.limit && 0 <= r.offset
      ensures if 0 < limit then r.limit == limit else r.limit == 50
      ensures if 0 <= offset then r.offset == offset else r.offset == 0
    {
      HistoryOptions(
        if limit <= 0 then DEFAULT_HISTORY_LIMIT else limit,
        if offset < 0 then 0 else offset)
    }
  }
}
