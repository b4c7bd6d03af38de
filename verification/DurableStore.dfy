/** The durable key-value store and the levels that guard it. */
module DurableStore {
  import opened Messages
  import opened Quorums

  /** The keys read back after a crash at level PersistCritical, and the rest. */
  datatype Key = ViewKey | LockedKey | CommittedKey | OtherKey(name: string)

  datatype Durable =
    | ViewValue(view: int)
    | BlockValue(block: QCBlock)
    | LedgerValue(ledger: Ledger)
    | OtherValue(raw: Bytes)

  type Cells = map<Key, Durable>

  function Written(configured: PersistLevel, cells: Cells, key: Key, value: Durable, level: PersistLevel): Cells {
    if Rank(configured) <= Rank(level) then cells[key := value] else cells
  }

  function Recovered(configured: PersistLevel, cells: Cells, key: Key): Option<Durable> {
    if configured == NoPersist || (configured == PersistCritical && key.OtherKey?) || key !in cells then None
    else Some(cells[key])
  }

  datatype Write = Write(key: Key, value: Durable, level: PersistLevel)

  function AllWritten(configured: PersistLevel, cells: Cells, ws: seq<Write>): Cells {
    if ws == [] then cells
    else Written(configured, AllWritten(configured, cells, ws[..|ws| - 1]), ws[|ws| - 1].key, ws[|ws| - 1].value,
        ws[|ws| - 1].level)
  }

  /** After any later writes under other keys, a value comes back as written
      exactly when the configured level stores it and reads its key back, or the
      store held it already. */
  lemma {:induction false} RecoversIff(configured: PersistLevel, cells: Cells, w: Write, later: seq<Write>)
    requires forall i :: 0 <= i < |later| ==> later[i].key != w.key
    ensures Recovered(configured, AllWritten(configured, Written(configured, cells, w.key, w.value, w.level), later),
        w.key) == Some(w.value)
            <==>
            || (configured == PersistAll)
            || (configured == PersistCritical && !w.key.OtherKey? && w.level != PersistAll)
            || (configured == PersistCritical && !w.key.OtherKey? && w.key in cells && cells[w.key] == w.value)
  {
    if later != [] {
      RecoversIff(configured, cells, w, later[..|later| - 1]);
    }
  }

  class Store {
    const configured: PersistLevel
    var cells: Cells

    constructor (level: PersistLevel)
      ensures configured == level && cells == map[]
    {
      configured := level;
      cells := map[];
    }

    method PersistValue(key: Key, value: Durable, level: PersistLevel)
      modifies this
      ensures cells == Written(configured, old(cells), key, value, level)
    {
      if Rank(configured) <= Rank(level) {
        cells := cells[key := value];
      }
    }

    method RecoverValue(key: Key) returns (r: Option<Durable>)
      ensures r == Recovered(configured, cells, key)
    {
      if configured == NoPersist {
        return None;
      }
      if configured == PersistCritical {
        match key
        case OtherKey(_) => return None;
        case _ =>
      }
      r := if key in cells then Some(cells[key]) else None;
    }
  }
}
