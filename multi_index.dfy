/** The two mutating operations of a multi-index table, on a table modelled as a map
    from primary key to row.  Lookups (`find`, `get`) are map membership and selection. */
module MultiIndex {
  import opened Wrappers
  import opened Keys

  /** `emplace`: adds the row under its primary key; aborts (None) when that primary
      key is already taken. */
  function Emplace<R>(table: map<U64, R>, id: U64, row: R): (r: Option<map<U64, R>>)
    ensures r.None? <==> id in table
    ensures r.Some? ==> r.value.Keys == table.Keys + {id} && r.value[id] == row
    ensures r.Some? ==> forall k :: k in table ==> r.value[k] == table[k]
    ensures r.Some? ==> |r.value| == |table| + 1
  {
    if id in table then None else Some(table[id := row])
  }

  /** `erase`: removes the row with that primary key and nothing else. */
  function Erase<R>(table: map<U64, R>, id: U64): (r: map<U64, R>)
    ensures r.Keys == table.Keys - {id}
    ensures forall k :: k in r ==> r[k] == table[k]
    ensures id in table ==> |r| == |table| - 1
  {
    table - {id}
  }

  /** `after` is `before` with one row added under the fresh key `id`. */
  ghost predicate Inserted<R>(before: map<U64, R>, after: map<U64, R>, id: U64)
  {
    && id !in before
    && after.Keys == before.Keys + {id}
    && forall k :: k in before ==> after[k] == before[k]
  }

  /** `after` is `before` without its row under `id`, and otherwise the same. */
  ghost predicate Removed<R>(before: map<U64, R>, after: map<U64, R>, id: U64)
  {
    && id in before
    && after.Keys == before.Keys - {id}
    && forall k :: k in after ==> after[k] == before[k]
  }

  /** Erasing a freshly emplaced row gives back the table as it was. */
  lemma EraseUndoesEmplace<R>(table: map<U64, R>, id: U64, row: R)
    requires id !in table
    ensures Emplace(table, id, row).Some? && Erase(Emplace(table, id, row).value, id) == table
  {
    assert Erase(Emplace(table, id, row).value, id).Keys == table.Keys;
  }

  /** Emplacing back an erased row gives back the table as it was. */
  lemma EmplaceUndoesErase<R>(table: map<U64, R>, id: U64)
    requires id in table
    ensures Emplace(Erase(table, id), id, table[id]) == Some(table)
  {
    var restored := Emplace(Erase(table, id), id, table[id]).value;
    assert restored.Keys == table.Keys;
    assert forall k :: k in table ==> restored[k] == table[k];
    assert restored == table;
  }
}
