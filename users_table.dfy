/**
 * The newer users table (frontend/src/components/Tables/DatabaseUsersTable.tsx),
 * which shows its rows through `DynamicTable`: a click on a header sets
 * the key and toggles between ascending and descending. Fetching and
 * rendering are left out.
 */
module UsersTable {
  import opened Wrappers
  import opened TableCells
  import DynamicTable

  /** `{ key: null, direction: 'ascending' }`. */
  const Initial := DynamicTable.SortConfig(None, Some(Ascending))

  /** `handleSort(key)`: the configuration after a click on `key`. */
  function HandleSort(current: DynamicTable.SortConfig, key: string): DynamicTable.SortConfig {
    DynamicTable.SortConfig(Some(key),
      if current.key == Some(key) && current.direction == Some(Ascending) then Some(Descending) else Some(Ascending))
  }

  /**
   * After any click the key is the one clicked and the direction is set:
   * the ascending column turns descending, anything else sorts ascending,
   * so two clicks on one column come back to ascending and the key never
   * returns to `null`.
   */
  lemma HandleSortToggles(current: DynamicTable.SortConfig, key: string)
    ensures HandleSort(current, key).key == Some(key) && HandleSort(current, key).direction.Some?
    ensures HandleSort(current, key).direction == Some(Descending) <==>
      current.key == Some(key) && current.direction == Some(Ascending)
    ensures current.direction != Some(Ascending) || current.key != Some(key) ==>
      HandleSort(HandleSort(current, key), key) == DynamicTable.SortConfig(Some(key), Some(Descending))
    ensures current == DynamicTable.SortConfig(Some(key), Some(Ascending)) ==>
      HandleSort(HandleSort(current, key), key) == current
  {
  }
}
