/**
 * The older users table (frontend/src/components/Tables/DatabaseUsersTableOld.tsx):
 * a click on a column header moves the sort configuration through
 * ascending, descending and unsorted; the rows shown are a sorted copy of
 * the fetched users, comparing strings lower-cased. Fetching and rendering
 * are left out.
 */
module UsersTableOld {
  import opened Wrappers
  import opened TableCells
  import Sorting
  import Text

  datatype SortConfig = SortConfig(key: Option<string>, direction: Direction)

  /** `{ key: null, direction: 'ascending' }`, the state before any click. */
  const Initial := SortConfig(None, Ascending)

  /** `requestSort(key)`: the configuration after a click on `key`. */
  function RequestSort(current: SortConfig, key: string): SortConfig {
    if current.key == Some(key) && current.direction == Descending then Initial
    else SortConfig(Some(key), if current.key == Some(key) && current.direction == Ascending then Descending else Ascending)
  }

  /** A string value lower-cased, any other value as it is. */
  function Lowered(c: Cell): Cell {
    if c.Str? then Str(Text.ToLower(c.s)) else c
  }

  /** The comparator passed to `sort`. */
  function Compare(direction: Direction, key: string, a: Row, b: Row): int {
    var x := Lowered(Field(a, key));
    var y := Lowered(Field(b, key));
    if Less(x, y) then (if direction == Ascending then -1 else 1)
    else if Less(y, x) then (if direction == Ascending then 1 else -1)
    else 0
  }

  function Comparator(direction: Direction, key: string): (Row, Row) -> int {
    (a: Row, b: Row) => Compare(direction, key, a, b)
  }

  /**
   * `sortedUsers`: the copy, sorted when the key is set and the first user
   * has that field; absent when the key is set and there are no users, as
   * `key in users[0]` then throws.
   */
  function SortedUsers(users: seq<Row>, config: SortConfig): Option<seq<Row>> {
    if config.key.None? || config.key.value == "" then Some(users)
    else if |users| == 0 then None
    else if config.key.value in users[0] then Some(Sorting.Sort(users, Comparator(config.direction, config.key.value)))
    else Some(users)
  }

  /** `a` may come before `b`: ascending, its lower-cased value is not greater; descending, not smaller. */
  predicate InOrder(a: Row, b: Row, key: string, direction: Direction) {
    if direction == Ascending then !Less(Lowered(Field(b, key)), Lowered(Field(a, key)))
    else !Less(Lowered(Field(a, key)), Lowered(Field(b, key)))
  }

  predicate Ordered(rows: seq<Row>, key: string, direction: Direction) {
    forall i, j :: 0 <= i < j < |rows| ==> InOrder(rows[i], rows[j], key, direction)
  }

  // ---------------------------------------------------------------------------
  // Properties
  // ---------------------------------------------------------------------------

  /**
   * A click on another column sorts it ascending, a click on the ascending
   * column makes it descending, and a click on the descending column
   * returns to unsorted; so three clicks on a new column give back the
   * initial state.
   */
  lemma RequestSortCycle(current: SortConfig, key: string)
    ensures current.key != Some(key) ==> RequestSort(current, key) == SortConfig(Some(key), Ascending)
    ensures current == SortConfig(Some(key), Ascending) ==> RequestSort(current, key) == SortConfig(Some(key), Descending)
    ensures current == SortConfig(Some(key), Descending) ==> RequestSort(current, key) == Initial
    ensures current.key != Some(key) ==> RequestSort(RequestSort(RequestSort(current, key), key), key) == Initial
  {
  }

  /** The comparator orders the rows consistently when every row has a value of one kind at the key. */
  lemma ComparatorConsistent(users: seq<Row>, direction: Direction, key: string)
    requires Uniform(users, key)
    ensures Sorting.ConsistentOn(Comparator(direction, key), users)
  {
    var cmp := Comparator(direction, key);
    forall i, j | 0 <= i < |users| && 0 <= j < |users|
      ensures Sorting.NotAfter(cmp, users[i], users[j]) || Sorting.NotAfter(cmp, users[j], users[i])
    {
      CellOrder(Lowered(Field(users[i], key)), Lowered(Field(users[j], key)), Lowered(Field(users[i], key)));
    }
    forall i, j, k | 0 <= i < |users| && 0 <= j < |users| && 0 <= k < |users| &&
                     Sorting.NotAfter(cmp, users[i], users[j]) && Sorting.NotAfter(cmp, users[j], users[k])
      ensures Sorting.NotAfter(cmp, users[i], users[k])
    {
      var a, b, c := Lowered(Field(users[i], key)), Lowered(Field(users[j], key)), Lowered(Field(users[k], key));
      CellOrder(a, b, c);
      CellOrder(b, a, c);
      CellOrder(c, a, b);
      CellOrder(a, c, b);
      CellOrder(b, c, a);
      CellOrder(c, b, a);
    }
  }

  /**
   * The rows shown are always a permutation of the users; unsorted they are
   * the users in their order. Sorted on a column of one kind, ascending
   * never puts a greater lower-cased value first, descending never a smaller.
   */
  lemma SortedUsersOrder(users: seq<Row>, config: SortConfig)
    ensures SortedUsers(users, config).Some? ==> multiset(SortedUsers(users, config).value) == multiset(users)
    ensures config.key.None? ==> SortedUsers(users, config) == Some(users)
    ensures config.key.Some? && config.key.value != "" && |users| == 0 ==> SortedUsers(users, config).None?
    ensures config.key.Some? && config.key.value != "" && |users| > 0 && config.key.value in users[0] &&
            Uniform(users, config.key.value) ==>
              Ordered(SortedUsers(users, config).value, config.key.value, config.direction)
  {
    if config.key.Some? && config.key.value != "" && |users| > 0 && config.key.value in users[0] {
      var key := config.key.value;
      var cmp := Comparator(config.direction, key);
      Sorting.SortIsPermutation(users, cmp);
      if Uniform(users, key) {
        ComparatorConsistent(users, config.direction, key);
        SortedRowsOrdered(Sorting.Sort(users, cmp), config.direction, key);
      }
    }
  }

  /** Rows sorted by the comparator are in order of their lower-cased values. */
  lemma SortedRowsOrdered(r: seq<Row>, direction: Direction, key: string)
    requires Sorting.SortedBy(Comparator(direction, key), r)
    ensures Ordered(r, key, direction)
  {
    var cmp := Comparator(direction, key);
    forall i, j | 0 <= i < j < |r|
      ensures InOrder(r[i], r[j], key, direction)
    {
      assert Sorting.NotAfter(cmp, r[i], r[j]);
      CellOrder(Lowered(Field(r[i], key)), Lowered(Field(r[j], key)), Lowered(Field(r[i], key)));
    }
  }
}
