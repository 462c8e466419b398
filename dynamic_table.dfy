/**
 * The generic table (frontend/src/components/Tables/DatabaseDynamicTable.tsx):
 * with no sort key the rows are shown as given, otherwise a sorted copy.
 * Two strings compare with `localeCompare`, the parameter `localeCompare`
 * (negative, zero or positive); other values with `<` and `>`. Rendering
 * is left out.
 */
module DynamicTable {
  import opened Wrappers
  import opened TableCells
  import Sorting

  /** The direction may be `null`. */
  datatype SortConfig = SortConfig(key: Option<string>, direction: Option<Direction>)

  /** The comparator passed to `sort`; `ascending` is `direction === 'ascending'`. */
  function Compare(ascending: bool, key: string, localeCompare: (string, string) -> int, a: Row, b: Row): int {
    var x := Field(a, key);
    var y := Field(b, key);
    if x.Str? && y.Str? then (if ascending then localeCompare(x.s, y.s) else localeCompare(y.s, x.s))
    else if Less(x, y) then (if ascending then -1 else 1)
    else if Less(y, x) then (if ascending then 1 else -1)
    else 0
  }

  function Comparator(ascending: bool, key: string, localeCompare: (string, string) -> int): (Row, Row) -> int {
    (a: Row, b: Row) => Compare(ascending, key, localeCompare, a, b)
  }

  /** `sortedData`: the rows themselves without a key, else the sorted copy. */
  function SortedData(data: seq<Row>, config: SortConfig, localeCompare: (string, string) -> int): seq<Row> {
    if config.key.None? || config.key.value == "" then data
    else Sorting.Sort(data, Comparator(config.direction == Some(Ascending), config.key.value, localeCompare))
  }

  /** The strings at `key`, one per row, for rows that all have a string there. */
  function Column(data: seq<Row>, key: string): (c: seq<string>)
    requires forall i :: 0 <= i < |data| ==> Field(data[i], key).Str?
    ensures |c| == |data| && forall i :: 0 <= i < |data| ==> c[i] == Field(data[i], key).s
  {
    seq(|data|, i requires 0 <= i < |data| => Field(data[i], key).s)
  }

  // ---------------------------------------------------------------------------
  // Properties
  // ---------------------------------------------------------------------------

  /**
   * The result is always a permutation of the rows, and the rows themselves
   * without a key; a `null` direction sorts as descending does.
   */
  lemma SortedDataShape(data: seq<Row>, config: SortConfig, localeCompare: (string, string) -> int)
    ensures multiset(SortedData(data, config, localeCompare)) == multiset(data)
    ensures |SortedData(data, config, localeCompare)| == |data|
    ensures config.key.None? ==> SortedData(data, config, localeCompare) == data
    ensures SortedData(data, config.(direction := None), localeCompare) ==
            SortedData(data, config.(direction := Some(Descending)), localeCompare)
  {
    if config.key.Some? && config.key.value != "" {
      Sorting.SortIsPermutation(data, Comparator(config.direction == Some(Ascending), config.key.value, localeCompare));
    }
  }

  /** `a` and `b` have numbers at `key`, in order when ascending and in reverse order otherwise. */
  predicate NumbersInOrder(a: Row, b: Row, key: string, ascending: bool) {
    Field(a, key).Number? && Field(b, key).Number? &&
    (if ascending then Field(a, key).n <= Field(b, key).n else Field(a, key).n >= Field(b, key).n)
  }

  predicate NumbersOrdered(rows: seq<Row>, key: string, ascending: bool) {
    forall i, j :: 0 <= i < j < |rows| ==> NumbersInOrder(rows[i], rows[j], key, ascending)
  }

  /** `a` and `b` have strings at `key` that `localeCompare` puts in order, reversed unless ascending. */
  predicate StringsInOrder(a: Row, b: Row, key: string, ascending: bool, localeCompare: (string, string) -> int) {
    Field(a, key).Str? && Field(b, key).Str? &&
    (if ascending then localeCompare(Field(a, key).s, Field(b, key).s) <= 0
     else localeCompare(Field(b, key).s, Field(a, key).s) <= 0)
  }

  predicate StringsOrdered(rows: seq<Row>, key: string, ascending: bool, localeCompare: (string, string) -> int) {
    forall i, j :: 0 <= i < j < |rows| ==> StringsInOrder(rows[i], rows[j], key, ascending, localeCompare)
  }

  /** On a column of numbers the comparator is consistent. */
  lemma NumberComparatorConsistent(data: seq<Row>, key: string, ascending: bool, localeCompare: (string, string) -> int)
    requires forall i :: 0 <= i < |data| ==> Field(data[i], key).Number?
    ensures Sorting.ConsistentOn(Comparator(ascending, key, localeCompare), data)
  {
    var cmp := Comparator(ascending, key, localeCompare);
    forall i, j | 0 <= i < |data| && 0 <= j < |data|
      ensures Sorting.NotAfter(cmp, data[i], data[j]) || Sorting.NotAfter(cmp, data[j], data[i])
    {
      assert Field(data[i], key).Number? && Field(data[j], key).Number?;
    }
    forall i, j, k | 0 <= i < |data| && 0 <= j < |data| && 0 <= k < |data| &&
                     Sorting.NotAfter(cmp, data[i], data[j]) && Sorting.NotAfter(cmp, data[j], data[k])
      ensures Sorting.NotAfter(cmp, data[i], data[k])
    {
      assert Field(data[i], key).Number? && Field(data[j], key).Number? && Field(data[k], key).Number?;
    }
  }

  /** A column of numbers comes out non-decreasing when ascending and non-increasing otherwise. */
  lemma NumbersSorted(data: seq<Row>, config: SortConfig, localeCompare: (string, string) -> int)
    requires config.key.Some? && config.key.value != ""
    requires forall i :: 0 <= i < |data| ==> Field(data[i], config.key.value).Number?
    ensures NumbersOrdered(SortedData(data, config, localeCompare), config.key.value, config.direction == Some(Ascending))
  {
    var key := config.key.value;
    var ascending := config.direction == Some(Ascending);
    var cmp := Comparator(ascending, key, localeCompare);
    NumberComparatorConsistent(data, key, ascending, localeCompare);
    Sorting.SortIsPermutation(data, cmp);
    var r := Sorting.Sort(data, cmp);
    PermutationKeepsKinds(data, r, key);
    SortedNumbersOrdered(r, key, ascending, localeCompare);
  }

  /** A permutation of rows with one kind of value at `key` has that kind there too. */
  lemma PermutationKeepsKinds(data: seq<Row>, r: seq<Row>, key: string)
    requires multiset(r) == multiset(data)
    ensures (forall i :: 0 <= i < |data| ==> Field(data[i], key).Number?) ==>
      forall i :: 0 <= i < |r| ==> Field(r[i], key).Number?
    ensures (forall i :: 0 <= i < |data| ==> Field(data[i], key).Str?) ==>
      forall i :: 0 <= i < |r| ==> Field(r[i], key).Str?
  {
    forall i | 0 <= i < |r| ensures exists j :: 0 <= j < |data| && data[j] == r[i] {
      assert r[i] in multiset(data);
    }
  }

  /** Rows with numbers at `key`, sorted by the comparator, are in numeric order. */
  lemma SortedNumbersOrdered(r: seq<Row>, key: string, ascending: bool, localeCompare: (string, string) -> int)
    requires forall i :: 0 <= i < |r| ==> Field(r[i], key).Number?
    requires Sorting.SortedBy(Comparator(ascending, key, localeCompare), r)
    ensures NumbersOrdered(r, key, ascending)
  {
    var cmp := Comparator(ascending, key, localeCompare);
    forall i, j | 0 <= i < j < |r| ensures NumbersInOrder(r[i], r[j], key, ascending) {
      assert Sorting.NotAfter(cmp, r[i], r[j]);
    }
  }

  /** Rows with strings at `key`, sorted by the comparator, are in `localeCompare` order. */
  lemma SortedStringsOrdered(r: seq<Row>, key: string, ascending: bool, localeCompare: (string, string) -> int)
    requires forall i :: 0 <= i < |r| ==> Field(r[i], key).Str?
    requires Sorting.SortedBy(Comparator(ascending, key, localeCompare), r)
    ensures StringsOrdered(r, key, ascending, localeCompare)
  {
    var cmp := Comparator(ascending, key, localeCompare);
    forall i, j | 0 <= i < j < |r| ensures StringsInOrder(r[i], r[j], key, ascending, localeCompare) {
      assert Sorting.NotAfter(cmp, r[i], r[j]);
    }
  }

  /** On a column of strings, a `localeCompare` consistent on its strings gives a comparator consistent on the rows. */
  lemma StringComparatorConsistent(data: seq<Row>, key: string, ascending: bool, localeCompare: (string, string) -> int)
    requires forall i :: 0 <= i < |data| ==> Field(data[i], key).Str?
    requires Sorting.ConsistentOn(localeCompare, Column(data, key))
    ensures Sorting.ConsistentOn(Comparator(ascending, key, localeCompare), data)
  {
    var column := Column(data, key);
    var cmp := Comparator(ascending, key, localeCompare);
    forall i, j | 0 <= i < |data| && 0 <= j < |data|
      ensures Sorting.NotAfter(cmp, data[i], data[j]) || Sorting.NotAfter(cmp, data[j], data[i])
    {
      assert Sorting.NotAfter(localeCompare, column[i], column[j]) || Sorting.NotAfter(localeCompare, column[j], column[i]);
    }
    forall i, j, k | 0 <= i < |data| && 0 <= j < |data| && 0 <= k < |data| &&
                     Sorting.NotAfter(cmp, data[i], data[j]) && Sorting.NotAfter(cmp, data[j], data[k])
      ensures Sorting.NotAfter(cmp, data[i], data[k])
    {
      if ascending {
        assert Sorting.NotAfter(localeCompare, column[i], column[j]) && Sorting.NotAfter(localeCompare, column[j], column[k]);
      } else {
        assert Sorting.NotAfter(localeCompare, column[k], column[j]) && Sorting.NotAfter(localeCompare, column[j], column[i]);
      }
    }
  }

  /**
   * A column of strings comes out in `localeCompare` order, reversed for a
   * direction other than ascending, when `localeCompare` is a consistent
   * comparison on the column's strings.
   */
  lemma StringsSorted(data: seq<Row>, config: SortConfig, localeCompare: (string, string) -> int)
    requires config.key.Some? && config.key.value != ""
    requires forall i :: 0 <= i < |data| ==> Field(data[i], config.key.value).Str?
    requires Sorting.ConsistentOn(localeCompare, Column(data, config.key.value))
    ensures StringsOrdered(SortedData(data, config, localeCompare), config.key.value, config.direction == Some(Ascending), localeCompare)
  {
    var key := config.key.value;
    var ascending := config.direction == Some(Ascending);
    var cmp := Comparator(ascending, key, localeCompare);
    StringComparatorConsistent(data, key, ascending, localeCompare);
    Sorting.SortIsPermutation(data, cmp);
    var r := Sorting.Sort(data, cmp);
    PermutationKeepsKinds(data, r, key);
    SortedStringsOrdered(r, key, ascending, localeCompare);
  }
}
