/**
 * The values the front end's tables sort on. A row is a record from field
 * name to value; a value is a string, a number (whole numbers only) or
 * `undefined` for a field the row lacks. `<` is JavaScript's: strings
 * compare character by character, numbers numerically, and a string
 * against a number or `undefined` is neither less nor greater.
 */
module TableCells {
  import Text

  datatype Direction = Ascending | Descending

  datatype Cell = Str(s: string) | Number(n: int) | Undefined

  type Row = map<string, Cell>

  /** `row[key]`. */
  function Field(row: Row, key: string): Cell {
    if key in row then row[key] else Undefined
  }

  /** JavaScript's `a < b` on two cells. */
  predicate Less(a: Cell, b: Cell) {
    match (a, b)
    case (Str(x), Str(y)) => Text.LexLess(x, y)
    case (Number(x), Number(y)) => x < y
    case _ => false
  }

  /** Every row has a value of one kind at `key`: all strings, or all numbers. */
  predicate Uniform(rows: seq<Row>, key: string) {
    (forall i :: 0 <= i < |rows| ==> Field(rows[i], key).Str?) ||
    (forall i :: 0 <= i < |rows| ==> Field(rows[i], key).Number?)
  }

  /**
   * `<` is never true both ways round; between two values of one kind it is
   * a strict total order, so "not less" is transitive.
   */
  lemma CellOrder(a: Cell, b: Cell, c: Cell)
    ensures !(Less(a, b) && Less(b, a)) && !Less(a, a)
    ensures (a.Str? && b.Str?) || (a.Number? && b.Number?) ==> Less(a, b) || a == b || Less(b, a)
    ensures Less(a, b) && Less(b, c) ==> Less(a, c)
  {
    if a.Str? && b.Str? {
      Text.LexTrichotomy(a.s, b.s);
    }
    if a.Str? {
      Text.LexTrichotomy(a.s, a.s);
    }
    if Less(a, b) && Less(b, c) && a.Str? {
      Text.LexTransitive(a.s, b.s, c.s);
    }
  }
}
