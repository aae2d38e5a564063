/** Columns as a guest sees them: one slot a row, a mask where something is null. */
module Table {
  import opened Prelude

  /** The bits an `f64` column carries at a null row: a quiet NaN. */
  const NULL_F64: int := 0x7ff8_0000_0000_0000

  /** One 8-byte slot a row: a double's bits, an integer, or a code into `uniques`. */
  datatype Column =
    | Doubles(values: seq<int>)
    | Ints(values: seq<int>)
    | Texts(values: seq<int>, uniques: seq<string>)

  /** One decoded column and, when it needs one, its validity mask. */
  datatype Decoded = Decoded(name: string, column: Column, valid: seq<int>)

  /** A column to write; `nulls` is empty when no row is null. */
  datatype Writable = Writable(name: string, column: Column, nulls: seq<int>)

  /** What one row of a column says. */
  datatype Cell = Null | Double(bits: int) | Int(value: int) | Str(text: string)

  function CellOf(c: Column, i: nat, isNull: bool): Cell
    requires i < |c.values| && (c.Texts? && !isNull ==> 0 <= c.values[i] < |c.uniques|)
  {
    if isNull then Null else
      match c
      case Doubles(values) => Double(values[i])
      case Ints(values) => Int(values[i])
      case Texts(values, uniques) => Str(uniques[values[i]])
  }

  /** A double's NaN is its null; every other column says it with the mask. */
  predicate IsNull(d: Decoded, i: nat)
    requires i < |d.column.values|
  {
    if d.column.Doubles? then d.column.values[i] == NULL_F64 else i < |d.valid| && d.valid[i] == 0
  }

  /** A decoded row, as the guest reads it. */
  function Shown(d: Decoded, i: nat): Cell
    requires i < |d.column.values|
    requires d.column.Texts? && !IsNull(d, i) ==> 0 <= d.column.values[i] < |d.column.uniques|
  {
    CellOf(d.column, i, IsNull(d, i))
  }

  predicate WrittenNull(w: Writable, i: nat) {
    i < |w.nulls| && w.nulls[i] == 1
  }

  /** Where a text first stands among the distinct texts. */
  function IndexOf<T(==)>(uniques: seq<T>, t: T): (r: nat)
    ensures t in uniques ==> r < |uniques| && uniques[r] == t && t !in uniques[..r]
    ensures t !in uniques ==> r == |uniques|
  {
    if uniques == [] || uniques[0] == t then 0 else
      assert uniques == [uniques[0]] + uniques[1..];
      var r := IndexOf(uniques[1..], t);
      assert r < |uniques[1..]| ==> uniques[..r + 1] == [uniques[0]] + uniques[1..][..r];
      r + 1
  }

  /** The texts once one more was seen: each distinct one once, in the order of their first rows. */
  function Pooled<T(==)>(uniques: seq<T>, t: T): seq<T> {
    if t in uniques then uniques else uniques + [t]
  }
}
