/** Columns out of row groups: a row range, nulls put back, texts interned; and columns written. */
module ParquetColumns {
  import opened Prelude
  import opened Table

  /** A value as a file's column stores it: a number's eight bytes, or text in UTF-8. */
  datatype Value = Word(word: int) | Chars(bytes: Bytes)

  type Rows = seq<Option<Value>>

  datatype Kind = DoubleKind | IntKind | TextKind

  predicate OfKind(v: Value, kind: Kind) {
    v.Chars? <==> kind == TextKind
  }

  ghost predicate Typed(rows: Rows, kind: Kind, nullable: bool) {
    && (forall i :: 0 <= i < |rows| && rows[i].Some? ==> OfKind(rows[i].value, kind))
    && (!nullable ==> forall i :: 0 <= i < |rows| ==> rows[i].Some?)
  }

  // ----- dense values and levels -----

  function Present<T>(row: Option<T>): seq<T> {
    if row.Some? then [row.value] else []
  }

  /** The values that are present. */
  function Dense<T>(rows: seq<Option<T>>): seq<T> {
    if rows == [] then [] else Present(rows[0]) + Dense(rows[1..])
  }

  /** One level a row: 1 where it has a value. */
  function Levels<T>(rows: seq<Option<T>>): seq<int> {
    seq(|rows|, i requires 0 <= i < |rows| => if rows[i].Some? then 1 else 0)
  }

  /** The rows that dense values and levels stand for. */
  function Expanded<T>(values: seq<T>, defs: seq<int>): (r: seq<Option<T>>)
    ensures |r| == |defs|
    decreases |defs|
  {
    if defs == [] then []
    else if defs[0] > 0 && values != [] then [Some(values[0])] + Expanded(values[1..], defs[1..])
    else [None] + Expanded(values, defs[1..])
  }

  /** Splitting rows into values and levels loses nothing. */
  lemma {:induction false} ExpandUndoes<T>(rows: seq<Option<T>>)
    ensures Expanded(Dense(rows), Levels(rows)) == rows
  {
    if rows != [] {
      assert Levels(rows)[1..] == Levels(rows[1..]);
      ExpandUndoes(rows[1..]);
      if rows[0].Some? {
        assert Dense(rows)[1..] == Dense(rows[1..]);
      } else {
        assert Dense(rows) == Dense(rows[1..]);
      }
      assert [rows[0]] + rows[1..] == rows;
    } else {
      assert Levels(rows) == [];
    }
  }

  lemma {:induction false} DenseAll<T>(rows: seq<Option<T>>)
    requires forall i :: 0 <= i < |rows| ==> rows[i].Some?
    ensures |Dense(rows)| == |rows| && forall i :: 0 <= i < |rows| ==> Dense(rows)[i] == rows[i].value
  {
    if rows != [] {
      DenseAll(rows[1..]);
    }
  }

  lemma {:induction false} DenseAppend<T>(a: seq<Option<T>>, b: seq<Option<T>>)
    ensures Dense(a + b) == Dense(a) + Dense(b)
  {
    if a == [] {
      assert a + b == b;
    } else {
      assert (a + b)[1..] == a[1..] + b && (a + b)[0] == a[0];
      DenseAppend(a[1..], b);
      hide Present;
      assert Dense(a + b) == Present(a[0]) + (Dense(a[1..]) + Dense(b));
    }
  }

  // ----- interning -----

  /** The distinct texts once more values were seen. */
  function Pool(keys: seq<Bytes>, values: seq<Value>): seq<Bytes> {
    if values == [] then keys else
      var before := Pool(keys, values[..|values| - 1]);
      var last := values[|values| - 1];
      if last.Chars? then Pooled(before, last.bytes) else before
  }

  /** What a row's slot holds for a value. */
  function Code(v: Value, keys: seq<Bytes>): int {
    match v
    case Word(w) => w
    case Chars(b) => IndexOf(keys, b)
  }

  lemma {:induction false} IndexAppend(keys: seq<Bytes>, more: seq<Bytes>, b: Bytes)
    requires b in keys
    ensures IndexOf(keys + more, b) == IndexOf(keys, b)
  {
    if keys[0] != b {
      assert keys == [keys[0]] + keys[1..];
      assert (keys + more)[1..] == keys[1..] + more;
      IndexAppend(keys[1..], more, b);
    }
  }

  /** The pool only grows, so a code once given stands. */
  lemma {:induction false} PoolGrows(keys: seq<Bytes>, values: seq<Value>)
    ensures keys <= Pool(keys, values)
    ensures forall i :: 0 <= i < |values| && values[i].Chars? ==> values[i].bytes in Pool(keys, values)
    ensures Distinct(keys) ==> Distinct(Pool(keys, values))
  {
    if values != [] {
      var front := values[..|values| - 1];
      PoolGrows(keys, front);
      assert forall i :: 0 <= i < |front| ==> values[i] == front[i];
      assert forall b | b in Pool(keys, front) :: b in Pool(keys, values);
    }
  }

  lemma {:induction false} PoolAppend(keys: seq<Bytes>, a: seq<Value>, b: seq<Value>)
    ensures Pool(keys, a + b) == Pool(Pool(keys, a), b)
  {
    if b == [] {
      assert a + b == a;
    } else {
      assert (a + b)[..|a + b| - 1] == a + b[..|b| - 1];
      PoolAppend(keys, a, b[..|b| - 1]);
    }
  }

  lemma PoolNone(keys: seq<Bytes>, values: seq<Value>)
    ensures Pool(keys, values[..0]) == keys
  {
  }

  /** One more value pooled: the codes of those before stand. */
  lemma PoolStep(keys: seq<Bytes>, values: seq<Value>, n: nat)
    requires n < |values|
    ensures var before := Pool(keys, values[..n]);
      Pool(keys, values[..n + 1]) == if values[n].Chars? then Pooled(before, values[n].bytes) else before
    ensures forall i :: 0 <= i < n ==> Code(values[i], Pool(keys, values[..n + 1])) == Code(values[i], Pool(keys, values[..n]))
  {
    assert values[..n + 1][..n] == values[..n];
    PoolGrows(keys, values[..n]);
    hide Code;
    forall i | 0 <= i < n
      ensures Code(values[i], Pool(keys, values[..n + 1])) == Code(values[i], Pool(keys, values[..n]))
    {
      assert values[..n][i] == values[i];
      CodeStands(Pool(keys, values[..n]), Pool(keys, values[..n + 1]), values[i]);
    }
  }

  lemma CodeIs(v: Value, keys: seq<Bytes>)
    ensures Code(v, keys) == if v.Word? then v.word else IndexOf(keys, v.bytes)
  {
  }

  lemma CodeStands(keys: seq<Bytes>, later: seq<Bytes>, v: Value)
    requires keys <= later && (v.Chars? ==> v.bytes in keys)
    ensures Code(v, later) == Code(v, keys)
  {
    if v.Chars? {
      assert later == keys + later[|keys|..];
      IndexAppend(keys, later[|keys|..], v.bytes);
    }
  }

  // ----- the reader of one column of one row group -----

  /** A reader answers some rows at a time; how many is its own affair, but never none while rows are left. */
  class ColumnReader {
    const rows: Rows
    const limit: nat -> nat
    var at: nat

    constructor (rows: Rows, limit: nat -> nat)
      ensures this.rows == rows && this.limit == limit && at == 0
    {
      this.rows, this.limit, at := rows, limit, 0;
    }

    method SkipRecords(n: nat)
      requires at + n <= |rows|
      modifies this
      ensures at == old(at) + n
    {
      at := at + n;
    }

    method ReadRecords(most: nat, nullable: bool) returns (records: nat, values: seq<Value>, defs: seq<int>)
      requires at <= |rows| && limit(at) > 0
      modifies this
      ensures records <= most && at == old(at) + records <= |rows|
      ensures records == 0 ==> most == 0 || old(at) == |rows|
      ensures values == Dense(rows[old(at)..at]) && defs == if nullable then Levels(rows[old(at)..at]) else []
    {
      records := if most < |rows| - at then most else |rows| - at;
      if limit(at) < records {
        records := limit(at);
      }
      values := Dense(rows[at..at + records]);
      defs := if nullable then Levels(rows[at..at + records]) else [];
      at := at + records;
    }
  }

  // ----- the accumulator -----

  function FillOf(kind: Kind): int {
    if kind == DoubleKind then NULL_F64 else 0
  }

  /** One slot a row, null rows holding the fill. */
  function Slots(rows: Rows, keys: seq<Bytes>, fill: int): (r: seq<int>)
    ensures |r| == |rows|
  {
    seq(|rows|, i requires 0 <= i < |rows| => if rows[i].Some? then Code(rows[i].value, keys) else fill)
  }

  function NullsOf(rows: Rows): (r: seq<int>)
    ensures |r| == |rows|
  {
    seq(|rows|, i requires 0 <= i < |rows| => if rows[i].Some? then 0 else 1)
  }

  function KeysOf(rows: Rows): seq<Bytes> {
    Pool([], Dense(rows))
  }

  class Accumulator {
    const kind: Kind
    const nullable: bool
    const lossy: Bytes -> string
    var values: seq<int>
    var nulls: seq<int>
    var uniques: seq<string>
    var index: map<Bytes, int>
    ghost var keys: seq<Bytes>

    constructor (kind: Kind, nullable: bool, lossy: Bytes -> string)
      ensures Valid() && Holds([]) && this.kind == kind && this.nullable == nullable && this.lossy == lossy
    {
      this.kind, this.nullable, this.lossy := kind, nullable, lossy;
      values, nulls, uniques, index, keys := [], [], [], map[], [];
    }

    /** The index and the uniques agree with the texts seen. */
    ghost predicate Valid()
      reads this
    {
      && Distinct(keys) && |uniques| == |keys|
      && (forall i :: 0 <= i < |keys| ==> uniques[i] == lossy(keys[i]))
      && (forall b :: b in index <==> b in keys)
      && forall b | b in index :: index[b] == IndexOf(keys, b)
    }

    /** Everything read so far is `rows`. */
    ghost predicate Holds(rows: Rows)
      reads this
    {
      && keys == KeysOf(rows) && values == Slots(rows, keys, FillOf(kind))
      && nulls == if nullable then NullsOf(rows) else []
    }

    method Intern(bytes: Bytes) returns (code: int)
      requires Valid()
      modifies this`uniques, this`index, this`keys
      ensures Valid() && keys == Pooled(old(keys), bytes) && code == IndexOf(keys, bytes)
    {
      if bytes in index {
        return index[bytes];
      }
      code := |uniques|;
      forall b | b in keys
        ensures IndexOf(keys + [bytes], b) == IndexOf(keys, b)
      {
        IndexAppend(keys, [bytes], b);
      }
      LastIndex(keys, bytes);
      uniques := uniques + [lossy(bytes)];
      index := index[bytes := code];
      keys := keys + [bytes];
    }

    method Codes(dense: seq<Value>) returns (codes: seq<int>)
      requires Valid()
      modifies this`uniques, this`index, this`keys
      ensures Valid() && keys == Pool(old(keys), dense)
      ensures |codes| == |dense| && forall i :: 0 <= i < |dense| ==> codes[i] == Code(dense[i], keys)
    {
      hide Pool, Code, Pooled, IndexOf, Accumulator.Valid;
      codes := [];
      PoolNone(old(keys), dense);
      for n := 0 to |dense|
        invariant Valid() && keys == Pool(old(keys), dense[..n])
        invariant |codes| == n && forall i :: 0 <= i < n ==> codes[i] == Code(dense[i], keys)
      {
        PoolStep(old(keys), dense, n);
        var code: int;
        match dense[n] {
          case Word(w) => code := w;
          case Chars(b) => code := Intern(b);
        }
        CodeIs(dense[n], keys);
        codes := codes + [code];
      }
      assert dense[..|dense|] == dense;
    }

    /** One slot a row out of dense values and levels. */
    method Expand(dense: seq<int>, defs: seq<int>, records: nat)
      requires nullable ==> |defs| == records
      requires !nullable ==> |dense| == records
      modifies this`values, this`nulls
      ensures !nullable ==> values == old(values) + dense && nulls == old(nulls)
      ensures nullable ==> values == old(values) + Unpacked(Expanded(dense, defs), FillOf(kind))
      ensures nullable ==> nulls == old(nulls) + Missing(Expanded(dense, defs))
    {
      if !nullable {
        ExpandAll(dense);
        return;
      }
      var next := 0;
      ghost var rows := Expanded(dense, defs);
      hide Expanded, Unpacked, Missing;
      ExpandStart(dense, defs, FillOf(kind));
      for i := 0 to |defs|
        invariant next <= |dense| && |rows| == |defs|
        invariant Expanded(dense[next..], defs[i..]) == rows[i..]
        invariant values == old(values) + Unpacked(rows[..i], FillOf(kind))
        invariant nulls == old(nulls) + Missing(rows[..i])
      {
        ExpandStep(dense, defs, next, i, rows);
        OneMore(rows, i, FillOf(kind));
        if defs[i] > 0 && next < |dense| {
          values := values + [dense[next]];
          next := next + 1;
          nulls := nulls + [0];
          continue;
        }
        values := values + [FillOf(kind)];
        nulls := nulls + [1];
      }
      assert rows[..|defs|] == rows;
    }

    /** Every row has a value. */
    method ExpandAll(dense: seq<int>)
      modifies this`values
      ensures values == old(values) + dense
    {
      for i := 0 to |dense|
        invariant values == old(values) + dense[..i]
      {
        values := values + [dense[i]];
      }
    }

    /** Take one batch the reader answered. */
    method Batch(dense: seq<Value>, defs: seq<int>, records: nat, ghost done: Rows, ghost rows: Rows)
      requires Valid() && Holds(done) && Typed(rows, kind, nullable)
      requires dense == Dense(rows) && records == |rows| && defs == if nullable then Levels(rows) else []
      modifies this
      ensures Valid() && Holds(done + rows)
    {
      hide Typed, Pool, Slots, NullsOf, Expanded, Code, Dense, Unpacked, Missing, KeysOf, IndexOf;
      ghost var was := keys;
      var codes := Codes(dense);
      if !nullable {
        PresentAll(rows, kind);
      }
      Expand(codes, defs, records);
      BatchHolds(done, rows, codes, was, kind, nullable);
    }

    /** Take `want` rows of a group, past its first `skip`. */
    method Consume(reader: ColumnReader, skip: nat, want: nat, ghost before: Rows)
      requires Valid() && Holds(before)
      requires reader.at == 0 && skip + want <= |reader.rows| && Typed(reader.rows, kind, nullable)
      requires forall p :: reader.limit(p) > 0
      modifies this, reader
      ensures Valid() && Holds(before + reader.rows[skip..skip + want])
    {
      hide Typed, Dense, Levels, Accumulator.Valid, Accumulator.Holds;
      if skip > 0 {
        reader.SkipRecords(skip);
      }
      var read := 0;
      assert before + reader.rows[skip..skip] == before;
      while read < want
        invariant read <= want && reader.at == skip + read
        invariant Valid() && Holds(before + reader.rows[skip..skip + read])
      {
        ghost var done := before + reader.rows[skip..skip + read];
        ghost var from := reader.at;
        var records, dense, defs := reader.ReadRecords(want - read, nullable);
        if records == 0 {
          break;
        }
        TypedPart(reader.rows, kind, nullable, from, reader.at);
        Batch(dense, defs, records, done, reader.rows[from..reader.at]);
        read := read + records;
        SlicesMeet(before, reader.rows, skip, from, reader.at);
      }
    }

    /** The column, and its mask where it needs one. */
    method Finish(name: string, ghost rows: Rows) returns (d: Decoded)
      requires Valid() && Holds(rows) && Typed(rows, kind, nullable)
      ensures d.name == name && |d.column.values| == |rows|
      ensures match kind case DoubleKind => d.column.Doubles? case IntKind => d.column.Ints? case TextKind => d.column.Texts?
      ensures forall i :: 0 <= i < |rows| ==> ShowsRow(d, i, rows[i], kind, lossy)
      ensures d.column.Texts? ==> Uniques(d.column.uniques, rows, lossy)
      ensures d.valid == [] <==> kind == DoubleKind || forall i :: 0 <= i < |rows| ==> rows[i].Some?
    {
      var column := match kind
        case DoubleKind => Doubles(values)
        case IntKind => Ints(values)
        case TextKind => Texts(values, uniques);
      var valid: seq<int> := [];
      MaskSays(nulls, rows, nullable, kind);
      if kind != DoubleKind && 1 in nulls {
        var mask := nulls;
        valid := seq(|mask|, i requires 0 <= i < |mask| => 1 - mask[i]);
      }
      d := Decoded(name, column, valid);
      forall i | 0 <= i < |rows|
        ensures ShowsRow(d, i, rows[i], kind, lossy)
      {
        assert IsNull(d, i) <==> if kind == DoubleKind then values[i] == NULL_F64 else rows[i].None?;
        if rows[i].Some? && rows[i].value.Chars? {
          RowPooled(rows, i);
        }
      }
    }
  }

  lemma SlicesMeet(before: Rows, rows: Rows, skip: nat, from: nat, to: nat)
    requires skip <= from <= to <= |rows|
    ensures before + rows[skip..from] + rows[from..to] == before + rows[skip..to]
  {
    assert rows[skip..from] + rows[from..to] == rows[skip..to];
  }

  /** What a batch adds to the slots and nulls of the rows before it makes those of all. */
  lemma BatchHolds(done: Rows, rows: Rows, codes: seq<int>, was: seq<Bytes>, kind: Kind, nullable: bool)
    requires was == KeysOf(done) && Typed(rows, kind, nullable)
    requires |codes| == |Dense(rows)|
    requires forall i :: 0 <= i < |codes| ==> codes[i] == Code(Dense(rows)[i], Pool(was, Dense(rows)))
    ensures var keys := Pool(was, Dense(rows));
      && keys == KeysOf(done + rows)
      && Slots(done + rows, keys, FillOf(kind)) == Slots(done, was, FillOf(kind))
         + (if nullable then Unpacked(Expanded(codes, Levels(rows)), FillOf(kind)) else codes)
      && (nullable ==> NullsOf(done + rows) == NullsOf(done) + Missing(Expanded(codes, Levels(rows))))
  {
    KeysAppend(done, rows);
    hide Pool, Dense, Expanded, Code, Slots, NullsOf, Unpacked, Missing, Levels, KeysOf;
    SlotsAppend(done, rows, was, FillOf(kind));
    NullsAppend(done, rows);
    if nullable {
      CodesExpand(rows, codes, KeysOf(done + rows), FillOf(kind));
    } else {
      CodesAll(rows, codes, KeysOf(done + rows), kind);
    }
  }

  /** What a row of the file says to the guest: a double's null NaN is a null, wherever it came from. */
  function RowCell(row: Option<Value>, kind: Kind, lossy: Bytes -> string): Cell {
    match row
    case None => Null
    case Some(Chars(b)) => Str(lossy(b))
    case Some(Word(w)) => if kind != DoubleKind then Int(w) else if w == NULL_F64 then Null else Double(w)
  }

  ghost predicate ShowsRow(d: Decoded, i: nat, row: Option<Value>, kind: Kind, lossy: Bytes -> string) {
    && i < |d.column.values|
    && (d.column.Texts? && !IsNull(d, i) ==> 0 <= d.column.values[i] < |d.column.uniques|)
    && Shown(d, i) == RowCell(row, kind, lossy)
    && (row.None? ==> d.column.values[i] == if kind == DoubleKind then NULL_F64 else 0)
  }

  /** Slot `i` shows the row that far past `start`. */
  ghost predicate ShowsRowFrom(d: Decoded, i: nat, all: Rows, start: nat, kind: Kind, lossy: Bytes -> string) {
    start + i < |all| && ShowsRow(d, i, all[start + i], kind, lossy)
  }

  /** Each text of the rows once, in the order of their first rows. */
  ghost predicate Uniques(uniques: seq<string>, rows: Rows, lossy: Bytes -> string) {
    && Distinct(KeysOf(rows)) && |uniques| == |KeysOf(rows)|
    && forall i :: 0 <= i < |uniques| ==> uniques[i] == lossy(KeysOf(rows)[i])
  }

  lemma MaskSays(nulls: seq<int>, rows: Rows, nullable: bool, kind: Kind)
    requires nulls == (if nullable then NullsOf(rows) else []) && Typed(rows, kind, nullable)
    ensures 1 in nulls <==> exists i :: 0 <= i < |rows| && rows[i].None?
  {
    if 1 in nulls {
      var i :| 0 <= i < |nulls| && nulls[i] == 1;
      assert rows[i].None?;
    }
    if exists i :: 0 <= i < |rows| && rows[i].None? {
      var i :| 0 <= i < |rows| && rows[i].None?;
      assert nulls[i] == 1;
    }
  }

  lemma {:induction false} InDense<T>(rows: seq<Option<T>>, i: nat)
    requires i < |rows| && rows[i].Some?
    ensures rows[i].value in Dense(rows)
  {
    if i > 0 {
      InDense(rows[1..], i - 1);
    } else {
      assert Dense(rows)[0] == rows[0].value;
    }
  }

  lemma RowPooled(rows: Rows, i: nat)
    requires i < |rows| && rows[i].Some? && rows[i].value.Chars?
    ensures rows[i].value.bytes in KeysOf(rows)
  {
    InDense(rows, i);
    PoolGrows([], Dense(rows));
  }

  lemma TypedPart(rows: Rows, kind: Kind, nullable: bool, from: nat, to: nat)
    requires from <= to <= |rows| && Typed(rows, kind, nullable)
    ensures Typed(rows[from..to], kind, nullable)
  {
  }

  lemma PresentAll(rows: Rows, kind: Kind)
    requires Typed(rows, kind, false)
    ensures |Dense(rows)| == |rows| && forall i :: 0 <= i < |rows| ==> rows[i].Some? && Dense(rows)[i] == rows[i].value
  {
    DenseAll(rows);
  }

  lemma KeysAppend(a: Rows, b: Rows)
    ensures KeysOf(a + b) == Pool(KeysOf(a), Dense(b)) && KeysOf(a) <= KeysOf(a + b)
  {
    DenseAppend(a, b);
    PoolAppend([], Dense(a), Dense(b));
    PoolGrows(KeysOf(a), Dense(b));
  }

  lemma SlotsAppend(a: Rows, b: Rows, was: seq<Bytes>, fill: int)
    requires was == KeysOf(a)
    ensures var keys := KeysOf(a + b);
      Slots(a + b, keys, fill) == Slots(a, was, fill) + Slots(b, keys, fill)
  {
    KeysAppend(a, b);
    forall i | 0 <= i < |a| && a[i].Some?
      ensures Code(a[i].value, KeysOf(a + b)) == Code(a[i].value, was)
    {
      if a[i].value.Chars? {
        RowPooled(a, i);
      }
      CodeStands(was, KeysOf(a + b), a[i].value);
    }
  }

  lemma NullsAppend(a: Rows, b: Rows)
    ensures NullsOf(a + b) == NullsOf(a) + NullsOf(b)
  {
  }

  /** Expanding the codes of a batch's values gives its rows' slots. */
  lemma {:induction false} CodesExpand(rows: Rows, codes: seq<int>, keys: seq<Bytes>, fill: int)
    requires |codes| == |Dense(rows)| && forall i :: 0 <= i < |codes| ==> codes[i] == Code(Dense(rows)[i], keys)
    ensures Unpacked(Expanded(codes, Levels(rows)), fill) == Slots(rows, keys, fill)
    ensures Missing(Expanded(codes, Levels(rows))) == NullsOf(rows)
  {
    var out := Expanded(codes, Levels(rows));
    if rows != [] {
      assert Levels(rows)[1..] == Levels(rows[1..]);
      var dense := Dense(rows);
      if rows[0].Some? {
        assert dense[1..] == Dense(rows[1..]) && dense[0] == rows[0].value;
        CodesExpand(rows[1..], codes[1..], keys, fill);
      } else {
        assert dense == Dense(rows[1..]);
        CodesExpand(rows[1..], codes, keys, fill);
      }
      ConsSlots(rows, out, keys, fill);
    }
  }

  lemma ConsSlots(rows: Rows, out: seq<Option<int>>, keys: seq<Bytes>, fill: int)
    requires rows != [] && |out| == |rows|
    requires Unpacked(out[1..], fill) == Slots(rows[1..], keys, fill) && Missing(out[1..]) == NullsOf(rows[1..])
    requires out[0] == if rows[0].Some? then Some(Code(rows[0].value, keys)) else None
    ensures Unpacked(out, fill) == Slots(rows, keys, fill) && Missing(out) == NullsOf(rows)
  {
    assert Unpacked(out, fill) == Unpacked([out[0]], fill) + Unpacked(out[1..], fill);
    assert Slots(rows, keys, fill) == Slots([rows[0]], keys, fill) + Slots(rows[1..], keys, fill);
    assert Missing(out) == Missing([out[0]]) + Missing(out[1..]);
    assert NullsOf(rows) == NullsOf([rows[0]]) + NullsOf(rows[1..]);
  }

  lemma CodesAll(rows: Rows, codes: seq<int>, keys: seq<Bytes>, kind: Kind)
    requires Typed(rows, kind, false)
    requires |codes| == |Dense(rows)| && forall i :: 0 <= i < |codes| ==> codes[i] == Code(Dense(rows)[i], keys)
    ensures codes == Slots(rows, keys, FillOf(kind))
  {
    DenseAll(rows);
  }

  lemma ExpandStart(dense: seq<int>, defs: seq<int>, fill: int)
    ensures var rows := Expanded(dense, defs);
      && Expanded(dense[0..], defs[0..]) == rows[0..] && Unpacked(rows[..0], fill) == [] && Missing(rows[..0]) == []
  {
    assert dense[0..] == dense && defs[0..] == defs;
  }

  /** One level read: a value if one is left, else a null. */
  lemma ExpandStep(dense: seq<int>, defs: seq<int>, next: nat, i: nat, rows: seq<Option<int>>)
    requires next <= |dense| && i < |defs| && |rows| == |defs| && Expanded(dense[next..], defs[i..]) == rows[i..]
    ensures if defs[i] > 0 && next < |dense|
            then rows[i] == Some(dense[next]) && Expanded(dense[next + 1..], defs[i + 1..]) == rows[i + 1..]
            else rows[i] == None && Expanded(dense[next..], defs[i + 1..]) == rows[i + 1..]
  {
    assert rows[i..][0] == rows[i] && rows[i..][1..] == rows[i + 1..];
    assert defs[i..][1..] == defs[i + 1..];
    if next < |dense| {
      assert dense[next..][1..] == dense[next + 1..];
    }
  }

  lemma LastIndex(keys: seq<Bytes>, b: Bytes)
    requires b !in keys
    ensures IndexOf(keys + [b], b) == |keys|
  {
    assert (keys + [b])[|keys|] == b;
  }

  function Unpacked(rows: seq<Option<int>>, fill: int): (r: seq<int>)
    ensures |r| == |rows|
  {
    seq(|rows|, i requires 0 <= i < |rows| => if rows[i].Some? then rows[i].value else fill)
  }

  function Missing<T>(rows: seq<Option<T>>): (r: seq<int>)
    ensures |r| == |rows|
  {
    seq(|rows|, i requires 0 <= i < |rows| => if rows[i].Some? then 0 else 1)
  }

  lemma OneMore(rows: seq<Option<int>>, i: nat, fill: int)
    requires i < |rows|
    ensures Unpacked(rows[..i + 1], fill) == Unpacked(rows[..i], fill) + [if rows[i].Some? then rows[i].value else fill]
    ensures Missing(rows[..i + 1]) == Missing(rows[..i]) + [if rows[i].Some? then 0 else 1]
  {
  }

  // ----- the walk over row groups -----

  /** The rows a range names: it is cut to the rows there are. */
  function Wanted(all: Rows, start: nat, len: Option<nat>): Rows {
    var from := if start < |all| then start else |all|;
    all[from..from + Take(|all|, from, len)]
  }

  function Take(total: nat, from: nat, len: Option<nat>): (n: nat)
    requires from <= total
    ensures n <= total - from
  {
    if len.Some? && len.value < total - from then len.value else total - from
  }

  /** Where a group's rows start among all rows. */
  function GroupStart(groups: seq<Rows>, g: nat): nat
    requires g <= |groups|
  {
    |Concat(groups[..g])|
  }

  /** The groups the walk opens: those that end past the range's start and start before its end. */
  ghost predicate Opens(groups: seq<Rows>, g: nat, from: nat, to: nat) {
    g < |groups| && GroupStart(groups, g + 1) > from && GroupStart(groups, g) < to
  }

  lemma GroupSpan(groups: seq<Rows>, g: nat)
    requires g < |groups|
    ensures GroupStart(groups, g + 1) == GroupStart(groups, g) + |groups[g]| <= |Concat(groups)|
    ensures Concat(groups)[GroupStart(groups, g)..GroupStart(groups, g + 1)] == groups[g]
  {
    ConcatAppend(groups[..g], [groups[g]]);
    assert groups[..g + 1] == groups[..g] + [groups[g]];
    assert Concat([groups[g]]) == groups[g] + Concat([groups[g]][1..]);
    ConcatAppend(groups[..g + 1], groups[g + 1..]);
    assert groups == groups[..g + 1] + groups[g + 1..];
  }

  /** One row group of the walk: nothing, unless the range touches it. */
  method WalkGroup(acc: Accumulator, group: Rows, limit: nat -> nat, from: nat, take: nat, row: nat, ghost all: Rows)
      returns (taken: bool)
    requires row + |group| <= |all| && all[row..row + |group|] == group && from + take <= |all|
    requires acc.Valid() && acc.Holds(all[from..Reached(from, take, row)])
    requires Typed(group, acc.kind, acc.nullable) && forall p :: limit(p) > 0
    modifies acc
    ensures acc.Valid() && acc.Holds(all[from..Reached(from, take, row + |group|)])
    ensures taken <==> row + |group| > from && row < from + take
  {
    hide Typed, Accumulator.Valid, Accumulator.Holds;
    var end := row + |group|;
    if end <= from || row >= from + take {
      NoneHere(from, take, row, end);
      return false;
    }
    var skip := if from > row then from - row else 0;
    var want := (if from + take < end then from + take else end) - (if row < from then from else row);
    PartHere(all, group, from, take, row);
    var reader := new ColumnReader(group, limit);
    acc.Consume(reader, skip, want, all[from..Reached(from, take, row)]);
    return true;
  }

  method ReadRange(groups: seq<Rows>, start: nat, len: Option<nat>, kind: Kind, nullable: bool,
      lossy: Bytes -> string, limits: nat -> nat -> nat, name: string)
      returns (take: nat, d: Decoded, touched: seq<nat>)
    requires forall g :: 0 <= g < |groups| ==> Typed(groups[g], kind, nullable)
    requires forall g, p :: limits(g)(p) > 0
    ensures start >= |Concat(groups)| ==> take == 0
    ensures forall n :: start + n <= |Concat(groups)| && len == Some(n) ==> take == n
    ensures start <= |Concat(groups)| && (len.None? || start + len.value >= |Concat(groups)|) ==> take == |Concat(groups)| - start
    ensures d.name == name && |d.column.values| == take == |Wanted(Concat(groups), start, len)|
    ensures match kind case DoubleKind => d.column.Doubles? case IntKind => d.column.Ints? case TextKind => d.column.Texts?
    ensures forall i :: 0 <= i < take ==> ShowsRowFrom(d, i, Concat(groups), start, kind, lossy)
    ensures d.column.Texts? ==> Uniques(d.column.uniques, Wanted(Concat(groups), start, len), lossy)
    ensures var from := if start < |Concat(groups)| then start else |Concat(groups)|;
      forall g: nat :: g in touched <==> Opens(groups, g, from, from + take)
  {
    hide Typed, Uniques, ShowsRow, Concat, Accumulator.Valid, Accumulator.Holds;
    ghost var all := Concat(groups);
    var total := TotalRows(groups);
    var from := if start < total then start else total;
    take := Take(total, from, len);
    var acc := new Accumulator(kind, nullable, lossy);
    touched := [];
    var row := 0;
    NoGroups(groups);
    assert all[from..Reached(from, take, row)] == [];
    for g := 0 to |groups|
      invariant row == GroupStart(groups, g) <= total
      invariant fresh(acc) && acc.Valid() && acc.Holds(all[from..Reached(from, take, row)])
      invariant forall k: nat :: k in touched <==> k < g && Opens(groups, k, from, from + take)
    {
      GroupSpan(groups, g);
      var taken := WalkGroup(acc, groups[g], limits(g), from, take, row, all);
      if taken {
        touched := touched + [g];
      }
      row := row + |groups[g]|;
    }
    assert groups[..|groups|] == groups;
    AllTyped(groups, kind, nullable);
    RangeTyped(all, kind, nullable, from, from + take);
    d := acc.Finish(name, all[from..from + take]);
    forall i | 0 <= i < take
      ensures ShowsRowFrom(d, i, all, start, kind, lossy)
    {
      assert all[from..from + take][i] == all[start + i];
    }
  }

  method TotalRows(groups: seq<Rows>) returns (total: nat)
    ensures total == |Concat(groups)|
  {
    total := 0;
    for g := 0 to |groups|
      invariant total == GroupStart(groups, g)
    {
      GroupSpan(groups, g);
      total := total + |groups[g]|;
    }
    assert groups[..|groups|] == groups;
  }

  /** How far into the range the rows before `row` reach. */
  function Reached(from: nat, take: nat, row: nat): (n: nat)
    ensures from <= n <= from + take
  {
    if row <= from then from else if row >= from + take then from + take else row
  }

  lemma NoneHere(from: nat, take: nat, row: nat, end: nat)
    requires row <= end && (end <= from || row >= from + take)
    ensures Reached(from, take, end) == Reached(from, take, row)
  {
  }

  lemma SliceOfSlice(all: Rows, from: nat, to: nat, skip: nat, want: nat)
    requires from <= to <= |all| && skip + want <= to - from
    ensures all[from..to][skip..skip + want] == all[from + skip..from + skip + want]
  {
    var a, b := all[from..to][skip..skip + want], all[from + skip..from + skip + want];
    assert forall k :: 0 <= k < want ==> a[k] == all[from + skip + k] && b[k] == all[from + skip + k];
  }

  lemma NoGroups(groups: seq<Rows>)
    ensures GroupStart(groups, 0) == 0
  {
  }

  /** What the walk takes of a group is the next part of the range. */
  lemma PartHere(all: Rows, group: Rows, from: nat, take: nat, row: nat)
    requires row + |group| <= |all| && all[row..row + |group|] == group && from + take <= |all|
    requires row + |group| > from && row < from + take
    ensures var skip := if from > row then from - row else 0;
      var end := row + |group|;
      var want := (if from + take < end then from + take else end) - (if row < from then from else row);
      && want >= 0 && skip + want <= |group|
      && all[from..Reached(from, take, row)] + group[skip..skip + want] == all[from..Reached(from, take, end)]
  {
    var skip := if from > row then from - row else 0;
    var end := row + |group|;
    var want := (if from + take < end then from + take else end) - (if row < from then from else row);
    PartNumbers(|group|, from, take, row);
    hide Reached;
    PartJoins(all, group, from, row, skip, want);
  }

  lemma PartJoins(all: Rows, group: Rows, from: nat, row: nat, skip: nat, want: nat)
    requires row + |group| <= |all| && all[row..row + |group|] == group && skip + want <= |group| && from <= row + skip
    ensures all[from..row + skip] + group[skip..skip + want] == all[from..row + skip + want]
  {
    SliceOfSlice(all, row, row + |group|, skip, want);
    SlicesJoin(all, from, row + skip, row + skip + want);
  }

  lemma SlicesJoin(all: Rows, a: nat, b: nat, c: nat)
    requires a <= b <= c <= |all|
    ensures all[a..b] + all[b..c] == all[a..c]
  {
  }

  lemma PartNumbers(n: nat, from: nat, take: nat, row: nat)
    requires row + n > from && row < from + take
    ensures var skip := if from > row then from - row else 0;
      var want := (if from + take < row + n then from + take else row + n) - (if row < from then from else row);
      && want >= 0 && skip + want <= n
      && Reached(from, take, row) == row + skip && Reached(from, take, row + n) == row + skip + want
  {
  }

  lemma {:induction false} AllTyped(groups: seq<Rows>, kind: Kind, nullable: bool)
    requires forall g :: 0 <= g < |groups| ==> Typed(groups[g], kind, nullable)
    ensures Typed(Concat(groups), kind, nullable)
  {
    if groups != [] {
      AllTyped(groups[1..], kind, nullable);
    }
  }

  lemma RangeTyped(all: Rows, kind: Kind, nullable: bool, from: nat, to: nat)
    requires from <= to <= |all| && Typed(all, kind, nullable)
    ensures Typed(all[from..to], kind, nullable)
  {
  }

  ghost predicate HoldsRow(groups: seq<Rows>, g: nat, r: nat)
    requires g < |groups|
  {
    GroupStart(groups, g) <= r < GroupStart(groups, g + 1)
  }

  /**
   Of the groups with rows, exactly those are opened that hold a wanted row; or, where
   none is wanted, the one the range starts inside. A group of no rows is opened when
   it lies between two wanted rows.
   */
  lemma OpenedExactly(groups: seq<Rows>, g: nat, from: nat, take: nat)
    requires g < |groups| && from + take <= |Concat(groups)|
    ensures Opens(groups, g, from, from + take) <==>
      if groups[g] == [] then from < GroupStart(groups, g) < from + take
      else if take > 0 then exists r :: from <= r < from + take && HoldsRow(groups, g, r)
      else HoldsRow(groups, g, from) && GroupStart(groups, g) < from
  {
    GroupSpan(groups, g);
    hide GroupStart;
    var r := if from < GroupStart(groups, g) then GroupStart(groups, g) else from;
    if groups[g] != [] && take > 0 && Opens(groups, g, from, from + take) {
      assert HoldsRow(groups, g, r);
    }
  }

  /** A range of no rows can open a group: the one it starts inside. */
  lemma NoRowsOpenAGroup()
    ensures |Concat<Option<Value>>([[None, None]])| == 2 && Opens([[None, None]], 0, 1, 1)
  {
    var groups: seq<Rows> := [[None, None]];
    assert groups[1..] == [];
    OpenedExactly(groups, 0, 1, 0);
    assert GroupStart(groups, 0) == 0 && GroupStart(groups, 1) == 2;
  }

  // ----- writing a column -----

  /** A written row's value, if its code names a text. */
  function ValueAt(w: Writable, i: nat, encode: string -> Bytes): Option<Value>
    requires i < |w.column.values|
  {
    match w.column
    case Doubles(values) => Some(Word(values[i]))
    case Ints(values) => Some(Word(values[i]))
    case Texts(codes, uniques) => if 0 <= codes[i] < |uniques| then Some(Chars(encode(uniques[codes[i]]))) else None
  }

  /** A row that has a value to write and no text for it. */
  predicate Uncoded(w: Writable, i: nat, encode: string -> Bytes)
    requires i < |w.column.values|
  {
    !WrittenNull(w, i) && ValueAt(w, i, encode).None?
  }

  /** The rows a column is written as. */
  function RowsWritten(w: Writable, encode: string -> Bytes): (rows: Rows)
    ensures |rows| == |w.column.values|
  {
    seq(|w.column.values|, i requires 0 <= i < |w.column.values| =>
      if WrittenNull(w, i) then None else ValueAt(w, i, encode))
  }

  method WriteOne(w: Writable, encode: string -> Bytes)
      returns (error: Option<nat>, values: seq<Value>, levels: Option<seq<int>>)
    ensures error.Some? <==> exists i :: 0 <= i < |w.column.values| && Uncoded(w, i, encode)
    ensures error.Some? ==> error.value < |w.column.values| && Uncoded(w, error.value, encode)
    ensures error.Some? ==> forall i :: 0 <= i < error.value ==> !Uncoded(w, i, encode)
    ensures error.None? ==> values == Dense(RowsWritten(w, encode))
    ensures error.None? ==> levels == if w.nulls == [] then None else Some(Levels(RowsWritten(w, encode)))
  {
    hide ValueAt;
    ghost var rows := RowsWritten(w, encode);
    var count := |w.column.values|;
    var defs := seq(count, i requires 0 <= i < count => if WrittenNull(w, i) then 0 else 1);
    values := [];
    error, levels := None, None;
    for i := 0 to count
      invariant values == Dense(rows[..i])
      invariant forall k :: 0 <= k < i ==> !Uncoded(w, k, encode)
    {
      DenseStep(rows, i);
      if defs[i] == 1 {
        var value := ValueAt(w, i, encode);
        if value.None? {
          assert Uncoded(w, i, encode);
          error := Some(i);
          return;
        }
        values := values + [value.value];
      }
    }
    assert rows[..count] == rows;
    if w.nulls != [] {
      forall k | 0 <= k < count
        ensures defs[k] == Levels(rows)[k]
      {
        assert !Uncoded(w, k, encode);
      }
      assert defs == Levels(rows);
      levels := Some(defs);
    }
  }

  lemma DenseStep<T>(rows: seq<Option<T>>, i: nat)
    requires i < |rows|
    ensures Dense(rows[..i + 1]) == Dense(rows[..i]) + if rows[i].Some? then [rows[i].value] else []
  {
    DenseAppend(rows[..i], [rows[i]]);
    assert rows[..i + 1] == rows[..i] + [rows[i]];
    assert [rows[i]][1..] == [];
  }

  function KindOf(c: Column): Kind {
    match c
    case Doubles(_) => DoubleKind
    case Ints(_) => IntKind
    case Texts(_, _) => TextKind
  }

  /** Every code names a text. */
  ghost predicate WellFormed(w: Writable) {
    w.column.Texts? ==> forall i :: 0 <= i < |w.column.values| && !WrittenNull(w, i) ==>
      0 <= w.column.values[i] < |w.column.uniques|
  }

  /** What the guest says of a row: of a double's null also by its NaN. */
  ghost function Told(w: Writable, i: nat): Cell
    requires WellFormed(w) && i < |w.column.values|
  {
    if w.column.Doubles? && w.column.values[i] == NULL_F64 then Null else CellOf(w.column, i, WrittenNull(w, i))
  }

  /** What is written is what the file's rows say when read: every value, text and null. */
  lemma {:induction false} WrittenReadsBack(w: Writable, encode: string -> Bytes, lossy: Bytes -> string)
    requires WellFormed(w) && forall s :: lossy(encode(s)) == s
    ensures var rows := RowsWritten(w, encode);
      && (forall i :: 0 <= i < |rows| ==> RowCell(rows[i], KindOf(w.column), lossy) == Told(w, i))
      && Typed(rows, KindOf(w.column), w.nulls != [])
      && Expanded(Dense(rows), Levels(rows)) == rows
      && (w.nulls == [] ==> |Dense(rows)| == |rows| && forall i :: 0 <= i < |rows| ==> rows[i] == Some(Dense(rows)[i]))
  {
    var rows := RowsWritten(w, encode);
    ExpandUndoes(rows);
    if w.nulls == [] {
      DenseAll(rows);
    }
  }

  /** A file holds a column's rows in groups: each is rows of the kind it is. */
  lemma {:induction false} GroupsTyped(groups: seq<Rows>, kind: Kind, nullable: bool)
    requires Typed(Concat(groups), kind, nullable)
    ensures forall g :: 0 <= g < |groups| ==> Typed(groups[g], kind, nullable)
  {
    forall g | 0 <= g < |groups|
      ensures Typed(groups[g], kind, nullable)
    {
      GroupSpan(groups, g);
      TypedPart(Concat(groups), kind, nullable, GroupStart(groups, g), GroupStart(groups, g + 1));
    }
  }

  /** The rows a writer is given: values, and levels when there are nulls. */
  function Filed(values: seq<Value>, levels: Option<seq<int>>): Rows {
    if levels.Some? then Expanded(values, levels.value)
    else seq(|values|, i requires 0 <= i < |values| => Some(values[i]))
  }

  lemma FiledIsWritten(w: Writable, encode: string -> Bytes, lossy: Bytes -> string)
    requires WellFormed(w) && forall s :: lossy(encode(s)) == s
    ensures var rows := RowsWritten(w, encode);
      Filed(Dense(rows), if w.nulls == [] then None else Some(Levels(rows))) == rows
  {
    WrittenReadsBack(w, encode, lossy);
  }

  /**
   Write a column and read it back whole. However the file splits its rows into groups,
   and however many at a time they are read, every row says what the guest said of it;
   and a column is refused exactly when a row has no text for its code.
   */
  method WriteThenRead(w: Writable, encode: string -> Bytes, lossy: Bytes -> string, split: Rows -> seq<Rows>, limits: nat -> nat -> nat)
      returns (r: Result<Decoded, nat>)
    requires forall s :: lossy(encode(s)) == s
    requires Concat(split(RowsWritten(w, encode))) == RowsWritten(w, encode) && forall g, p :: limits(g)(p) > 0
    ensures r.Ok? <==> WellFormed(w)
    ensures r.Err? ==> r.error < |w.column.values| && Uncoded(w, r.error, encode)
    ensures r.Ok? ==> r.value.name == w.name && |r.value.column.values| == |w.column.values|
    ensures r.Ok? ==> forall i :: 0 <= i < |w.column.values| ==>
      && (r.value.column.Texts? && !IsNull(r.value, i) ==> 0 <= r.value.column.values[i] < |r.value.column.uniques|)
      && Shown(r.value, i) == Told(w, i)
  {
    hide Typed, RowCell, Told, CellOf, IsNull, Shown, Concat, ShowsRow, ValueAt;
    CodedIsWellFormed(w, encode);
    var error, values, levels := WriteOne(w, encode);
    if error.Some? {
      return Err(error.value);
    }
    FiledIsWritten(w, encode, lossy);
    WrittenReadsBack(w, encode, lossy);
    ghost var rows := RowsWritten(w, encode);
    var groups := split(Filed(values, levels));
    assert Concat(groups) == rows;
    GroupsTyped(groups, KindOf(w.column), w.nulls != []);
    var take, d, _ := ReadRange(groups, 0, None, KindOf(w.column), w.nulls != [], lossy, limits, w.name);
    forall i | 0 <= i < |rows|
      ensures ShowsRow(d, i, rows[i], KindOf(w.column), lossy)
    {
      assert ShowsRowFrom(d, i, rows, 0, KindOf(w.column), lossy);
    }
    ShownAsTold(w, encode, lossy, d);
    r := Ok(d);
  }

  lemma ShownAsTold(w: Writable, encode: string -> Bytes, lossy: Bytes -> string, d: Decoded)
    requires WellFormed(w) && forall s :: lossy(encode(s)) == s
    requires |d.column.values| == |w.column.values|
    requires forall i :: 0 <= i < |w.column.values| ==> ShowsRow(d, i, RowsWritten(w, encode)[i], KindOf(w.column), lossy)
    ensures forall i :: 0 <= i < |w.column.values| ==>
      && (d.column.Texts? && !IsNull(d, i) ==> 0 <= d.column.values[i] < |d.column.uniques|)
      && Shown(d, i) == Told(w, i)
  {
    hide RowCell, Told, CellOf, IsNull;
    WrittenReadsBack(w, encode, lossy);
    forall i | 0 <= i < |w.column.values|
      ensures d.column.Texts? && !IsNull(d, i) ==> 0 <= d.column.values[i] < |d.column.uniques|
      ensures Shown(d, i) == Told(w, i)
    {
      assert ShowsRow(d, i, RowsWritten(w, encode)[i], KindOf(w.column), lossy);
    }
  }

  lemma CodedIsWellFormed(w: Writable, encode: string -> Bytes)
    ensures WellFormed(w) <==> forall i :: 0 <= i < |w.column.values| ==> !Uncoded(w, i, encode)
  {
    if forall i :: 0 <= i < |w.column.values| ==> !Uncoded(w, i, encode) {
      forall i | 0 <= i < |w.column.values| && w.column.Texts? && !WrittenNull(w, i)
        ensures 0 <= w.column.values[i] < |w.column.uniques|
      {
        assert !Uncoded(w, i, encode);
      }
    }
  }
}
