/** Columnar results: typed buffers with a validity bitmap, and the fallback of a number column to a list. */
module Columnar {
  import opened Decimal128
  import opened Numbers
  import opened Wrappers

  /* ---- The validity bitmap ---- */

  function BitmapSize(size: nat): nat {
    (size + 7) / 8
  }

  /** The bit of a row within its byte. */
  function Mask(k: nat): bv8
    requires k < 8
  {
    if k == 0 then 1 else if k == 1 then 2 else if k == 2 then 4 else if k == 3 then 8
    else if k == 4 then 16 else if k == 5 then 32 else if k == 6 then 64 else 128
  }

  predicate Bit(validity: seq<bv8>, index: nat) {
    index / 8 < |validity| && validity[index / 8] & Mask(index % 8) != 0
  }

  /** A row is valid without a bitmap, or if its bit is set. */
  predicate IsValid(validity: seq<bv8>, index: nat) {
    validity == [] || Bit(validity, index)
  }

  lemma AllSet(k: nat)
    requires k < 8
    ensures 0xff & Mask(k) != 0
  {
  }

  function Resized(validity: seq<bv8>, size: nat, fill: bv8): (r: seq<bv8>)
    ensures |r| == size
    ensures forall i :: 0 <= i < size ==> r[i] == if i < |validity| then validity[i] else fill
  {
    seq(size, i requires i >= 0 => if i < |validity| then validity[i] else fill)
  }

  function WithBit(b: bv8, k: nat, valid: bool): bv8
    requires k < 8
  {
    if valid then b | Mask(k) else b & !Mask(k)
  }

  lemma OneBit(b: bv8, j: nat, k: nat, valid: bool)
    requires j < 8 && k < 8
    ensures WithBit(b, j, valid) & Mask(k) != 0 <==> if j == k then valid else b & Mask(k) != 0
  {
  }

  lemma OnePlace(i: nat, j: nat)
    ensures i == j <==> i / 8 == j / 8 && i % 8 == j % 8
  {
  }

  lemma OneBitSet(validity: seq<bv8>, index: nat, valid: bool, i: nat)
    requires index / 8 < |validity|
    ensures var r := validity[index / 8 := WithBit(validity[index / 8], index % 8, valid)];
      Bit(r, i) <==> if i == index then valid else Bit(validity, i)
  {
    hide Mask, WithBit;
    OneBit(validity[index / 8], index % 8, i % 8, valid);
    OnePlace(i, index);
  }

  /** Sets the bit of a row, after growing the bitmap up to it. */
  method SetValidityBit(validity: seq<bv8>, index: nat, valid: bool) returns (r: seq<bv8>)
    ensures |r| == if index / 8 < |validity| then |validity| else index / 8 + 1
    ensures Bit(r, index) <==> valid
    ensures forall i: nat :: i != index && i / 8 < |validity| ==> (Bit(r, i) <==> Bit(validity, i))
  {
    hide Mask, WithBit;
    r := validity;
    var byte := index / 8;
    if byte >= |r| {
      r := Resized(r, byte + 1, 0);
    }
    ghost var grown := r;
    assert forall i: nat :: i / 8 < |validity| ==> (Bit(grown, i) <==> Bit(validity, i));
    r := r[byte := WithBit(r[byte], index % 8, valid)];
    hide Bit;
    forall i: nat ensures Bit(r, i) <==> if i == index then valid else Bit(grown, i) {
      OneBitSet(grown, index, valid, i);
    }
  }

  /* ---- Columns ---- */

  datatype ColumnType = IntegerType | FloatType | NumberType(precision: int, scale: int) | OtherType
  datatype NumberOption = OptimalNumbers | StringNumbers | NumericNumbers

  /** The fetched value of a column in one row, as its buffer holds it. */
  datatype Cell = NullCell | IntCell(n: int) | FloatCell(x: real) | TextCell(text: string)

  /** A value of a list column. */
  datatype ListValue =
    | NullValue
    | IntValue(n: int)
    | FloatValue(x: real)
    | NumberValue(text: string)
    | TextValue(s: string)

  /** The column's buffer holds values of its type. */
  predicate Holds(typ: ColumnType, cell: Cell) {
    match cell
    case NullCell => true
    case IntCell(_) => typ.IntegerType?
    case FloatCell(_) => typ.FloatType?
    case TextCell(_) => typ.NumberType? || typ.OtherType?
  }

  /** What the list path makes of a cell. */
  function AsListed(typ: ColumnType, option: NumberOption, cell: Cell): ListValue {
    match cell
    case NullCell => NullValue
    case IntCell(n) => IntValue(n)
    case FloatCell(x) => FloatValue(x)
    case TextCell(text) =>
      if typ.NumberType? && option.OptimalNumbers? then
        match NumberOptimal(text)
        case IntNumber(n) => IntValue(n)
        case TextNumber(t) => NumberValue(t)
      else if typ.NumberType? && option.NumericNumbers? then NumberValue(text)
      else TextValue(text)
  }

  /** What the typed storage of a number column makes of a cell. */
  function AsTyped(cell: Cell): ListValue {
    if cell.TextCell? && ParseInt64(cell.text).Some? then IntValue(ParseInt64(cell.text).value) else NullValue
  }

  predicate NeedsList(cell: Cell) {
    cell.TextCell? && ParseInt64(cell.text) == None
  }

  /** The first row that does not fit a column of 64-bit integers; the number of rows if there is none. */
  function FallbackRow(cells: seq<Cell>): (n: nat)
    ensures n <= |cells| && (n < |cells| ==> NeedsList(cells[n]))
    ensures forall i :: 0 <= i < n ==> !NeedsList(cells[i])
  {
    if cells == [] then 0
    else
      var n := FallbackRow(cells[..|cells| - 1]);
      if n < |cells| - 1 || NeedsList(cells[|cells| - 1]) then n else n + 1
  }

  /** The value of a row of a list column: a number column has read the rows before the fallback as integers. */
  function Listed(typ: ColumnType, option: NumberOption, cells: seq<Cell>, i: nat): ListValue
    requires i < |cells|
  {
    if KindOf(typ, option) == NumberOptimalKind && i < FallbackRow(cells) then AsTyped(cells[i])
    else AsListed(typ, option, cells[i])
  }

  lemma FallbackRowMore(cells: seq<Cell>, cell: Cell)
    ensures var n, n' := FallbackRow(cells), FallbackRow(cells + [cell]);
      n' == if n < |cells| || NeedsList(cell) then n else n + 1
  {
    assert (cells + [cell])[..|cells|] == cells;
  }

  function Nulls(cells: seq<Cell>): (n: nat)
    ensures n <= |cells|
  {
    if cells == [] then 0
    else Nulls(cells[..|cells| - 1]) + if cells[|cells| - 1] == NullCell then 1 else 0
  }

  datatype Kind = Int64Kind | Float64Kind | Decimal128Kind | NumberOptimalKind | ListKind

  function KindOf(typ: ColumnType, option: NumberOption): Kind {
    match typ
    case IntegerType => Int64Kind
    case FloatType => Float64Kind
    case NumberType(precision, scale) =>
      if !option.StringNumbers? && Supported(precision, scale)
         && !(option.OptimalNumbers? && scale == 0 && precision <= 18) then Decimal128Kind
      else if option.OptimalNumbers? then NumberOptimalKind
      else ListKind
    case OtherType => ListKind
  }

  /** The storage of a finished column: 64-bit integers, floats, decimals of the declared precision and scale, or a list
      of values. Numbers are texts in a list with the string option; with the default option, integers of up to 18
      digits and numbers of no declared precision are 64-bit integers, unless one of them is no such integer. */
  ghost predicate StoredAs(column: Column, typ: ColumnType, option: NumberOption, cells: seq<Cell>) {
    match typ
    case IntegerType => column.IntColumn?
    case FloatType => column.FloatColumn?
    case OtherType => column.ListColumn?
    case NumberType(precision, scale) =>
      var declared := 1 <= precision <= 38 && 0 <= scale <= precision;
      match option
      case StringNumbers => column.ListColumn?
      case NumericNumbers => if declared then column.DecimalColumn? else column.ListColumn?
      case OptimalNumbers =>
        if declared && (scale > 0 || precision > 18) then column.DecimalColumn?
        else if exists i :: 0 <= i < |cells| && NeedsList(cells[i]) then column.ListColumn?
        else column.IntColumn?
  }

  /** Values of one type with an optional validity bitmap: row `i` is null if its bit is clear. */
  datatype Buffer<T> = Buffer(nullable: bool, data: seq<T>, validity: seq<bv8>, nullCount: nat)
  {
    function Element(i: nat): Option<T>
      requires i < |data|
    {
      if nullable && !IsValid(validity, i) then None else Some(data[i])
    }
  }

  datatype Column =
    | ListColumn(values: seq<ListValue>)
    | IntColumn(ints: Buffer<int>)
    | FloatColumn(floats: Buffer<real>)
    | DecimalColumn(decimals: Buffer<Outcome>)

  /** The bitmap does not exist before the first null; then its bits tell the rows that are not null. */
  predicate ValidityOf(validity: seq<bv8>, nullCount: nat, cells: seq<Cell>) {
    && nullCount == Nulls(cells) && (validity == [] <==> nullCount == 0)
    && (validity != [] ==> |validity| == BitmapSize(|cells|))
    && forall i: nat :: i < |cells| ==> (IsValid(validity, i) <==> cells[i] != NullCell)
  }

  /** The bits of the rows tell which of them are not null. */
  predicate BitsOf(validity: seq<bv8>, cells: seq<Cell>) {
    forall i: nat :: i < |cells| ==> (Bit(validity, i) <==> cells[i] != NullCell)
  }

  predicate HoldsInt(cell: Cell, n: int) {
    cell == NullCell || cell == IntCell(n) || (cell.TextCell? && ParseInt64(cell.text) == Some(n))
  }

  predicate HoldsFloat(cell: Cell, x: real) {
    cell == NullCell || cell == FloatCell(x)
  }

  ghost predicate HoldsDecimal(typ: ColumnType, cell: Cell, d: Outcome) {
    || cell == NullCell
    || (typ.NumberType? && Supported(typ.precision, typ.scale) && cell.TextCell?
        && d.Stored? && Parsed(Some(cell.text), typ.precision, typ.scale, d))
  }

  predicate IntAt(cell: Cell, e: Option<int>) {
    match e
    case None => cell == NullCell
    case Some(n) => cell != NullCell && HoldsInt(cell, n)
  }

  predicate FloatAt(cell: Cell, e: Option<real>) {
    match e
    case None => cell == NullCell
    case Some(x) => cell != NullCell && HoldsFloat(cell, x)
  }

  ghost predicate DecimalAt(typ: ColumnType, cell: Cell, e: Option<Outcome>) {
    match e
    case None => cell == NullCell
    case Some(d) => cell != NullCell && HoldsDecimal(typ, cell, d)
  }

  /** The column holds exactly the cells: a row for each one, with nulls and values where the cells have them. */
  ghost predicate Represents(column: Column, typ: ColumnType, option: NumberOption, cells: seq<Cell>) {
    match column
    case ListColumn(values) =>
      |values| == |cells| && forall i :: 0 <= i < |cells| ==> values[i] == Listed(typ, option, cells, i)
    case IntColumn(b) =>
      && |b.data| == |cells| && b.nullCount == Nulls(cells)
      && forall i: nat :: i < |cells| ==> IntAt(cells[i], b.Element(i))
    case FloatColumn(b) =>
      && |b.data| == |cells| && b.nullCount == Nulls(cells)
      && forall i: nat :: i < |cells| ==> FloatAt(cells[i], b.Element(i))
    case DecimalColumn(b) =>
      && |b.data| == |cells| && b.nullCount == Nulls(cells)
      && forall i: nat :: i < |cells| ==> DecimalAt(typ, cells[i], b.Element(i))
  }

  /** The storage of a typed column holds the cells; what it holds for a null does not matter. */
  ghost predicate Stores(kind: Kind, typ: ColumnType, ints: seq<int>, floats: seq<real>, decimals: seq<Outcome>,
                         cells: seq<Cell>)
  {
    match kind
    case Int64Kind | NumberOptimalKind =>
      |ints| == |cells| && forall i :: 0 <= i < |cells| ==> HoldsInt(cells[i], ints[i])
    case Float64Kind => |floats| == |cells| && forall i :: 0 <= i < |cells| ==> HoldsFloat(cells[i], floats[i])
    case Decimal128Kind =>
      |decimals| == |cells| && forall i :: 0 <= i < |cells| ==> HoldsDecimal(typ, cells[i], decimals[i])
    case ListKind => true
  }

  lemma StoresInt(kind: Kind, typ: ColumnType, ints: seq<int>, floats: seq<real>, decimals: seq<Outcome>,
                  cells: seq<Cell>, cell: Cell, n: int)
    requires Stores(kind, typ, ints, floats, decimals, cells) && kind in {Int64Kind, NumberOptimalKind}
    requires HoldsInt(cell, n)
    ensures Stores(kind, typ, ints + [n], floats, decimals, cells + [cell])
  {
  }

  lemma StoresFloat(kind: Kind, typ: ColumnType, ints: seq<int>, floats: seq<real>, decimals: seq<Outcome>,
                    cells: seq<Cell>, cell: Cell, x: real)
    requires Stores(kind, typ, ints, floats, decimals, cells) && kind == Float64Kind && HoldsFloat(cell, x)
    ensures Stores(kind, typ, ints, floats + [x], decimals, cells + [cell])
  {
  }

  lemma StoresDecimal(kind: Kind, typ: ColumnType, ints: seq<int>, floats: seq<real>, decimals: seq<Outcome>,
                      cells: seq<Cell>, cell: Cell, d: Outcome)
    requires Stores(kind, typ, ints, floats, decimals, cells) && kind == Decimal128Kind && HoldsDecimal(typ, cell, d)
    ensures Stores(kind, typ, ints, floats, decimals + [d], cells + [cell])
  {
    hide HoldsDecimal;
  }

  ghost predicate Lists(typ: ColumnType, option: NumberOption, list: seq<ListValue>, cells: seq<Cell>) {
    |list| == |cells| && forall i :: 0 <= i < |cells| ==> list[i] == Listed(typ, option, cells, i)
  }

  /** The list holds what the list path makes of the cells. */
  ghost predicate ListPath(typ: ColumnType, option: NumberOption, list: seq<ListValue>, cells: seq<Cell>) {
    |list| == |cells| && forall i :: 0 <= i < |cells| ==> list[i] == AsListed(typ, option, cells[i])
  }

  /** The next cell of a list column is listed as the list path does. */
  predicate Continues(typ: ColumnType, option: NumberOption, cells: seq<Cell>, cell: Cell) {
    KindOf(typ, option) == NumberOptimalKind ==> FallbackRow(cells) < |cells| || NeedsList(cell)
  }

  lemma ListsMore(typ: ColumnType, option: NumberOption, list: seq<ListValue>, cells: seq<Cell>, cell: Cell)
    requires Lists(typ, option, list, cells) && Continues(typ, option, cells, cell)
    ensures Lists(typ, option, list + [AsListed(typ, option, cell)], cells + [cell])
    ensures KindOf(typ, option) == NumberOptimalKind ==> FallbackRow(cells + [cell]) < |cells| + 1
  {
    FallbackRowMore(cells, cell);
  }

  predicate AllHold(typ: ColumnType, cells: seq<Cell>) {
    forall i :: 0 <= i < |cells| ==> Holds(typ, cells[i])
  }

  /** The text is a numeral that a decimal column of the type can hold. */
  ghost predicate CanStore(typ: ColumnType, text: string) {
    && typ.NumberType? && Supported(typ.precision, typ.scale)
    && exists n :: Storable(text, n, typ.precision, typ.scale)
  }

  class Builder {
    const typ: ColumnType
    const option: NumberOption
    var kind: Kind
    var ints: seq<int>
    var floats: seq<real>
    var decimals: seq<Outcome>
    var validity: seq<bv8>
    var list: seq<ListValue>
    var rowCount: nat
    var nullCount: nat
    ghost var cells: seq<Cell> // the cells appended so far

    constructor (typ: ColumnType, option: NumberOption)
      ensures Valid() && cells == [] && this.typ == typ && this.option == option && kind == KindOf(typ, option)
    {
      this.typ, this.option, kind := typ, option, KindOf(typ, option);
      ints, floats, decimals, validity, list, rowCount, nullCount, cells := [], [], [], [], [], 0, 0, [];
    }

    ghost predicate Typed()
      reads this
    {
      ValidityOf(validity, nullCount, cells) && Stores(kind, typ, ints, floats, decimals, cells)
    }

    ghost predicate Valid()
      reads this
    {
      && (kind == KindOf(typ, option) || (KindOf(typ, option) == NumberOptimalKind && kind == ListKind))
      && rowCount == |cells| && AllHold(typ, cells)
      && if kind == ListKind then
           Lists(typ, option, list, cells)
             && (KindOf(typ, option) == NumberOptimalKind ==> FallbackRow(cells) < |cells|)
         else Typed()
    }

    method EnsureValidity()
      requires ValidityOf(validity, nullCount, cells) && rowCount == |cells|
      modifies this`validity
      ensures |validity| == BitmapSize(rowCount + 1) && nullCount == Nulls(cells) && BitsOf(validity, cells)
    {
      var size := BitmapSize(rowCount + 1);
      if validity != [] {
        validity := Resized(validity, size, 0);
      } else {
        validity := Resized(validity, size, 0xff);
        forall i: nat | i < |cells| ensures Bit(validity, i) && cells[i] != NullCell {
          AllSet(i % 8);
          NoNulls(cells, i);
        }
      }
    }

    /** Appends a null, and creates the bitmap if this is the first one. */
    method AppendNull()
      requires Valid() && kind != ListKind
      modifies this
      ensures Valid() && kind == old(kind) && cells == old(cells) + [NullCell]
    {
      hide BitmapSize, Bit, ValidityOf, Stores, BitsOf, AllHold, KindOf, FallbackRow, Lists;
      EnsureValidity();
      BitmapGrows(rowCount);
      ghost var before := validity;
      validity := SetValidityBit(validity, rowCount, false);
      NullAppended(before, validity, nullCount, cells);
      NullHeld(typ, cells);
      PushDefault();
      nullCount := nullCount + 1;
      rowCount := rowCount + 1;
      cells := cells + [NullCell];
    }

    /** Stores a value in the place of a null. */
    method PushDefault()
      requires kind != ListKind && Stores(kind, typ, ints, floats, decimals, cells)
      modifies this`ints, this`floats, this`decimals
      ensures Stores(kind, typ, ints, floats, decimals, cells + [NullCell])
    {
      hide Stores;
      match kind {
        case Float64Kind =>
          StoresFloat(kind, typ, ints, floats, decimals, cells, NullCell, 0.0);
          floats := floats + [0.0];
        case Decimal128Kind =>
          StoresDecimal(kind, typ, ints, floats, decimals, cells, NullCell, Stored(0, 0));
          decimals := decimals + [Stored(0, 0)];
        case Int64Kind | NumberOptimalKind =>
          StoresInt(kind, typ, ints, floats, decimals, cells, NullCell, 0);
          ints := ints + [0];
      }
    }

    /** Counts a value that was appended, and sets its bit if there is a bitmap. */
    method AppendValid(ghost cell: Cell)
      requires rowCount == |cells| && ValidityOf(validity, nullCount, cells) && cell != NullCell
      modifies this`validity, this`rowCount, this`cells
      ensures cells == old(cells) + [cell] && rowCount == |cells| && ValidityOf(validity, nullCount, cells)
    {
      if validity != [] {
        validity := SetValidityBit(validity, rowCount, true);
      }
      ValueAppended(cells, cell);
      rowCount := rowCount + 1;
      cells := cells + [cell];
    }

    /** The rows so far are in the list. */
    ghost predicate InList()
      reads this
    {
      && kind == ListKind && KindOf(typ, option) in {NumberOptimalKind, ListKind}
      && rowCount == |cells| && AllHold(typ, cells) && Lists(typ, option, list, cells)
    }

    /** Appends the list path's value of the cell. */
    method AppendList(cell: Cell, interrupted: bool) returns (ok: bool)
      requires InList() && Holds(typ, cell) && Continues(typ, option, cells, cell)
      modifies this`list, this`rowCount, this`cells
      ensures ok ==> Valid() && cells == old(cells) + [cell]
      ensures ok <==> !interrupted
    {
      hide Listed, KindOf, FallbackRow;
      if interrupted {
        return false;
      }
      ListsMore(typ, option, list, cells, cell);
      list := list + [AsListed(typ, option, cell)];
      rowCount := rowCount + 1;
      cells := cells + [cell];
      ok := true;
    }

    /** Moves the rows of a number column to a list; an interrupt ends the fetch. */
    method FallbackToList(interrupted: bool) returns (ok: bool)
      requires Valid() && kind == NumberOptimalKind
      modifies this
      ensures ok ==> InList() && cells == old(cells)
      ensures !interrupted ==> ok
    {
      hide KindOf, Stores, ValidityOf, AllHold, Listed, HoldsInt, Lists;
      list := [];
      ListsNone(typ, option);
      var i := 0;
      assert cells[..0] == [] && FallbackRow([]) == 0;
      while i < rowCount
        invariant i <= rowCount == |cells| && unchanged(`cells, `kind, `rowCount, `ints, `validity, `nullCount)
        invariant unchanged(`floats, `decimals) && Lists(typ, option, list, cells[..i]) && FallbackRow(cells[..i]) == i
      {
        if i > 0 && i % 100 == 0 && interrupted {
          return false;
        }
        RowInList(kind, typ, option, ints, floats, decimals, validity, nullCount, cells, list, i);
        list := list + [if IsValid(validity, i) then IntValue(ints[i]) else NullValue];
        i := i + 1;
      }
      assert cells[..i] == cells;
      kind, nullCount := ListKind, 0;
      ints, floats, decimals, validity := [], [], [], [];
      ok := true;
    }

    /** Appends the cell in the column's buffer. */
    method Append(cell: Cell, interrupted: bool) returns (ok: bool)
      requires Valid() && Holds(typ, cell)
      modifies this
      ensures ok ==> Valid() && cells == old(cells) + [cell]
      ensures !interrupted && old(kind) != Decimal128Kind ==> ok
      ensures old(kind) == Decimal128Kind && cell.TextCell? ==>
        (ok <==> CanStore(typ, cell.text))
      ensures old(kind) == Decimal128Kind ==> kind == Decimal128Kind && (!cell.TextCell? ==> ok)
    {
      hide HoldsDecimal, Stores, ValidityOf, Lists, Storable;
      if kind == ListKind {
        ok := AppendList(cell, interrupted);
        return;
      }
      if cell == NullCell {
        AppendNull();
        return true;
      }
      ok := true;
      match kind {
        case Int64Kind =>
          StoresInt(kind, typ, ints, floats, decimals, cells, cell, cell.n);
          ints := ints + [cell.n];
          AppendValid(cell);
        case Float64Kind =>
          StoresFloat(kind, typ, ints, floats, decimals, cells, cell, cell.x);
          floats := floats + [cell.x];
          AppendValid(cell);
        case Decimal128Kind =>
          ok := AppendDecimal(cell);
        case NumberOptimalKind =>
          var value := ParseInt64(cell.text);
          if value.Some? {
            StoresInt(kind, typ, ints, floats, decimals, cells, cell, value.value);
            ints := ints + [value.value];
            AppendValid(cell);
          } else {
            ok := FallbackToList(interrupted);
            if ok {
              ok := AppendList(cell, interrupted);
            }
          }
      }
    }

    /** Appends a decimal; a number that the column cannot hold ends the fetch. */
    method AppendDecimal(cell: Cell) returns (ok: bool)
      requires Valid() && Holds(typ, cell) && kind == Decimal128Kind && cell.TextCell?
      modifies this
      ensures ok ==> Valid() && cells == old(cells) + [cell]
      ensures !ok ==> Valid() && cells == old(cells)
      ensures (ok <==> CanStore(typ, cell.text)) && kind == Decimal128Kind
    {
      hide Parsed, ValidityOf, Stores, Storable;
      var value := ParseDecimal128(Some(cell.text), typ.precision, typ.scale);
      StoredIffStorable(cell.text, typ.precision, typ.scale, value);
      if !value.Stored? {
        return false;
      }
      StoresDecimal(kind, typ, ints, floats, decimals, cells, cell, value);
      decimals := decimals + [value];
      AppendValid(cell);
      ok := true;
    }

    method Finish() returns (r: Column)
      requires Valid()
      ensures Represents(r, typ, option, cells)
      ensures r.ListColumn? <==> kind == ListKind
      ensures StoredAs(r, typ, option, cells)
    {
      if kind == NumberOptimalKind {
        NoneNeedsList(kind, typ, ints, floats, decimals, cells);
      }
      var nullable := nullCount > 0;
      match kind {
        case ListKind => r := ListColumn(list);
        case Float64Kind => r := FloatColumn(Buffer(nullable, floats, if nullable then validity else [], nullCount));
        case Decimal128Kind =>
          r := DecimalColumn(Buffer(nullable, decimals, if nullable then validity else [], nullCount));
        case Int64Kind | NumberOptimalKind =>
          r := IntColumn(Buffer(nullable, ints, if nullable then validity else [], nullCount));
      }
    }
  }

  lemma NoneNeedsList(kind: Kind, typ: ColumnType, ints: seq<int>, floats: seq<real>, decimals: seq<Outcome>,
                      cells: seq<Cell>)
    requires kind == NumberOptimalKind && typ.NumberType? && AllHold(typ, cells)
    requires Stores(kind, typ, ints, floats, decimals, cells)
    ensures forall i :: 0 <= i < |cells| ==> !NeedsList(cells[i])
  {
    hide ParseInt64;
    forall i | 0 <= i < |cells| ensures !NeedsList(cells[i]) {
      assert HoldsInt(cells[i], ints[i]) && Holds(typ, cells[i]);
    }
  }

  /** An integer of the typed storage is the integer that the text holds. */
  lemma TypedValue(cell: Cell, n: int)
    requires HoldsInt(cell, n) && !cell.IntCell?
    ensures AsTyped(cell) == if cell == NullCell then NullValue else IntValue(n)
    ensures !NeedsList(cell)
  {
  }

  /** It is the integer that the list path makes of the same text if and only if the text has at most 19 characters
      behind a minus sign. */
  lemma SameInList(typ: ColumnType, option: NumberOption, cell: Cell)
    requires KindOf(typ, option) == NumberOptimalKind && Holds(typ, cell) && !NeedsList(cell)
    ensures AsListed(typ, option, cell) == AsTyped(cell) <==> (cell.TextCell? ==> |Magnitude(cell.text)| <= 19)
  {
    if cell.TextCell? {
      ReadingsAgree(cell.text);
    }
  }

  lemma BitmapGrows(n: nat)
    ensures BitmapSize(n + 1) == n / 8 + 1
  {
  }

  lemma NullHolds(typ: ColumnType)
    ensures Holds(typ, NullCell)
  {
  }

  lemma NullHeld(typ: ColumnType, cells: seq<Cell>)
    requires AllHold(typ, cells)
    ensures AllHold(typ, cells + [NullCell])
  {
    NullHolds(typ);
    hide Holds;
  }

  lemma NullAppended(before: seq<bv8>, validity: seq<bv8>, nullCount: nat, cells: seq<Cell>)
    requires |before| == |validity| == BitmapSize(|cells| + 1) && BitsOf(before, cells) && !Bit(validity, |cells|)
    requires forall i: nat :: i != |cells| && i / 8 < |before| ==> (Bit(validity, i) <==> Bit(before, i))
    requires nullCount == Nulls(cells)
    ensures ValidityOf(validity, nullCount + 1, cells + [NullCell])
  {
    BitmapGrows(|cells|);
    NullCounted(cells);
    hide Bit, Nulls;
    var all := cells + [NullCell];
    forall i: nat | i < |all| ensures IsValid(validity, i) <==> all[i] != NullCell {
      assert i < |cells| ==> (Bit(validity, i) <==> Bit(before, i));
    }
  }

  lemma NullCounted(cells: seq<Cell>)
    ensures Nulls(cells + [NullCell]) == Nulls(cells) + 1
  {
    assert (cells + [NullCell])[..|cells|] == cells;
  }

  lemma ValueAppended(cells: seq<Cell>, cell: Cell)
    requires cell != NullCell
    ensures Nulls(cells + [cell]) == Nulls(cells)
  {
    assert (cells + [cell])[..|cells|] == cells;
  }

  lemma {:induction false} NoNulls(cells: seq<Cell>, i: nat)
    requires Nulls(cells) == 0 && i < |cells|
    ensures cells[i] != NullCell
  {
    if i < |cells| - 1 {
      NoNulls(cells[..|cells| - 1], i);
    }
  }

  lemma ListsNone(typ: ColumnType, option: NumberOption)
    ensures Lists(typ, option, [], [])
  {
  }

  lemma RowInList(kind: Kind, typ: ColumnType, option: NumberOption, ints: seq<int>, floats: seq<real>,
                  decimals: seq<Outcome>, validity: seq<bv8>, nullCount: nat, cells: seq<Cell>, list: seq<ListValue>,
                  i: nat)
    requires kind == KindOf(typ, option) == NumberOptimalKind && AllHold(typ, cells) && i < |cells|
    requires ValidityOf(validity, nullCount, cells) && Stores(kind, typ, ints, floats, decimals, cells)
    requires Lists(typ, option, list, cells[..i]) && FallbackRow(cells[..i]) == i
    ensures i < |ints| && FallbackRow(cells[..i + 1]) == i + 1
    ensures Lists(typ, option, list + [if IsValid(validity, i) then IntValue(ints[i]) else NullValue], cells[..i + 1])
  {
    hide KindOf, HoldsInt, AsTyped, IsValid, NeedsList, FallbackRow;
    RowStored(kind, typ, ints, floats, decimals, validity, nullCount, cells, i);
    NumbersAreText(typ, option, cells[i]);
    hide Stores, ValidityOf, AllHold, Holds;
    TypedValue(cells[i], ints[i]);
    assert cells[..i + 1] == cells[..i] + [cells[i]];
    FallbackRowMore(cells[..i], cells[i]);
  }

  lemma RowStored(kind: Kind, typ: ColumnType, ints: seq<int>, floats: seq<real>, decimals: seq<Outcome>,
                  validity: seq<bv8>, nullCount: nat, cells: seq<Cell>, i: nat)
    requires kind == NumberOptimalKind && AllHold(typ, cells) && i < |cells|
    requires ValidityOf(validity, nullCount, cells) && Stores(kind, typ, ints, floats, decimals, cells)
    ensures i < |ints| && HoldsInt(cells[i], ints[i]) && Holds(typ, cells[i])
    ensures IsValid(validity, i) <==> cells[i] != NullCell
  {
  }

  lemma NumbersAreText(typ: ColumnType, option: NumberOption, cell: Cell)
    requires KindOf(typ, option) == NumberOptimalKind && Holds(typ, cell)
    ensures cell == NullCell || cell.TextCell?
  {
  }

  /** Builds the column of a result from the cells of its rows. */
  method BuildColumn(typ: ColumnType, option: NumberOption, cells: seq<Cell>, interrupted: bool)
    returns (r: Option<Column>)
    requires AllHold(typ, cells)
    ensures r.Some? ==> Represents(r.value, typ, option, cells) && StoredAs(r.value, typ, option, cells)
    ensures !interrupted && KindOf(typ, option) != Decimal128Kind ==> r.Some?
    ensures KindOf(typ, option) == Decimal128Kind ==>
      (r.Some? <==> forall i :: 0 <= i < |cells| && cells[i].TextCell? ==> CanStore(typ, cells[i].text))
  {
    hide Represents, KindOf, ValidityOf, Stores, Lists, Holds, StoredAs, Storable, HoldsDecimal;
    var builder := new Builder(typ, option);
    for i := 0 to |cells|
      invariant builder.Valid() && builder.cells == cells[..i] && fresh(builder)
      invariant KindOf(typ, option) == Decimal128Kind ==>
        && builder.kind == Decimal128Kind
        && forall j :: 0 <= j < i && cells[j].TextCell? ==> CanStore(typ, cells[j].text)
    {
      var ok := builder.Append(cells[i], interrupted);
      if !ok {
        return None;
      }
    }
    assert cells[..|cells|] == cells;
    var column := builder.Finish();
    r := Some(column);
  }

  /** The values of a number column, whether it stayed typed or fell back to a list. */
  function Values(column: Column): seq<ListValue>
    requires column.ListColumn? || column.IntColumn?
  {
    match column
    case ListColumn(values) => values
    case IntColumn(b) =>
      seq(|b.data|, i requires 0 <= i < |b.data| =>
        match b.Element(i)
        case None => NullValue
        case Some(n) => IntValue(n))
  }

  /** Whether the fallback happens or not and at whichever row, the values are those of the list path if and only if
      every text before it has at most 19 characters behind a minus sign. */
  lemma SameAsListPath(column: Column, typ: ColumnType, option: NumberOption, cells: seq<Cell>)
    requires column.ListColumn? || column.IntColumn?
    requires KindOf(typ, option) == NumberOptimalKind && AllHold(typ, cells) && Represents(column, typ, option, cells)
    ensures ListPath(typ, option, Values(column), cells) <==>
      forall i :: 0 <= i < FallbackRow(cells) && cells[i].TextCell? ==> |Magnitude(cells[i].text)| <= 19
  {
    var values := Values(column);
    forall i | 0 <= i < |cells| ensures values[i] == Listed(typ, option, cells, i) {
      if column.IntColumn? {
        IntegersListed(column.ints, typ, option, cells, i);
      }
    }
    forall i | 0 <= i < |cells|
      ensures values[i] == AsListed(typ, option, cells[i]) <==>
        (i < FallbackRow(cells) && cells[i].TextCell? ==> |Magnitude(cells[i].text)| <= 19)
    {
      if i < FallbackRow(cells) {
        SameInList(typ, option, cells[i]);
      }
    }
  }

  lemma IntegersListed(b: Buffer<int>, typ: ColumnType, option: NumberOption, cells: seq<Cell>, i: nat)
    requires KindOf(typ, option) == NumberOptimalKind && AllHold(typ, cells)
    requires Represents(IntColumn(b), typ, option, cells) && i < |cells|
    ensures (match b.Element(i) case None => NullValue case Some(n) => IntValue(n)) == Listed(typ, option, cells, i)
  {
    hide ParseInt64;
    forall k | 0 <= k < |cells| ensures !NeedsList(cells[k]) {
      assert IntAt(cells[k], b.Element(k));
      assert Holds(typ, cells[k]);
    }
    assert FallbackRow(cells) == |cells|;
    assert IntAt(cells[i], b.Element(i)) && Holds(typ, cells[i]);
  }

  /** Texts of canonical integers, and texts that are no 64-bit integers, are short enough. */
  lemma CanonicalSuffices(text: string)
    requires Canonical(text) || ParseInt64(text) == None
    ensures ParseInt64(text) == None || |Magnitude(text)| <= 19
  {
    if ParseInt64(text).Some? {
      ColumnsAgree(text);
      ReadingsAgree(text);
    }
  }

  /* ---- What lists hold ---- */

  /** A column of another type lists texts, and one of numbers without a declared precision lists them as numbers with
      the numeric option. */
  lemma TextsListed(column: Column, typ: ColumnType, option: NumberOption, cells: seq<Cell>)
    requires AllHold(typ, cells) && Represents(column, typ, option, cells) && StoredAs(column, typ, option, cells)
    requires typ.OtherType? || (typ.NumberType? && !Supported(typ.precision, typ.scale) && option == NumericNumbers)
    ensures column.ListColumn? && |column.values| == |cells|
    ensures forall i :: 0 <= i < |cells| ==>
      column.values[i] ==
        if cells[i] == NullCell then NullValue
        else if typ.OtherType? then TextValue(cells[i].text) else NumberValue(cells[i].text)
  {
    forall i | 0 <= i < |cells|
      ensures column.values[i] ==
        if cells[i] == NullCell then NullValue
        else if typ.OtherType? then TextValue(cells[i].text) else NumberValue(cells[i].text)
    {
      assert Holds(typ, cells[i]) && column.values[i] == Listed(typ, option, cells, i);
    }
  }

  /** A column of numbers lists their very texts with the string option. */
  lemma StringsListed(column: Column, typ: ColumnType, cells: seq<Cell>)
    requires typ.NumberType? && AllHold(typ, cells)
    requires Represents(column, typ, StringNumbers, cells) && StoredAs(column, typ, StringNumbers, cells)
    ensures column.ListColumn? && |column.values| == |cells|
    ensures forall i :: 0 <= i < |cells| ==>
      column.values[i] == if cells[i] == NullCell then NullValue else TextValue(cells[i].text)
  {
    forall i | 0 <= i < |cells|
      ensures column.values[i] == if cells[i] == NullCell then NullValue else TextValue(cells[i].text)
    {
      assert Holds(typ, cells[i]) && column.values[i] == Listed(typ, StringNumbers, cells, i);
    }
  }
}
