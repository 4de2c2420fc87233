/** Direct path loads: blocks of rows through a column array and a stream, with an adversarial client. */
module BulkLoad {
  import opened Chars
  import opened LoadRuns
  import opened Numbers
  import opened Wrappers

  const TWO_32: nat := 0x1_0000_0000

  /** A value to load; None is NULL or NOTHING. */
  type Value = Option<int>

  datatype Column = Column(key: string, name: string, maxSize: nat)

  /** What a block has for a column: a list with a value for each row, or one value for all rows. */
  datatype Entry = Values(values: seq<Value>) | Scalar(value: Value)

  type Block = map<string, Entry>

  /** The text of a value that is not null, if values of its type can be loaded in the column. */
  type Serializer = (Column, Value) -> Option<string>

  function EntryAt(e: Entry, row: nat): Value
    requires e.Values? ==> row < |e.values|
  {
    if e.Values? then e.values[row] else e.value
  }

  /** The field for a value, unless it cannot be serialized or is too long for the column. */
  function Serialize(serializer: Serializer, column: Column, value: Value): Option<Cell> {
    if value == None then Some(Cell("", true))
    else
      match serializer(column, value)
      case None => None
      case Some(data) => if |data| > column.maxSize then None else Some(Cell(data, false))
  }

  /** The block has an entry for each column, and all of its lists have `count` rows. */
  predicate Shaped(columns: seq<Column>, block: Block, count: nat) {
    && |block| == |columns|
    && (forall c :: 0 <= c < |columns| ==>
          columns[c].key in block && (block[columns[c].key].Values? ==> |block[columns[c].key].values| == count))
    && ((forall c :: 0 <= c < |columns| ==> block[columns[c].key].Scalar?) ==> count == 1)
  }

  /** The field is null for no value, and otherwise holds the serializer's text, which fits the column. */
  predicate IsField(serializer: Serializer, column: Column, value: Value, field: Cell) {
    match value
    case None => field.isNull && field.data == ""
    case Some(_) => !field.isNull && serializer(column, value) == Some(field.data) && |field.data| <= column.maxSize
  }

  /** The field of a row: value `r` of a list, and the value itself of a scalar. */
  predicate FieldAt(serializer: Serializer, column: Column, entry: Entry, r: nat, field: Cell) {
    match entry
    case Values(values) => r < |values| && IsField(serializer, column, values[r], field)
    case Scalar(value) => IsField(serializer, column, value, field)
  }

  /** The rows that a block stands for: row r has value r of each list, and the scalars are in every row. */
  predicate Encodes(serializer: Serializer, columns: seq<Column>, block: Block, rows: seq<BulkRow>) {
    && Shaped(columns, block, |rows|)
    && (forall r :: 0 <= r < |rows| ==> |rows[r]| == |columns|)
    && forall r, c :: 0 <= r < |rows| && 0 <= c < |columns| ==>
         FieldAt(serializer, columns[c], block[columns[c].key], r, rows[r][c])
  }

  /** A field is serialized if and only if there is one, and to that one. */
  lemma SerializedField(serializer: Serializer, column: Column, entry: Entry, r: nat)
    requires entry.Values? ==> r < |entry.values|
    ensures forall field ::
      Serialize(serializer, column, EntryAt(entry, r)) == Some(field) <==> FieldAt(serializer, column, entry, r, field)
  {
  }

  /** The sum of two 32-bit counts as the client computes it. */
  function Add32(a: nat, b: nat): nat {
    (a + b) % TWO_32
  }

  /** The check of the sum that may wrap accepts a count if and only if it is from 1 to the rows that remain. */
  lemma WrappedSumCheck(offset: nat, converted: nat, count: nat)
    requires offset < count < TWO_32 && converted < TWO_32
    ensures !(Add32(offset, converted) <= offset || Add32(offset, converted) > count) <==>
      1 <= converted <= count - offset
    ensures 1 <= converted <= count - offset ==> Add32(offset, converted) == offset + converted
  {
    if offset + converted >= TWO_32 {
      assert Add32(offset, converted) == offset + converted - TWO_32;
    }
  }

  datatype Status = Success | SuccessWithInfo | Continue | Error | OtherStatus

  /* ---- Identifiers ---- */

  function UpperText(s: string): (r: string)
    ensures |r| == |s| && forall i :: 0 <= i < |s| ==> r[i] == UpperChar(s[i])
  {
    seq(|s|, i requires 0 <= i < |s| => UpperChar(s[i]))
  }

  predicate IsStart(c: char) {
    IsAlpha(c) || c == '_'
  }

  predicate IsPart(c: char) {
    IsAlnum(c) || c == '_' || c == '$' || c == '#'
  }

  /** The characters from `i` to `j` are an unquoted identifier. */
  predicate IsIdentifier(s: string, i: nat, j: nat) {
    i < j <= |s| && IsStart(s[i]) && forall k :: i < k < j ==> IsPart(s[k])
  }

  /** The position of the first dot, or the length of a text without one. */
  function FirstDot(s: string): (d: nat)
    ensures d <= |s| && (d < |s| ==> s[d] == '.') && forall i :: 0 <= i < d ==> s[i] != '.'
  {
    if s == "" || s[0] == '.' then 0 else 1 + FirstDot(s[1..])
  }

  /** An unquoted identifier, or one with a schema if that is allowed. */
  predicate IsName(s: string, qualified: bool) {
    var d := FirstDot(s);
    if d == |s| then IsIdentifier(s, 0, |s|) else qualified && IsIdentifier(s, 0, d) && IsIdentifier(s, d + 1, |s|)
  }

  /** Checks a name and converts it to upper case. */
  method ParseIdentifier(s: string, qualified: bool) returns (ok: bool, interrupted: bool, normalized: string)
    ensures !interrupted ==> (ok <==> IsName(s, qualified))
    ensures interrupted ==> !ok
    ensures ok ==> normalized == UpperText(s)
  {
    ok, interrupted, normalized := false, false, "";
    if s == "" {
      return;
    }
    var atStart, sawDot, i := true, false, 0;
    ghost var d := FirstDot(s);
    while i < |s|
      invariant i <= |s| && |normalized| == i && forall k :: 0 <= k < i ==> normalized[k] == UpperChar(s[k])
      invariant sawDot <==> i > d
      invariant atStart <==> i == if sawDot then d + 1 else 0
      invariant sawDot ==> qualified && IsIdentifier(s, 0, d) && d + 1 < |s|
      invariant !atStart ==> IsIdentifier(s, if sawDot then d + 1 else 0, i)
    {
      var interrupt: bool := *;
      if i > 0 && i % 100 == 0 && interrupt {
        interrupted := true;
        return;
      }
      if s[i] == '.' {
        if !qualified || sawDot || atStart || i + 1 == |s| {
          return;
        }
        sawDot, atStart := true, true;
      } else if atStart {
        if !IsStart(s[i]) {
          return;
        }
        atStart := false;
      } else if !IsPart(s[i]) {
        return;
      }
      normalized := normalized + [UpperChar(s[i])];
      i := i + 1;
    }
    ok := !atStart;
  }

  /* ---- Reports about the stream of data ---- */

  const REPORT_BYTES: nat := 65536

  datatype Report = Begin | Progress(total: nat) | End(total: nat, ok: bool)

  /** The total of the latest progress report. */
  function Reported(reports: seq<Report>): nat {
    if reports == [] then 0
    else match reports[|reports| - 1]
      case Progress(total) => total
      case _ => 0
  }

  /** A stream that has begun: after its begin, progress totals that grow by at least 64 KiB each. */
  predicate Running(reports: seq<Report>) {
    && reports != [] && reports[0] == Begin
    && forall i :: 0 < i < |reports| ==>
       reports[i].Progress? && reports[i].total >= Reported(reports[..i]) + REPORT_BYTES
  }

  /** A stream that has ended got exactly one end report, behind everything else. */
  predicate Ended(reports: seq<Report>) {
    reports != [] && reports[|reports| - 1].End? && Running(reports[..|reports| - 1])
  }

  class Stream {
    const active: bool
    var started: bool
    var ok: bool
    var consumed: nat
    var reported: nat
    ghost var reports: seq<Report>
    ghost var faults: nat       // reports that failed

    ghost predicate Valid()
      reads this
    {
      && (if started then Running(reports) && reported == Reported(reports) else reports == [] || Ended(reports))
      && (!started && reports != [] ==> reports[|reports| - 1].total == consumed)
      && reported <= consumed <= INT64_MAX
    }

    constructor (active: bool)
      ensures Valid() && Untouched() && this.active == active
    {
      this.active, started, ok, consumed, reported := active, false, true, 0, 0;
      reports, faults := [], 0;
    }

    /** Nothing was reported or counted. */
    ghost predicate Untouched()
      reads this
    {
      !started && reports == [] && consumed == 0 && ok && faults == 0
    }

    method BeginStream() returns (success: bool)
      requires Valid() && !started && reports == [] && consumed == 0
      modifies this
      ensures Valid() && (started <==> success && active) && reports == (if started then [Begin] else [])
      ensures consumed == 0 && ok == old(ok) && (if success then faults == old(faults) else faults > old(faults))
    {
      success := true;
      if active {
        success := *;
        if success {
          started, reported := true, 0;
          reports := [Begin];
        } else {
          faults := faults + 1;
        }
      }
    }

    /** Counts the bytes of a block that was loaded. */
    method AddBytes(size: nat) returns (success: bool)
      requires Valid()
      modifies this
      ensures Valid() && started == old(started) && old(reports) <= reports && (!started ==> reports == old(reports))
      ensures consumed == if started then Count(old(consumed), size) else old(consumed)
      ensures ok <==> old(ok) && success
      ensures !success ==> started && (size > INT64_MAX - old(consumed) || faults > old(faults))
      ensures old(faults) <= faults && (success && started ==> size <= INT64_MAX - old(consumed))
      ensures success && started ==> consumed - reported < REPORT_BYTES
    {
      if !started {
        return true;
      }
      if size > INT64_MAX - consumed {
        ok := false;
        return false;
      }
      consumed := consumed + size;
      if consumed - reported < REPORT_BYTES {
        return true;
      }
      reported := consumed;
      assert (reports + [Progress(consumed)])[..|reports|] == reports;
      assert forall i :: 0 < i < |reports| ==> (reports + [Progress(consumed)])[..i] == reports[..i];
      reports := reports + [Progress(consumed)];
      success := *;
      if !success {
        ok, faults := false, faults + 1;
      }
    }

    method SetError()
      requires Valid()
      modifies this`ok
      ensures Valid() && !ok
    {
      ok := false;
    }

    /** Ends the stream, as a success only if nothing failed. */
    method Finish(wanted: bool) returns (success: bool)
      requires Valid()
      modifies this`started, this`ok, this`reports, this`faults
      ensures Valid() && !started && (if success then faults == old(faults) else faults > old(faults))
      ensures if old(started) then
                Ended(reports) && reports == old(reports) + [End(consumed, ok)] && (ok <==> wanted && old(ok))
              else reports == old(reports) && ok == old(ok)
    {
      if !started {
        return true;
      }
      started := false;
      ok := ok && wanted;
      assert (reports + [End(consumed, ok)])[..|reports|] == reports;
      reports := reports + [End(consumed, ok)];
      success := *;
      if !success {
        faults := faults + 1;
      }
    }
  }

  /* ---- The load ---- */

  /** What the client has done with the direct path context. */
  datatype Phase = NoContext | Allocated | Prepared | Finished | FinishFailed | Aborted | Freed

  /** Rows `from` to `to` of a column array. */
  function ArrayRows(entries: map<(nat, nat), Cell>, width: nat, from: nat, to: nat): (rows: seq<BulkRow>)
    requires from <= to && forall r, c :: from <= r < to && 0 <= c < width ==> (r, c) in entries
    ensures |rows| == to - from
  {
    seq(to - from, r requires 0 <= r < to - from => seq(width, c requires 0 <= c < width => entries[(from + r, c)]))
  }

  class LoadState {
    const serializer: Serializer
    const stream: Stream
    var columns: seq<Column>
    var context: bool     // the context handle is allocated
    var prepared: bool
    var used: bool
    var maxRows: nat

    // the client and the server
    var entries: map<(nat, nat), Cell>  // the column array
    var converted: nat                  // the count of rows that the client reports
    var streamed: seq<BulkRow>          // the rows in the stream
    var loaded: seq<BulkRow>            // the rows that the server took
    ghost var phase: Phase
    ghost var committed: bool           // the server finished the load and committed it
    ghost var calls: nat                // calls of the client
    ghost var faults: nat               // calls that failed, interrupts and progress that is not possible
    ghost var history: seq<Call>        // the blocks that were given to the load

    constructor (serializer: Serializer, streamBounds: bool)
      ensures Untouched() && fresh(stream) && this.serializer == serializer
    {
      this.serializer := serializer;
      stream := new Stream(streamBounds);
      columns, context, prepared, used, maxRows := [], false, false, false, 0;
      entries, converted, streamed, loaded, phase, committed, calls, faults := map[], 0, [], [], NoContext, false, 0, 0;
      history := [];
    }

    ghost predicate Valid()
      reads this, stream
    {
      && stream.Valid()
      && (prepared <==> phase == Prepared)
      && (context <==> phase in {Allocated, Prepared, Finished, Aborted}) && phase != FinishFailed
      && (stream.started ==> prepared)
      && (phase == Finished ==> committed) && (committed ==> phase in {Finished, Freed})
      && Reports() && Records() && Explains()
    }

    /** Nothing was done yet. */
    ghost predicate Untouched()
      reads this, stream
    {
      && Valid() && Empty() && stream.Untouched() && phase == NoContext && columns == [] && calls == 0 && faults == 0
      && Flow() == FRESH && history == []
    }

    function Flow(): Pipe
      reads `streamed, `loaded, `used
    {
      Pipe(streamed, loaded, used)
    }

    /** The rows in the stream and those that the server took are what the calls of the client make of the blocks. */
    ghost predicate Records()
      reads `streamed, `loaded, `used, `history, `maxRows, `columns
      reads stream`ok, stream`started, stream`reports, stream`consumed
    {
      && Flow() == RunAfter(Runs(history), maxRows)
      && Recorded(serializer, columns, history, maxRows)
      && (stream.ok ==> AllOk(history)) && (history != [] ==> maxRows > 0)
      && (if stream.started || stream.reports != [] then stream.consumed == Counted(Runs(history), maxRows)
          else stream.consumed == 0)
    }

    /** Without failures of the client, all blocks that can be encoded are loaded. */
    ghost predicate Explains()
      reads `history, `maxRows, `columns, `faults, stream`faults
    {
      faults == 0 && stream.faults == 0 ==> NothingRefused(serializer, columns, history, maxRows)
    }

    /** The end report tells the bytes of the blocks that were loaded completely, and a success only for a load that
        is committed and whose blocks all succeeded. */
    ghost predicate Reports()
      reads `history, `maxRows, `committed, stream`started, stream`reports
    {
      !stream.started && stream.reports != [] && stream.reports[|stream.reports| - 1].End? ==>
        var end := stream.reports[|stream.reports| - 1];
        && end.total == Counted(Runs(history), maxRows)
        && (end.ok ==> committed && AllOk(history))
    }

    /** A load that began and was not ended. */
    ghost predicate Active()
      reads this, stream
    {
      && Valid() && prepared && 0 < maxRows < TWO_32 && (stream.started || stream.reports == [])
      && (stream.ok <==> AllOk(history))
    }

    /** Rows of an earlier block that failed before any chunk was loaded; they are still in the stream. */
    function Stale(): seq<BulkRow>
      reads `streamed, `loaded, `used
    {
      Flow().Stale()
    }

    /* ---- Calls of the client ---- */

    /** A call that may fail. */
    method Try() returns (ok: bool)
      modifies this`faults
      ensures faults >= old(faults) && (ok <==> faults == old(faults))
    {
      ok := *;
      if !ok {
        faults := faults + 1;
      }
    }

    method ResetArray() returns (ok: bool)
      requires phase == Prepared
      modifies this`entries, this`calls, this`faults
      ensures calls > old(calls) && faults >= old(faults) && (ok <==> faults == old(faults))
    {
      calls, entries := calls + 1, map[];
      ok := Try();
    }

    method ResetStream() returns (ok: bool)
      requires phase == Prepared
      modifies this`streamed, this`calls, this`faults
      ensures calls > old(calls) && streamed == if ok then [] else old(streamed)
      ensures faults >= old(faults) && (ok <==> faults == old(faults))
    {
      calls := calls + 1;
      ok := Try();
      if ok {
        streamed := [];
      }
    }

    method SetEntry(row: nat, column: nat, cell: Cell) returns (ok: bool)
      requires phase == Prepared
      modifies this`entries, this`calls, this`faults
      ensures calls > old(calls) && (ok ==> entries == old(entries)[(row, column) := cell])
      ensures faults >= old(faults) && (ok <==> faults == old(faults))
    {
      calls, entries := calls + 1, entries[(row, column) := cell];
      ok := Try();
    }

    /** Converts some of the rows from `offset` on, and reports how many as it likes; a count that is possible is the
        right one. */
    method ToStream(rowCount: nat, offset: nat) returns (status: Status, ghost n: nat)
      requires phase == Prepared && offset < rowCount < TWO_32
      requires forall r, c :: 0 <= r < rowCount && 0 <= c < |columns| ==> (r, c) in entries
      modifies this`streamed, this`converted, this`calls, this`faults
      ensures n <= rowCount - offset && converted < TWO_32 && calls > old(calls) && faults >= old(faults)
      ensures streamed == old(streamed) + ArrayRows(entries, |columns|, offset, offset + n)
      ensures status in {Success, SuccessWithInfo} ==> n == rowCount - offset
      ensures 1 <= converted <= rowCount - offset ==> n == converted
      ensures status in {Error, OtherStatus} || (status == Continue && !(1 <= converted <= rowCount - offset)) ==>
        faults > old(faults)
    {
      calls, status := calls + 1, *;
      converted := *;
      converted := converted % TWO_32;
      var k: int := *;
      if status in {Success, SuccessWithInfo} {
        k, converted := rowCount - offset, rowCount - offset;
      } else if 1 <= converted <= rowCount - offset {
        k := converted;
      } else {
        k, faults := if 0 <= k <= rowCount - offset then k else 0, faults + 1;
      }
      if status in {Error, OtherStatus} {
        faults := faults + 1;
      }
      n := k;
      streamed := streamed + ArrayRows(entries, |columns|, offset, offset + k);
    }

    /** Sends the stream; a call that fails may have loaded some of its rows. */
    method LoadStream() returns (ok: bool, ghost sent: nat)
      requires phase == Prepared
      modifies this`loaded, this`calls, this`faults
      ensures calls >= old(calls) && sent <= |streamed| && loaded == old(loaded) + streamed[..sent]
      ensures ok ==> sent == |streamed|
      ensures faults >= old(faults) && (ok <==> faults == old(faults))
    {
      sent := 0;
      ok := Try(); // a check for an interrupt
      if ok {
        calls := calls + 1;
        ok := Try();
        var k: int := *;
        k := if ok || !(0 <= k <= |streamed|) then |streamed| else k;
        loaded, sent := loaded + streamed[..k], k;
      }
    }

    /* ---- Chunks ---- */

    /** Sets the entries of the column array for the rows of a chunk. */
    method FillArray(cells: seq<seq<Cell>>, offset: nat, rowCount: nat, ghost rows: seq<BulkRow>) returns (ok: bool)
      requires phase == Prepared && Transposes(cells, |columns|, rows) && offset + rowCount <= |rows|
      modifies this`entries, this`calls, this`faults
      ensures calls >= old(calls)
      ensures faults >= old(faults) && (!ok ==> faults > old(faults))
      ensures ok ==> Holds(entries, |columns|, rows[offset..offset + rowCount])
    {
      ok := true;
      var row := 0;
      while ok && row < rowCount
        invariant row <= rowCount && calls >= old(calls)
        invariant faults >= old(faults) && (!ok ==> faults > old(faults))
        invariant ok ==> Holds(entries, |columns|, rows[offset..offset + row])
        decreases ok, rowCount - row
      {
        ok := Try(); // a check for an interrupt
        if ok {
          ok := FillRow(cells, offset, row, rows);
        }
        row := row + 1;
      }
    }

    method FillRow(cells: seq<seq<Cell>>, offset: nat, row: nat, ghost rows: seq<BulkRow>) returns (ok: bool)
      requires phase == Prepared && Transposes(cells, |columns|, rows) && offset + row < |rows|
      requires Holds(entries, |columns|, rows[offset..offset + row])
      modifies this`entries, this`calls, this`faults
      ensures calls >= old(calls)
      ensures faults >= old(faults) && (!ok ==> faults > old(faults))
      ensures ok ==> Holds(entries, |columns|, rows[offset..offset + row + 1])
    {
      var column := 0;
      ok := true;
      while ok && column < |columns|
        invariant column <= |columns| && calls >= old(calls)
        invariant faults >= old(faults) && (!ok ==> faults > old(faults))
        invariant ok ==> Holds(entries, |columns|, rows[offset..offset + row])
        invariant ok ==> forall c :: 0 <= c < column ==>
          (row, c) in entries && entries[(row, c)] == cells[c][offset + row]
        decreases ok, |columns| - column
      {
        ok := SetEntry(row, column, cells[column][offset + row]);
        column := column + 1;
      }
    }

    /** Converts rows of the column array from `offset` on, and checks the count that the client reports. */
    method Convert(rowCount: nat, offset: nat, ghost rows: seq<BulkRow>) returns (ok: bool, next: nat, ghost taken: nat)
      requires phase == Prepared && offset < rowCount == |rows| < TWO_32 && Holds(entries, |columns|, rows)
      modifies this`streamed, this`converted, this`calls, this`faults
      ensures calls >= old(calls) && faults >= old(faults) && (!ok ==> faults > old(faults))
      ensures offset + taken <= rowCount && streamed == old(streamed) + rows[offset..offset + taken]
      ensures ok ==> offset < next == offset + taken
    {
      hide Holds, ArrayRows, Add32;
      next, taken := rowCount, 0;
      ok := Try(); // a check for an interrupt
      if !ok {
        return;
      }
      EntriesThere(entries, |columns|, rows);
      var status;
      status, taken := ToStream(rowCount, offset);
      EntriesRead(entries, |columns|, rows, offset, offset + taken);
      if status !in {Success, SuccessWithInfo, Continue} {
        return false, next, taken;
      }
      if status == Continue {
        ok := Try(); // reading the count
        if !ok {
          return;
        }
        next := Add32(offset, converted);
        WrappedSumCheck(offset, converted, rowCount);
        ok := !(next <= offset || next > rowCount);
      }
    }

    /** Converts and loads the rows of the column array, as many at a time as the client reports. */
    method ConvertAndLoad(rowCount: nat, ghost rows: seq<BulkRow>) returns (ok: bool, ghost turns: seq<Turn>)
      requires phase == Prepared && rowCount == |rows| < TWO_32 && Holds(entries, |columns|, rows) && rows != []
      modifies this`streamed, this`converted, this`loaded, this`calls, this`faults
      ensures calls >= old(calls)
      ensures faults >= old(faults) && (!ok ==> faults > old(faults))
      ensures var m := TurnsAfter(old(Flow()), rows, turns);
        Flow() == m.pipe && (ok <==> m.ok && m.offset == rowCount)
    {
      hide Holds, TurnAfter;
      turns := [];
      var offset: nat := 0;
      ok := true;
      while ok && offset < rowCount
        invariant offset <= rowCount && calls >= old(calls)
        invariant faults >= old(faults) && (!ok ==> faults > old(faults))
        invariant TurnsAfter(old(Flow()), rows, turns) == Moved(Flow(), offset, ok)
        decreases ok, rowCount - offset
      {
        var next;
        ghost var taken, sent, before, sends, at := 0, 0, Flow(), false, offset;
        ok, next, taken := Convert(rowCount, offset, rows);
        ghost var accepted := ok;
        if ok {
          ok, sent := LoadStream();
          sends, offset := ok, next;
          if ok && offset < rowCount {
            ok := ResetStream();
          }
        }
        ghost var t := Turn(taken, accepted, sends, sent, ok);
        TurnMade(before, at, rows, t, Flow(), offset, ok);
        assert (turns + [t])[..|turns|] == turns;
        turns := turns + [t];
      }
    }

    /** Loads a chunk of the rows. */
    method LoadChunk(cells: seq<seq<Cell>>, offset: nat, rowCount: nat, ghost rows: seq<BulkRow>)
      returns (ok: bool, ghost chunk: Chunk)
      requires phase == Prepared && Transposes(cells, |columns|, rows) && offset + rowCount <= |rows|
      requires 0 < rowCount <= maxRows < TWO_32
      modifies this`entries, this`streamed, this`converted, this`loaded, this`calls, this`used, this`faults
      ensures calls >= old(calls)
      ensures faults >= old(faults) && (!ok ==> faults > old(faults))
      ensures (Flow(), ok) == ChunkAfter(old(Flow()), rows[offset..offset + rowCount], chunk)
    {
      hide Transposes, Holds, TurnsAfter;
      ok := true;
      ghost var resets, turns: seq<Turn> := false, [];
      if used {
        ok := ResetArray();
        if ok {
          ok := ResetStream();
          resets := ok;
        }
      }
      if ok {
        ok := FillArray(cells, offset, rowCount, rows);
      }
      chunk := Chunk(resets, ok, []);
      if ok {
        ok, turns := ConvertAndLoad(rowCount, rows[offset..offset + rowCount]);
        chunk := chunk.(turns := turns);
      }
      if ok {
        used := true;
      }
    }

    /* ---- Blocks ---- */

    /** Checks the columns of a block and counts its rows. */
    method CountRows(block: Block) returns (count: Option<nat>)
      modifies this`faults
      ensures count.Some? ==> Shaped(columns, block, count.value)
      ensures faults >= old(faults)
      ensures count == None ==> faults > old(faults) || forall n :: !Shaped(columns, block, n)
    {
      if |block| != |columns| {
        return None;
      }
      var rows := -1;
      for i := 0 to |columns|
        invariant rows >= -1
        invariant forall c :: 0 <= c < i ==> columns[c].key in block
        invariant forall c :: 0 <= c < i && block[columns[c].key].Values? ==> |block[columns[c].key].values| == rows
        invariant rows == -1 <==> forall c :: 0 <= c < i ==> block[columns[c].key].Scalar?
        invariant faults >= old(faults)
        invariant rows >= 0 ==> exists c ::
          0 <= c < i && block[columns[c].key].Values? && |block[columns[c].key].values| == rows
      {
        var ok := Try(); // a check for an interrupt
        if !ok {
          return None;
        }
        if columns[i].key !in block {
          return None;
        }
        var entry := block[columns[i].key];
        if entry.Values? {
          if rows < 0 {
            rows := |entry.values|;
          } else if rows != |entry.values| {
            return None;
          }
        }
      }
      count := Some(if rows < 0 then 1 else rows);
    }

    /** The value for a row cannot be loaded in the column. */
    predicate Rejects(block: Block, c: nat, row: nat)
      reads this
      requires c < |columns| && columns[c].key in block
      requires block[columns[c].key].Values? ==> row < |block[columns[c].key].values|
    {
      Serialize(serializer, columns[c], EntryAt(block[columns[c].key], row)) == None
    }

    /** Serializes one column of a block. */
    method SerializeColumn(block: Block, count: nat, c: nat, payload: nat) returns (r: Option<seq<Cell>>, payload': nat)
      requires Shaped(columns, block, count) && c < |columns|
      modifies this`faults
      ensures faults >= old(faults)
      ensures r == None ==> faults > old(faults) || exists row :: 0 <= row < count && Rejects(block, c, row)
      ensures r.Some? ==> Serialized(serializer, columns[c], block[columns[c].key], r.value, count)
      ensures r.Some? ==> payload' == payload + TextBytes(r.value)
    {
      var field: seq<Cell> := [];
      payload' := payload;
      for row := 0 to count
        invariant faults >= old(faults)
        invariant Serialized(serializer, columns[c], block[columns[c].key], field, row)
        invariant payload' == payload + TextBytes(field)
      {
        var ok := Try(); // a check for an interrupt
        if !ok {
          return None, payload';
        }
        var cell := Serialize(serializer, columns[c], EntryAt(block[columns[c].key], row));
        if cell == None {
          assert Rejects(block, c, row);
          return None, payload';
        }
        if |cell.value.data| > SIZE_MAX - payload' {
          faults := faults + 1; // no memory holds such a block
          return None, payload';
        }
        assert (field + [cell.value])[..row] == field;
        field := field + [cell.value];
        payload' := payload' + |cell.value.data|;
      }
      r := Some(field);
    }

    /** Serializes a block column by column. */
    method SerializeBlock(block: Block, count: nat) returns (r: Option<seq<seq<Cell>>>, payload: nat)
      requires Shaped(columns, block, count)
      modifies this`faults
      ensures faults >= old(faults)
      ensures r == None ==>
        faults > old(faults) || exists c, row :: 0 <= c < |columns| && 0 <= row < count && Rejects(block, c, row)
      ensures r.Some? ==>
        && Rectangular(r.value, |columns|, count)
        && Transposes(r.value, |columns|, Rows(r.value, |columns|, count))
        && Encodes(serializer, columns, block, Rows(r.value, |columns|, count)) && payload == Payload(r.value)
    {
      hide Serialize, Serialized, Rows, Transposes, Encodes, TextBytes;
      var cells: seq<seq<Cell>> := [];
      payload := 0;
      for c := 0 to |columns|
        invariant |cells| == c && payload == Payload(cells) && faults >= old(faults)
        invariant forall i :: 0 <= i < c ==>
          Serialized(serializer, columns[i], block[columns[i].key], cells[i], count)
      {
        var field;
        field, payload := SerializeColumn(block, count, c, payload);
        if field == None {
          return None, payload;
        }
        assert (cells + [field.value])[..c] == cells;
        cells := cells + [field.value];
      }
      AllSerialized(serializer, columns, block, cells, count);
      r := Some(cells);
    }

    /** Checks and serializes a block; no call of the client is made before all of its fields are serialized. */
    method PrepareBlock(block: Block)
      returns (r: Option<seq<seq<Cell>>>, count: nat, payload: nat, ghost rows: seq<BulkRow>)
      modifies this`faults
      ensures r.Some? ==> Transposes(r.value, |columns|, rows) && Encodes(serializer, columns, block, rows)
      ensures r.Some? ==> |rows| == count && payload == BytesOf(rows)
      ensures faults >= old(faults)
      ensures r == None ==> faults > old(faults) || forall rows :: !Encodes(serializer, columns, block, rows)
    {
      hide Shaped, Encodes, Transposes;
      r, count, payload, rows := None, 0, 0, [];
      var counted := CountRows(block);
      if counted.Some? {
        count := counted.value;
        r, payload := SerializeBlock(block, count);
        if r.Some? {
          rows := Rows(r.value, |columns|, count);
          PayloadIsBytes(r.value, |columns|, rows);
        } else if c, row :| 0 <= c < |columns| && 0 <= row < count && Rejects(block, c, row) {
          NotEncoded(serializer, columns, block, count, c, row);
        }
      } else {
        NotShaped(serializer, columns, block);
      }
    }

    /** Serializes a block and loads its rows. */
    method SendBlock(block: Block) returns (ok: bool, ghost complete: bool, ghost run: BlockRun)
      requires phase == Prepared && 0 < maxRows < TWO_32 && stream.Valid()
      modifies this`entries, this`streamed, this`converted, this`loaded, this`calls, this`used, this`faults, stream
      ensures stream.Valid() && stream.started == old(stream.started) && old(stream.reports) <= stream.reports
      ensures !stream.started ==> stream.reports == old(stream.reports)
      ensures (Flow(), complete) == BlockAfter(old(Flow()), run, maxRows)
      ensures if run.prepared then Encodes(serializer, columns, block, run.rows) else run.rows == []
      ensures stream.consumed ==
        if complete && stream.started then Count(old(stream.consumed), BytesOf(run.rows)) else old(stream.consumed)
      ensures (stream.ok <==> old(stream.ok) && ok) && (ok ==> complete && run.prepared)
      ensures calls >= old(calls) && faults >= old(faults) && stream.faults >= old(stream.faults)
      ensures calls > old(calls) ==> run.prepared
      ensures !complete ==> faults > old(faults) || forall rows :: !Encodes(serializer, columns, block, rows)
      ensures complete && !ok ==>
        stream.started && (BytesOf(run.rows) > INT64_MAX - old(stream.consumed) || stream.faults > old(stream.faults))
      ensures ok && stream.started ==> stream.consumed == old(stream.consumed) + BytesOf(run.rows)
    {
      hide Encodes, Shaped, Running, Ended, Transposes, Reported, BytesOf, BlockAfter;
      ok, complete, run := false, false, BlockRun([], false, []);
      var cells, count, size;
      ghost var rows: seq<BulkRow>;
      ghost var p := Flow();
      cells, count, size, rows := PrepareBlock(block);
      if cells.Some? {
        ghost var chunks;
        ok, complete, chunks := LoadCells(cells.value, count, size, rows);
        run := BlockRun(rows, true, chunks);
      } else {
        NotPrepared(p, run, maxRows);
        stream.SetError();
      }
    }

    /** Loads a block of rows. */
    method LoadRows(block: Block) returns (ok: bool, ghost run: BlockRun)
      requires Active()
      modifies this`entries, this`streamed, this`converted, this`loaded, this`calls, this`used, this`faults
      modifies this`history, stream
      ensures Active() && history == old(history) + [Call(block, run, ok)]
      ensures stream.ok <==> old(stream.ok) && ok
      ensures !ok ==>
        || faults > old(faults) || stream.faults > old(stream.faults)
        || (forall rows :: !Encodes(serializer, columns, block, rows))
        || (stream.started && BytesOf(run.rows) > INT64_MAX - old(stream.consumed))
      ensures calls > old(calls) || ok || run.rows != [] ==> Encodes(serializer, columns, block, run.rows)
      ensures old(loaded) <= loaded <= old(loaded) + old(Stale()) + run.rows
        && (run.rows == [] ==> Flow() == old(Flow()))
      ensures ok && run.rows != [] ==> loaded == old(loaded) + old(Stale()) + run.rows && Stale() == []
      ensures old(stream.ok) ==>
        old(loaded) <= loaded <= old(loaded) + run.rows && (ok ==> loaded == old(loaded) + run.rows && Stale() == [])
      ensures stream.started == old(stream.started) && old(stream.reports) <= stream.reports
      ensures ok && stream.started ==> stream.consumed == old(stream.consumed) + BytesOf(run.rows)
      ensures faults >= old(faults) && stream.faults >= old(stream.faults)
    {
      hide Encodes, Running, Ended, Reported, BytesOf, BlockAfter, RunAfter, Counted, Recorded, NothingRefused, AllOk;
      AllOkExact(serializer, columns, history, maxRows);
      ghost var before, p := history, Flow();
      ghost var complete;
      ok, complete, run := SendBlock(block);
      ghost var call := Call(block, run, ok);
      history := history + [call];
      AllOkMore(before, call);
      CallRecorded(serializer, columns, before, call, maxRows);
      BlockLoads(p, run, maxRows);
      assert p.Stale() == [] ==> p.loaded + p.Stale() == p.loaded;
    }

    /** Loads serialized rows; `complete` says that all of them were loaded, whether or not counting them failed. */
    method LoadCells(cells: seq<seq<Cell>>, count: nat, payload: nat, ghost rows: seq<BulkRow>)
      returns (ok: bool, ghost complete: bool, ghost chunks: seq<Chunk>)
      requires phase == Prepared && 0 < maxRows < TWO_32 && stream.Valid()
      requires Transposes(cells, |columns|, rows) && count == |rows| && payload == BytesOf(rows)
      modifies this`entries, this`streamed, this`converted, this`loaded, this`calls, this`used, this`faults, stream
      ensures stream.Valid() && stream.started == old(stream.started) && old(stream.reports) <= stream.reports
      ensures !stream.started ==> stream.reports == old(stream.reports)
      ensures (Flow(), complete) == BlockAfter(old(Flow()), BlockRun(rows, true, chunks), maxRows)
      ensures stream.consumed ==
        if complete && stream.started then Count(old(stream.consumed), BytesOf(rows)) else old(stream.consumed)
      ensures stream.ok <==> old(stream.ok) && ok
      ensures (ok ==> complete) && calls >= old(calls) && faults >= old(faults) && stream.faults >= old(stream.faults)
      ensures !complete ==> faults > old(faults)
      ensures complete && !ok ==>
        stream.started && (BytesOf(rows) > INT64_MAX - old(stream.consumed) || stream.faults > old(stream.faults))
      ensures ok && stream.started ==> stream.consumed == old(stream.consumed) + BytesOf(rows)
    {
      hide Running, Ended, Transposes, Reported, ChunksAfter;
      ok, complete, chunks := true, true, [];
      if count > 0 {
        ok, chunks := LoadChunks(cells, count, rows);
        complete := ok;
        if ok {
          ok := stream.AddBytes(payload);
        } else {
          stream.SetError();
        }
      }
    }

    /** Loads the rows in chunks of at most the rows of the column array. */
    method LoadChunks(cells: seq<seq<Cell>>, count: nat, ghost rows: seq<BulkRow>)
      returns (ok: bool, ghost chunks: seq<Chunk>)
      requires phase == Prepared && 0 < maxRows < TWO_32
      requires Transposes(cells, |columns|, rows) && count == |rows| && count > 0
      modifies this`entries, this`streamed, this`converted, this`loaded, this`calls, this`used, this`faults
      ensures calls >= old(calls) && faults >= old(faults) && (!ok ==> faults > old(faults))
      ensures var m := ChunksAfter(old(Flow()), rows, maxRows, chunks);
        Flow() == m.pipe && (ok <==> m.ok && m.offset == count)
    {
      hide Transposes, ChunkAfter;
      chunks := [];
      var offset: nat := 0;
      ok := true;
      while ok && offset < count
        invariant offset <= count && calls >= old(calls)
        invariant faults >= old(faults) && (!ok ==> faults > old(faults))
        invariant ChunksAfter(old(Flow()), rows, maxRows, chunks) == Moved(Flow(), offset, ok)
        decreases ok, count - offset
      {
        var size := if maxRows < count - offset then maxRows else count - offset;
        ghost var chunk;
        ok, chunk := LoadChunk(cells, offset, size, rows);
        offset := offset + size;
        assert (chunks + [chunk])[..|chunks|] == chunks;
        chunks := chunks + [chunk];
      }
    }

    /* ---- Begin and end ---- */

    /** Describes the columns to load: 0, or 1 if this path cannot load one of them, or -1 for an error. */
    method DescribeColumns(list: seq<ListItem>, meta: seq<Meta>) returns (rc: int, ghost indices: seq<nat>)
      requires columns == []
      modifies this`columns, this`faults
      ensures rc in {0, 1, -1} && faults >= old(faults)
      ensures rc == -1 ==> faults > old(faults) || !Nameable(list, meta)
      ensures rc == 0 ==> |columns| == |indices| == |list| && Described(columns, list, meta, indices)
      ensures rc == 0 ==> forall i, j :: 0 <= i < j < |indices| ==> indices[i] != indices[j]
      ensures rc == 1 ==> exists i :: 0 <= i < |list| && Unloadable(list[i], meta)
    {
      var usedColumns: set<nat> := {};
      indices := [];
      for i := 0 to |list|
        invariant |columns| == |indices| == i && Described(columns, list[..i], meta, indices)
        invariant faults == old(faults)
        invariant usedColumns == set k | k in indices
        invariant forall j, k :: 0 <= j < k < |indices| ==> indices[j] != indices[k]
      {
        if list[i].OtherItem? {
          return -1, indices;
        }
        var ok, interrupted, normalized := ParseIdentifier(list[i].text, false);
        if interrupted {
          faults := faults + 1;
        }
        if !ok {
          rc := if interrupted then -1 else 1;
          return;
        }
        var index := FindColumn(meta, normalized);
        if index == None || index.value in usedColumns {
          return -1, indices;
        }
        if !meta[index.value].loadable {
          return 1, indices;
        }
        usedColumns := usedColumns + {index.value};
        columns := columns + [Column(list[i].text, meta[index.value].name, meta[index.value].maxSize)];
        indices := indices + [index.value];
      }
      assert list[..|list|] == list;
      rc := 0;
    }

    /** The result of setting up a load, and why it is not 0. */
    ghost predicate SetUp(table: string, list: seq<ListItem>, meta: Option<seq<Meta>>, rc: int)
      reads this, stream
    {
      && rc in {0, 1, -1}
      && (rc == -1 ==> faults > 0 || stream.faults > 0 || |list| > 65535 || meta == None || !Nameable(list, meta.value))
      && (rc == 1 ==>
            !IsName(table, true) || (meta.Some? && exists i :: 0 <= i < |list| && Unloadable(list[i], meta.value)))
    }

    /** Sets up the direct path: 0, or 1 if this path cannot be used, or -1 for an error. */
    method Initialize(table: string, list: seq<ListItem>, meta: Option<seq<Meta>>) returns (rc: int)
      requires Untouched()
      modifies this, stream
      ensures Valid() && SetUp(table, list, meta, rc) && history == []
      ensures rc == 0 ==> Began() && IsName(table, true)
      ensures rc == 1 ==> phase == NoContext && calls == 0 && stream.reports == [] && !stream.started
    {
      hide Running, Ended, Reported, RunAfter, Counted, Recorded, NothingRefused, AllOk, Runs;
      hide IsName, Nameable, Unloadable, Described;
      var ok, interrupted, normalized := ParseIdentifier(table, true);
      if interrupted {
        faults := faults + 1;
      }
      if !ok {
        return if interrupted then -1 else 1;
      }
      if |list| > 65535 || meta == None {
        return -1;
      }
      ghost var indices;
      rc, indices := DescribeColumns(list, meta.value);
      if rc == 0 {
        calls, rc := calls + 1, -1;
        ok := Try();
        if ok {
          context, phase := true, Allocated; // the context handle
          rc := Setup();
        }
      }
      EmptyIsValid();
    }

    /** An active load that nothing was loaded with yet. */
    ghost predicate Began()
      reads this, stream
    {
      && Active() && history == [] && loaded == [] && Stale() == [] && stream.ok && stream.consumed == 0
      && stream.reports == if stream.started then [Begin] else []
    }

    /** No block was given to the load, whatever is set up already. */
    ghost predicate Empty()
      reads this, stream
    {
      && Flow() == FRESH && history == [] && !committed && stream.Valid() && stream.ok && stream.consumed == 0
      && (prepared <==> phase == Prepared) && (context <==> phase in {Allocated, Prepared})
      && phase in {NoContext, Allocated, Prepared}
      && (stream.started ==> prepared) && (if stream.started then stream.reports == [Begin] else stream.reports == [])
    }

    lemma EmptyIsValid()
      requires Empty()
      ensures Valid() && (prepared && 0 < maxRows < TWO_32 ==> Began())
    {
      hide Running, Ended, Reported, Recorded, NothingRefused;
      NothingRecorded(serializer, columns, maxRows);
    }

    method Setup() returns (rc: int)
      requires Empty() && !stream.started && phase == Allocated
      modifies this`calls, this`phase, this`prepared, this`maxRows, this`faults, stream
      ensures Empty() && rc in {0, -1} && faults >= old(faults)
      ensures if rc == 0 then prepared && 0 < maxRows < TWO_32 else faults > old(faults) || stream.faults > 0
    {
      calls, rc := calls + 1, -1;
      var ok := Try(); // the attributes of the context and of the columns
      if ok {
        calls := calls + 1;
        ok := Try();
      }
      if ok {
        phase, prepared := Prepared, true;
        calls := calls + 1;
        ok := Try(); // the column array, the stream and the number of rows that they take
        maxRows := *;
        maxRows := maxRows % TWO_32;
        if ok && maxRows == 0 {
          ok, faults := false, faults + 1;
        }
        if ok {
          ok := stream.BeginStream();
          rc := if ok then 0 else -1;
        }
      }
    }

    method DirPathFinish() returns (ok: bool)
      requires phase == Prepared
      modifies this`phase, this`committed, this`calls, this`faults
      ensures committed == ok && phase == (if ok then Finished else FinishFailed) && faults >= old(faults)
        && (ok <==> faults == old(faults))
    {
      calls := calls + 1;
      ok := Try();
      committed, phase := ok, if ok then Finished else FinishFailed;
    }

    method DirPathAbort() returns (ok: bool)
      requires phase in {Prepared, FinishFailed}
      modifies this`phase, this`calls, this`faults
      ensures phase == Aborted && faults >= old(faults) && (ok <==> faults == old(faults))
    {
      calls, phase := calls + 1, Aborted;
      ok := Try();
    }

    /** Finishes or aborts a load that is prepared; a load that cannot be finished is aborted. */
    method EndPath(wanted: bool) returns (success: bool, cleanup: bool)
      requires phase == Prepared && prepared && context && !committed
      modifies this`phase, this`committed, this`calls, this`prepared, this`faults
      ensures !prepared && phase in {Finished, Aborted} && (committed <==> phase == Finished) && faults >= old(faults)
      ensures (success && cleanup <==> committed) && (committed ==> wanted)
      ensures if cleanup then committed == wanted else faults > old(faults)
    {
      success, cleanup := wanted, true;
      var done := Try(); // a check for an interrupt
      if !done {
        success, cleanup := false, false;
      }
      if success {
        done := DirPathFinish();
      } else {
        done := DirPathAbort();
      }
      prepared := false;
      if !done {
        cleanup := false;
        if success {
          done := DirPathAbort();
        }
      }
    }

    /** Finishes or aborts the load and ends the stream. */
    method Terminate(wanted: bool, sink: bool) returns (ok: bool)
      requires Valid()
      modifies this`phase, this`committed, this`calls, this`prepared, this`faults, stream
      ensures Valid() && !prepared && !stream.started && faults >= old(faults) && stream.faults >= old(stream.faults)
      ensures !ok ==> sink || faults > old(faults) || stream.faults > old(stream.faults)
      ensures old(prepared) ==> phase in {Finished, Aborted} && (phase == Finished ==> wanted)
      ensures !old(prepared) ==> phase == old(phase)
      ensures !old(stream.started) ==> stream.reports == old(stream.reports)
      ensures old(stream.started) ==>
        && Ended(stream.reports) && |stream.reports| == |old(stream.reports)| + 1
        && stream.reports[|stream.reports| - 1].total == Counted(Runs(history), maxRows)
        && (stream.reports[|stream.reports| - 1].ok ==> phase == Finished && old(stream.ok))
      ensures ok ==> (old(prepared) ==> (phase == Finished <==> wanted)) && !sink
    {
      hide Running, Reported, RunAfter, Counted, Recorded, NothingRefused, AllOk, Runs;
      var success, cleanup := wanted, true;
      if prepared {
        success, cleanup := EndPath(wanted);
      }
      var reported := stream.Finish(success && cleanup);
      ok := cleanup && reported && !sink;
    }

    /** Frees the handles; a load that is still prepared is aborted first. */
    method Destroy()
      requires Valid()
      modifies this`phase, this`calls, this`prepared, this`context, this`faults, stream
      ensures Retired() && committed == old(committed) && faults >= old(faults) && stream.faults >= old(stream.faults)
      ensures old(phase) == NoContext ==> phase == NoContext && calls == old(calls)
      ensures !old(stream.started) ==> stream.reports == old(stream.reports)
    {
      hide Running, Reported, RunAfter, Counted, Recorded, NothingRefused, AllOk, Runs;
      if prepared && context {
        var ok := DirPathAbort();
        prepared := false;
      }
      FreeHandles();
      if stream.started {
        var reported := stream.Finish(false);
      }
    }

    /** What ending a load does: it is committed only if that was wanted, and surely if the end succeeded, which only a
        failure prevents; what was loaded stays. */
    twostate predicate EndedAs(wanted: bool, sink: bool, ok: bool)
      reads this, stream
    {
      && loaded == old(loaded) && history == old(history)
      && (committed ==> wanted) && (ok ==> committed == wanted && !sink)
      && (!ok ==> sink || faults > old(faults) || stream.faults > old(stream.faults))
    }

    /** Ends an active load and frees its handles. */
    method EndLoad(wanted: bool, sink: bool) returns (ok: bool)
      requires Active()
      modifies this`phase, this`committed, this`calls, this`prepared, this`context, this`faults, stream
      ensures Retired() && EndedAs(wanted, sink, ok)
    {
      hide Records, Reports, Explains, Retired, Stream.Valid;
      ok := Terminate(wanted, sink);
      Destroy();
    }

    method FreeHandles()
      requires phase !in {Prepared, FinishFailed} && (context <==> phase in {Allocated, Finished, Aborted})
      modifies this`phase, this`context
      ensures !context && phase == if old(context) then Freed else old(phase)
    {
      if context {
        context, phase := false, Freed;
      }
    }

    /** A call of the client or a report failed. */
    ghost predicate Faulty()
      reads this, stream
    {
      faults > 0 || stream.faults > 0
    }

    /** If all blocks of the load succeeded, exactly the rows that they stand for were loaded, in order; without
        failures of the client all blocks that can be encoded are. */
    ghost predicate Exact()
      reads this, stream
    {
      && (AllOk(history) ==> loaded == Concat(Runs(history)))
      && (forall k :: 0 <= k < |history| && history[k].ok ==>
            Encodes(serializer, columns, history[k].block, history[k].run.rows))
      && (!Faulty() ==> NothingRefused(serializer, columns, history, maxRows))
    }

    lemma RecordsExact()
      requires Records() && Explains()
      ensures Exact()
    {
      hide NothingRefused, BlockAfter, Complete, Encodes;
      if history != [] {
        hide RunAfter, Concat;
        AllOkExact(serializer, columns, history, maxRows);
      }
    }

    /** A load that is over: nothing is left prepared or allocated, and a stream that began has ended. */
    ghost predicate Retired()
      reads this, stream
    {
      && phase in {NoContext, Freed} && !stream.started && (stream.reports == [] || Ended(stream.reports))
      && Reports() && Records() && Explains()
    }
  }

  /* ---- The blocks of a load ---- */

  /** A block that was given to a load, what was done with it, and what the caller was told. */
  datatype Call = Call(block: Block, run: BlockRun, ok: bool)

  function Runs(history: seq<Call>): (runs: seq<BlockRun>)
    ensures |runs| == |history|
  {
    seq(|history|, k requires 0 <= k < |history| => history[k].run)
  }

  /** Rows that were serialized are those that the block stands for, and a call that succeeded loaded all of them. */
  ghost predicate CallOk(serializer: Serializer, columns: seq<Column>, before: seq<Call>, c: Call, max: nat) {
    && (if c.run.prepared then Encodes(serializer, columns, c.block, c.run.rows) else c.run.rows == [])
    && (c.ok ==> c.run.prepared && Complete(Runs(before), c.run, max))
  }

  ghost predicate Recorded(serializer: Serializer, columns: seq<Column>, history: seq<Call>, max: nat) {
    forall k :: 0 <= k < |history| ==> CallOk(serializer, columns, history[..k], history[k], max)
  }

  /** The block can be encoded, but its rows were not all loaded. */
  ghost predicate Refused(serializer: Serializer, columns: seq<Column>, before: seq<Call>, c: Call, max: nat) {
    (exists rows :: Encodes(serializer, columns, c.block, rows)) && !Complete(Runs(before), c.run, max)
  }

  /** Without failures of the client, all blocks that can be encoded are loaded. */
  ghost predicate NothingRefused(serializer: Serializer, columns: seq<Column>, history: seq<Call>, max: nat) {
    forall k :: 0 <= k < |history| ==> !Refused(serializer, columns, history[..k], history[k], max)
  }

  predicate AllOk(history: seq<Call>) {
    forall k :: 0 <= k < |history| ==> history[k].ok
  }

  lemma NothingRecorded(serializer: Serializer, columns: seq<Column>, max: nat)
    ensures RunAfter(Runs([]), max) == FRESH && Counted(Runs([]), max) == 0 && AllOk([])
    ensures Recorded(serializer, columns, [], max) && NothingRefused(serializer, columns, [], max)
  {
  }

  lemma AllOkMore(history: seq<Call>, c: Call)
    ensures AllOk(history + [c]) <==> AllOk(history) && c.ok
  {
    assert (history + [c])[|history|] == c;
    assert forall k :: 0 <= k < |history| ==> (history + [c])[k] == history[k];
  }

  lemma RunsMore(history: seq<Call>, c: Call)
    ensures Runs(history + [c]) == Runs(history) + [c.run]
  {
  }

  lemma CallRecorded(serializer: Serializer, columns: seq<Column>, history: seq<Call>, c: Call, max: nat)
    ensures Recorded(serializer, columns, history, max) && CallOk(serializer, columns, history, c, max) ==>
      Recorded(serializer, columns, history + [c], max)
    ensures NothingRefused(serializer, columns, history, max) && !Refused(serializer, columns, history, c, max) ==>
      NothingRefused(serializer, columns, history + [c], max)
    ensures RunAfter(Runs(history + [c]), max) == BlockAfter(RunAfter(Runs(history), max), c.run, max).0
    ensures Counted(Runs(history + [c]), max) ==
      if Complete(Runs(history), c.run, max) then Count(Counted(Runs(history), max), BytesOf(c.run.rows))
      else Counted(Runs(history), max)
  {
    hide CallOk, Refused, BlockAfter, Complete, BytesOf;
    var all := history + [c];
    RunsMore(history, c);
    assert Runs(all)[..|history|] == Runs(history);
    assert forall k :: 0 <= k < |history| ==> all[..k] == history[..k];
    assert all[..|history|] == history;
  }

  /** A load whose blocks all succeeded has loaded exactly the rows that they stand for, in order. */
  lemma AllOkExact(serializer: Serializer, columns: seq<Column>, history: seq<Call>, max: nat)
    requires max > 0 && Recorded(serializer, columns, history, max)
    ensures AllOk(history) ==>
      var p := RunAfter(Runs(history), max); p.loaded == Concat(Runs(history)) && p.Stale() == []
  {
    hide Encodes, Complete, RunAfter, Concat;
    if AllOk(history) {
      forall k | 0 <= k < |history| ensures Complete(Runs(history)[..k], Runs(history)[k], max) {
        assert CallOk(serializer, columns, history[..k], history[k], max);
        assert Runs(history)[..k] == Runs(history[..k]);
      }
      LoadExact(Runs(history), max);
    }
  }

  lemma NotPrepared(p: Pipe, b: BlockRun, max: nat)
    requires !b.prepared && b.rows == []
    ensures BlockAfter(p, b, max) == (p, false)
  {
  }

  lemma TurnMade(p: Pipe, at: nat, rows: seq<BulkRow>, t: Turn, q: Pipe, next: nat, ok: bool)
    requires at < |rows| && at + t.taken <= |rows|
    requires var s := p.streamed + rows[at..at + t.taken];
      if !t.accepted then q == p.(streamed := s) && next == at && !ok
      else
        && t.taken > 0 && next == at + t.taken && q.used == p.used && t.sent <= |s|
        && q.loaded == p.loaded + s[..t.sent]
        && (t.sends ==> t.sent == |s|) && t.resets == ok
        && if !t.sends then !ok && q.streamed == s
           else if next == |rows| then ok && q.streamed == s
           else q.streamed == if ok then [] else s
    ensures TurnAfter(Moved(p, at, true), rows, t) == Moved(q, next, ok)
  {
    var s := p.streamed + rows[at..at + t.taken];
    assert s[..|s|] == s;
  }

  datatype ListItem = TextItem(text: string) | OtherItem

  /** What the server says about a column of the table; `loadable`: its type can be loaded through this path. */
  datatype Meta = Meta(name: string, maxSize: nat, loadable: bool)

  /** The first column with this upper-case name; a column with another name was quoted. */
  function FindColumn(meta: seq<Meta>, name: string): (r: Option<nat>)
    ensures r.Some? ==> r.value < |meta| && meta[r.value].name == name
    ensures r.Some? ==> forall i :: 0 <= i < r.value ==> meta[i].name != name
    ensures r == None ==> forall i :: 0 <= i < |meta| ==> meta[i].name != name
  {
    if meta == [] then None
    else
      match FindColumn(meta[..|meta| - 1], name)
      case Some(i) => Some(i)
      case None => if meta[|meta| - 1].name == name then Some(|meta| - 1) else None
  }

  /** The list consists of texts, and those that are simple identifiers name different columns of the table. */
  predicate Nameable(list: seq<ListItem>, meta: seq<Meta>) {
    && (forall i :: 0 <= i < |list| ==> list[i].TextItem?)
    && (forall i :: 0 <= i < |list| && IsName(list[i].text, false) ==> FindColumn(meta, UpperText(list[i].text)).Some?)
    && forall i, j :: 0 <= i < j < |list| && IsName(list[i].text, false) && IsName(list[j].text, false) ==>
         FindColumn(meta, UpperText(list[i].text)) != FindColumn(meta, UpperText(list[j].text))
  }

  /** The columns are those of the table that the list names, in the order of the list. */
  predicate Described(columns: seq<Column>, list: seq<ListItem>, meta: seq<Meta>, indices: seq<nat>) {
    && |columns| == |indices| == |list|
    && forall i :: 0 <= i < |list| ==>
         && list[i].TextItem? && IsName(list[i].text, false)
         && FindColumn(meta, UpperText(list[i].text)) == Some(indices[i]) && meta[indices[i]].loadable
         && columns[i] == Column(list[i].text, meta[indices[i]].name, meta[indices[i]].maxSize)
  }

  /** A name that is not a simple identifier, or a column of a type that this path does not load. */
  predicate Unloadable(item: ListItem, meta: seq<Meta>) {
    && item.TextItem?
    && (IsName(item.text, false) ==>
          FindColumn(meta, UpperText(item.text)).Some? && !meta[FindColumn(meta, UpperText(item.text)).value].loadable)
  }

  const SIZE_MAX: nat := 0xffff_ffff_ffff_ffff

  /** The fields of a column for its first `count` rows. */
  predicate Serialized(serializer: Serializer, column: Column, entry: Entry, field: seq<Cell>, count: nat)
    requires entry.Values? ==> count <= |entry.values|
  {
    |field| == count && forall r :: 0 <= r < count ==>
      Serialize(serializer, column, EntryAt(entry, r)) == Some(field[r])
  }

  function TextBytes(field: seq<Cell>): nat {
    if field == [] then 0 else TextBytes(field[..|field| - 1]) + |field[|field| - 1].data|
  }

  /** The bytes of a block. */
  function Payload(cells: seq<seq<Cell>>): nat {
    if cells == [] then 0 else Payload(cells[..|cells| - 1]) + TextBytes(cells[|cells| - 1])
  }

  predicate Rectangular(cells: seq<seq<Cell>>, width: nat, count: nat) {
    |cells| == width && forall c :: 0 <= c < width ==> |cells[c]| == count
  }

  /** The rows of the fields of a block. */
  function Rows(cells: seq<seq<Cell>>, width: nat, count: nat): (rows: seq<BulkRow>)
    requires Rectangular(cells, width, count)
    ensures |rows| == count
  {
    seq(count, r requires 0 <= r < count => seq(width, c requires 0 <= c < width => cells[c][r]))
  }

  /** All encodings of a block have the same number of rows, so a value that is rejected leaves it without one. */
  lemma NotEncoded(serializer: Serializer, columns: seq<Column>, block: Block, count: nat, c: nat, row: nat)
    requires Shaped(columns, block, count) && c < |columns| && row < count
    requires Serialize(serializer, columns[c], EntryAt(block[columns[c].key], row)) == None
    ensures forall rows :: !Encodes(serializer, columns, block, rows)
  {
    forall rows ensures !Encodes(serializer, columns, block, rows) {
      if Encodes(serializer, columns, block, rows) {
        OneCount(columns, block, count, |rows|);
        EncodedCell(serializer, columns, block, rows, row, c);
      }
    }
  }

  lemma EncodedCell(serializer: Serializer, columns: seq<Column>, block: Block, rows: seq<BulkRow>, r: nat, c: nat)
    requires Encodes(serializer, columns, block, rows) && r < |rows| && c < |columns|
    ensures Serialize(serializer, columns[c], EntryAt(block[columns[c].key], r)).Some?
  {
    assert FieldAt(serializer, columns[c], block[columns[c].key], r, rows[r][c]);
    SerializedField(serializer, columns[c], block[columns[c].key], r);
  }

  lemma OneCount(columns: seq<Column>, block: Block, m: nat, n: nat)
    requires Shaped(columns, block, m) && Shaped(columns, block, n)
    ensures m == n
  {
  }

  lemma NotShaped(serializer: Serializer, columns: seq<Column>, block: Block)
    ensures (forall n :: !Shaped(columns, block, n)) ==> forall rows :: !Encodes(serializer, columns, block, rows)
  {
  }

  lemma AllSerialized(serializer: Serializer, columns: seq<Column>, block: Block, cells: seq<seq<Cell>>, count: nat)
    requires Shaped(columns, block, count) && |cells| == |columns|
    requires forall c :: 0 <= c < |columns| ==>
      Serialized(serializer, columns[c], block[columns[c].key], cells[c], count)
    ensures Rectangular(cells, |columns|, count) && Transposes(cells, |columns|, Rows(cells, |columns|, count))
    ensures Encodes(serializer, columns, block, Rows(cells, |columns|, count))
  {
    var rows := Rows(cells, |columns|, count);
    hide Serialize, EntryAt, FieldAt;
    forall r, c | 0 <= r < count && 0 <= c < |columns|
      ensures FieldAt(serializer, columns[c], block[columns[c].key], r, rows[r][c])
    {
      SerializedField(serializer, columns[c], block[columns[c].key], r);
      assert Serialize(serializer, columns[c], EntryAt(block[columns[c].key], r)) == Some(cells[c][r]);
    }
  }

  /** The bytes of the fields of a block are those of its rows. */
  lemma {:induction false} PayloadIsBytes(cells: seq<seq<Cell>>, width: nat, rows: seq<BulkRow>)
    requires Transposes(cells, width, rows)
    ensures Payload(cells) == BytesOf(rows)
    decreases |rows|
  {
    if rows == [] {
      NoBytes(cells);
    } else {
      var n := |rows| - 1;
      var before := seq(width, c requires 0 <= c < width => cells[c][..n]);
      PayloadIsBytes(before, width, rows[..n]);
      LastRowBytes(cells, before, rows[n], n);
    }
  }

  lemma {:induction false} NoBytes(cells: seq<seq<Cell>>)
    requires forall c :: 0 <= c < |cells| ==> cells[c] == []
    ensures Payload(cells) == 0
  {
    if cells != [] {
      NoBytes(cells[..|cells| - 1]);
    }
  }

  lemma {:induction false} LastRowBytes(cells: seq<seq<Cell>>, before: seq<seq<Cell>>, row: BulkRow, n: nat)
    requires |cells| == |before| == |row|
    requires forall c :: 0 <= c < |cells| ==> |cells[c]| == n + 1 && before[c] == cells[c][..n] && cells[c][n] == row[c]
    ensures Payload(cells) == Payload(before) + RowBytes(row)
  {
    if cells != [] {
      var w := |cells| - 1;
      LastRowBytes(cells[..w], before[..w], row[..w], n);
    }
  }

  lemma EntriesThere(entries: map<(nat, nat), Cell>, width: nat, rows: seq<BulkRow>)
    requires Holds(entries, width, rows)
    ensures forall r, c :: 0 <= r < |rows| && 0 <= c < width ==> (r, c) in entries
  {
  }

  lemma EntriesRead(entries: map<(nat, nat), Cell>, width: nat, rows: seq<BulkRow>, from: nat, to: nat)
    requires Holds(entries, width, rows) && from <= to <= |rows|
    ensures forall r, c :: from <= r < to && 0 <= c < width ==> (r, c) in entries
    ensures ArrayRows(entries, width, from, to) == rows[from..to]
  {
    var read := ArrayRows(entries, width, from, to);
    forall r | 0 <= r < to - from ensures read[r] == rows[from..to][r] {
      assert rows[from..to][r] == rows[from + r];
      forall c | 0 <= c < width ensures read[r][c] == rows[from + r][c] {
        assert (from + r, c) in entries;
      }
    }
  }

  /** The fields, column by column, of rows with `width` columns. */
  predicate Transposes(cells: seq<seq<Cell>>, width: nat, rows: seq<BulkRow>) {
    && |cells| == width && (forall c :: 0 <= c < width ==> |cells[c]| == |rows|)
    && (forall r :: 0 <= r < |rows| ==> |rows[r]| == width)
    && forall r, c :: 0 <= r < |rows| && 0 <= c < width ==> cells[c][r] == rows[r][c]
  }

  /** The column array has these rows. */
  predicate Holds(entries: map<(nat, nat), Cell>, width: nat, rows: seq<BulkRow>) {
    && (forall r :: 0 <= r < |rows| ==> |rows[r]| == width)
    && forall r, c :: 0 <= r < |rows| && 0 <= c < width ==> (r, c) in entries && entries[(r, c)] == rows[r][c]
  }

  /* ---- The connection's loads ---- */

  class Connection {
    const serializer: Serializer
    var bulkLoad: LoadState?
    ghost var retired: set<LoadState> // the loads that are over

    /** The load of the connection is active, and every other one that was ever set up is over. */
    ghost predicate Valid()
      reads this, bulkLoad, retired, set s | s in retired :: s.stream
      reads if bulkLoad != null then {bulkLoad.stream} else {}
    {
      && (bulkLoad != null ==> bulkLoad !in retired && bulkLoad.Active() && bulkLoad.serializer == serializer)
      && (bulkLoad != null ==> forall s :: s in retired ==> s.stream != bulkLoad.stream)
      && forall s :: s in retired ==> s.Retired() && s.serializer == serializer
    }

    constructor (serializer: Serializer)
      ensures Valid() && bulkLoad == null && retired == {} && this.serializer == serializer
    {
      this.serializer, bulkLoad, retired := serializer, null, {};
    }

    /** Begins a load: 0, or 1 if the caller is to use another path, or -1 for an error. */
    method BulkLoadBegin(table: string, list: seq<ListItem>, meta: Option<seq<Meta>>, options: Option<bool>)
      returns (rc: int, ghost state: LoadState?)
      requires Valid()
      modifies this
      ensures Valid() && rc in {0, 1, -1}
      ensures if old(bulkLoad) != null || options == None then rc == -1 && state == null
              else
                && state != null && fresh({state, state.stream}) && state.SetUp(table, list, meta, rc)
                && state.history == []
      ensures if rc == 0 then bulkLoad == state && state.Began() && retired == old(retired)
              else bulkLoad == old(bulkLoad) && retired == old(retired) + (if state == null then {} else {state})
      ensures rc == 1 ==> state.phase == NoContext && state.calls == 0 && state.stream.reports == []
    {
      hide LoadState.Valid, LoadState.Active, LoadState.Retired;
      state := null;
      if bulkLoad != null || options == None {
        return -1, null; // a load is active, or an option has the wrong type
      }
      var s := new LoadState(serializer, options.value);
      rc := s.Initialize(table, list, meta);
      state := s;
      if rc != 0 {
        s.Destroy();
        retired := retired + {s};
        return;
      }
      bulkLoad := s;
    }

    /** Loads one block of the active load. */
    method BulkLoadRows(block: Block) returns (ok: bool, ghost run: BlockRun)
      requires Valid()
      modifies bulkLoad, if bulkLoad != null then {bulkLoad.stream} else {}
      ensures Valid() && (ok ==> bulkLoad != null)
      ensures bulkLoad != null ==>
        && bulkLoad.history == old(bulkLoad.history) + [Call(block, run, ok)]
        && (bulkLoad.stream.ok <==> old(bulkLoad.stream.ok) && ok)
        && (ok || run.rows != [] ==> Encodes(serializer, bulkLoad.columns, block, run.rows))
        && bulkLoad.columns == old(bulkLoad.columns)
      ensures bulkLoad != null && old(bulkLoad.stream.ok) ==>
        && old(bulkLoad.loaded) <= bulkLoad.loaded <= old(bulkLoad.loaded) + run.rows
        && (ok ==> bulkLoad.loaded == old(bulkLoad.loaded) + run.rows)
      ensures bulkLoad != null && ok && run.rows != [] ==>
        bulkLoad.loaded == old(bulkLoad.loaded) + old(bulkLoad.Stale()) + run.rows && bulkLoad.Stale() == []
      ensures bulkLoad != null && !ok ==>
        || bulkLoad.faults > old(bulkLoad.faults) || bulkLoad.stream.faults > old(bulkLoad.stream.faults)
        || (forall rows :: !Encodes(serializer, bulkLoad.columns, block, rows))
        || (bulkLoad.stream.started && BytesOf(run.rows) > INT64_MAX - old(bulkLoad.stream.consumed))
    {
      run := BlockRun([], false, []);
      if bulkLoad == null {
        return false, run;
      }
      ok, run := bulkLoad.LoadRows(block);
    }

    /** Ends the active load. */
    method BulkLoadEnd(success: bool, sink: bool) returns (ok: bool)
      requires Valid()
      modifies this, bulkLoad, if bulkLoad != null then {bulkLoad.stream} else {}
      ensures Valid() && bulkLoad == null
      ensures old(bulkLoad) != null ==>
        retired == old(retired) + {old(bulkLoad)} && old(bulkLoad).EndedAs(success, sink, ok)
      ensures old(bulkLoad) == null ==> !ok && retired == old(retired)
    {
      hide LoadState.Valid, LoadState.Active, LoadState.Retired;
      if bulkLoad == null {
        return false;
      }
      var state := bulkLoad;
      bulkLoad := null;
      ok := state.EndLoad(success, sink);
      retired := retired + {state};
    }

    /** A rollback aborts the active load first. */
    method Rollback(sink: bool) returns (ok: bool)
      requires Valid()
      modifies this, bulkLoad, if bulkLoad != null then {bulkLoad.stream} else {}
      ensures Valid() && bulkLoad == null
      ensures old(bulkLoad) != null ==>
        && retired == old(retired) + {old(bulkLoad)} && !old(bulkLoad).committed
        && old(bulkLoad).history == old(bulkLoad.history) && old(bulkLoad).loaded == old(bulkLoad.loaded)
      ensures old(bulkLoad) == null ==> retired == old(retired)
    {
      ok := true;
      if bulkLoad != null {
        ok := BulkLoadEnd(false, sink);
      }
      if ok {
        ok := *; // the rollback of the transaction
      }
    }

    /** Deletes the connection. */
    method Close()
      requires Valid()
      modifies this, bulkLoad, if bulkLoad != null then {bulkLoad.stream} else {}
      ensures Valid() && bulkLoad == null
      ensures old(bulkLoad) != null ==>
        && retired == old(retired) + {old(bulkLoad)} && !old(bulkLoad).committed
        && old(bulkLoad).history == old(bulkLoad.history) && old(bulkLoad).loaded == old(bulkLoad.loaded)
      ensures old(bulkLoad) == null ==> retired == old(retired)
    {
      if bulkLoad != null {
        var ok := BulkLoadEnd(false, false);
      }
    }
  }

  lemma NoRuns(base: seq<BulkRow>)
    ensures Concat([]) == [] && base + [] == base
  {
  }

  lemma OneMoreRun(base: seq<BulkRow>, runs: seq<BlockRun>, run: BlockRun)
    ensures base + Concat(runs + [run]) == base + Concat(runs) + run.rows
    ensures (runs + [run])[..|runs|] == runs && (runs + [run])[..|runs| + 1] == runs + [run]
  {
    assert (runs + [run])[..|runs|] == runs;
  }

  /** Loads blocks one after the other as long as they succeed. On a load of which no block has failed, the rows of all
      blocks that succeeded are loaded, each once and in order, and of one that fails a prefix. */
  method LoadBlocks(conn: Connection, blocks: seq<Block>) returns (n: nat, ghost runs: seq<BlockRun>)
    requires conn.Valid() && conn.bulkLoad != null && conn.bulkLoad.stream.ok
    modifies conn.bulkLoad, conn.bulkLoad.stream
    ensures conn.Valid() && n <= |blocks| && |runs| == (if n < |blocks| then n + 1 else n)
    ensures conn.bulkLoad.columns == old(conn.bulkLoad.columns)
    ensures forall k :: 0 <= k < n ==> Encodes(conn.serializer, conn.bulkLoad.columns, blocks[k], runs[k].rows)
    ensures conn.bulkLoad.stream.ok <==> n == |blocks|
    ensures old(conn.bulkLoad.loaded) + Concat(runs[..n]) <= conn.bulkLoad.loaded
    ensures conn.bulkLoad.loaded <= old(conn.bulkLoad.loaded) + Concat(runs)
  {
    hide Connection.Valid, Encodes, Concat;
    ghost var state := conn.bulkLoad;
    ghost var base := state.loaded;
    n, runs := 0, [];
    NoRuns(base);
    var ok := true;
    while ok && n < |blocks|
      invariant conn.Valid() && n <= |blocks| && |runs| == (if ok then n else n + 1) && (!ok ==> n < |blocks|)
      invariant state.columns == old(state.columns) && (state.stream.ok <==> ok)
      invariant forall k :: 0 <= k < n ==> Encodes(conn.serializer, state.columns, blocks[k], runs[k].rows)
      invariant base + Concat(runs[..n]) <= state.loaded <= base + Concat(runs)
      invariant ok ==> state.loaded == base + Concat(runs)
      decreases ok, |blocks| - n
    {
      ghost var run;
      ok, run := conn.BulkLoadRows(blocks[n]);
      OneMoreRun(base, runs, run);
      runs := runs + [run];
      if ok {
        n := n + 1;
      }
    }
  }

  /* ---- Whole runs ---- */

  datatype Operation =
    | BeginLoad(table: string, list: seq<ListItem>, meta: Option<seq<Meta>>, options: Option<bool>)
    | LoadBlock(block: Block)
    | EndLoad(success: bool)
    | RollBack

  /** What the caller was told, and the load that the operation worked on. */
  datatype Result = Result(rc: int, state: LoadState?)

  /** The load that is active after an operation. */
  function ActiveAfter(active: LoadState?, op: Operation, r: Result): LoadState? {
    match op
    case BeginLoad(_, _, _, _) => if r.rc == 0 then r.state else active
    case LoadBlock(_) => active
    case _ => null
  }

  /** The load that is active after the first `n` operations. */
  function ActiveAt(operations: seq<Operation>, results: seq<Result>, n: nat): LoadState?
    requires n <= |operations| && n <= |results|
  {
    if n == 0 then null else ActiveAfter(ActiveAt(operations, results, n - 1), operations[n - 1], results[n - 1])
  }

  /** The results that an operation may have: a load begins exactly if none is active and nothing prevents it, blocks
      and ends are for the active load, and only a load that was ended as a success can be committed. */
  ghost predicate MayResult(op: Operation, active: LoadState?, r: Result)
    reads active, r.state, if r.state != null then {r.state.stream} else {}
  {
    if op.BeginLoad? then
      if active != null || op.options == None then r == Result(-1, null)
      else r.state != null && r.state.SetUp(op.table, op.list, op.meta, r.rc)
    else if op.LoadBlock? then r.state == active && r.rc in {0, -1} && (active == null ==> r.rc == -1)
    else if op.EndLoad? then
      && r.state == active && r.rc in {0, -1}
      && if active == null then r.rc == -1
         else (active.committed ==> op.success) && if r.rc == 0 then active.committed == op.success else active.Faulty()
    else r.state == active && (active != null ==> !active.committed)
  }

  /** The blocks that the first `n` operations gave to a load, and what the caller was told about them. */
  function Given(operations: seq<Operation>, results: seq<Result>, state: LoadState, n: nat): seq<(Block, bool)>
    requires n <= |operations| && n <= |results|
  {
    if n == 0 then []
    else
      Given(operations, results, state, n - 1)
      + if operations[n - 1].LoadBlock? && results[n - 1].state == state then
          [(operations[n - 1].block, results[n - 1].rc == 0)]
        else []
  }

  function Told(history: seq<Call>): (told: seq<(Block, bool)>)
    ensures |told| == |history|
  {
    seq(|history|, k requires 0 <= k < |history| => (history[k].block, history[k].ok))
  }

  lemma {:induction false} GivenPrefix(operations: seq<Operation>, results: seq<Result>, r: Result, state: LoadState,
                                       n: nat)
    requires n <= |operations| && n <= |results|
    ensures Given(operations, results + [r], state, n) == Given(operations, results, state, n)
    ensures (forall j :: 0 <= j < n ==> results[j].state != state) ==> Given(operations, results, state, n) == []
  {
    if n > 0 {
      GivenPrefix(operations, results, r, state, n - 1);
    }
  }

  lemma {:induction false} ActivePrefix(operations: seq<Operation>, results: seq<Result>, r: Result, n: nat)
    requires n <= |operations| && n <= |results|
    ensures ActiveAt(operations, results + [r], n) == ActiveAt(operations, results, n)
  {
    hide ActiveAfter;
    if n > 0 {
      ActivePrefix(operations, results, r, n - 1);
    }
  }

  /** The load that an operation worked on, and whether the operation left it over. */
  predicate LeavesOver(op: Operation, r: Result) {
    r.state != null && !op.LoadBlock? && (op.BeginLoad? ==> r.rc != 0)
  }

  /** What an operation does: loads that are over stay as they are, and the active one is given its block. */
  twostate predicate Performed(conn: Connection, op: Operation, new r: Result)
    reads *
  {
    var active := old(conn.bulkLoad);
    && MayResult(op, active, r) && conn.bulkLoad == ActiveAfter(active, op, r)
    && old(conn.retired) <= conn.retired && conn.bulkLoad !in old(conn.retired)
    && (forall s :: s in old(conn.retired) ==> unchanged(s) && unchanged(s.stream))
    && (LeavesOver(op, r) ==> r.state in conn.retired)
    && (active != null ==>
          && (active in conn.retired || active == conn.bulkLoad) && active !in old(conn.retired)
          && Told(active.history) == old(Told(active.history)) + if op.LoadBlock? then [(op.block, r.rc == 0)] else [])
    && if op.BeginLoad? then r.state != null ==> active == null && fresh(r.state) && r.state.history == []
       else r.state == active
  }

  /** Performs an operation. */
  method Perform(conn: Connection, op: Operation) returns (ghost r: Result)
    requires conn.Valid()
    modifies conn, conn.bulkLoad, if conn.bulkLoad != null then {conn.bulkLoad.stream} else {}
    ensures conn.Valid() && Performed(conn, op, r)
    ensures conn.bulkLoad == old(conn.bulkLoad) || conn.bulkLoad == null || fresh({conn.bulkLoad, conn.bulkLoad.stream})
  {
    hide LoadState.Valid, LoadState.Active, LoadState.Retired, LoadState.Exact, LoadState.SetUp, Encodes, Runs;
    match op {
      case BeginLoad(table, list, meta, options) =>
        var rc;
        ghost var state;
        rc, state := conn.BulkLoadBegin(table, list, meta, options);
        r := Result(rc, state);
      case LoadBlock(block) =>
        var ok;
        ghost var run;
        ok, run := conn.BulkLoadRows(block);
        r := Result(if ok then 0 else -1, conn.bulkLoad);
      case EndLoad(success) =>
        ghost var state := conn.bulkLoad;
        var ok := conn.BulkLoadEnd(success, false);
        r := Result(if ok then 0 else -1, state);
      case RollBack =>
        ghost var state := conn.bulkLoad;
        var ok := conn.Rollback(false);
        r := Result(if ok then 0 else -1, state);
    }
  }

  /** The load that operation `j` worked on was given exactly its blocks of the operations so far. */
  ghost predicate Kept(conn: Connection, operations: seq<Operation>, results: seq<Result>, j: nat)
    requires j < |results| <= |operations|
    reads *
  {
    var state := results[j].state;
    state != null ==>
      && (state in conn.retired || (state == conn.bulkLoad && !LeavesOver(operations[j], results[j])))
      && Told(state.history) == Given(operations, results, state, |results|)
  }

  /** The result of operation `j` is one that it may have. */
  ghost predicate Possible(operations: seq<Operation>, results: seq<Result>, j: nat)
    requires j < |operations| && j < |results|
    reads *
  {
    MayResult(operations[j], ActiveAt(operations, results, j), results[j])
  }

  ghost predicate Traced(conn: Connection, operations: seq<Operation>, results: seq<Result>)
    requires |results| <= |operations|
    reads *
  {
    && conn.bulkLoad == ActiveAt(operations, results, |results|)
    && (forall j :: 0 <= j < |results| ==> Possible(operations, results, j))
    && (forall j :: 0 <= j < |results| ==> Kept(conn, operations, results, j))
  }

  twostate lemma KeptMore(conn: Connection, new operations: seq<Operation>, new results: seq<Result>, new r: Result,
                          new j: nat)
    requires old(allocated(operations)) && old(allocated(results))
    requires j < |results| < |operations| && old(Kept(conn, operations, results, j))
    requires Performed(conn, operations[|results|], r) && old(Possible(operations, results, j))
    ensures Kept(conn, operations, results + [r], j) && Possible(operations, results + [r], j)
  {
    hide Told, ActiveAt;
    ActivePrefix(operations, results, r, j);
    if results[j].state != null {
      GivenPrefix(operations, results, r, results[j].state, |results|);
    }
  }

  lemma {:induction false} ActiveWasBegun(operations: seq<Operation>, results: seq<Result>, n: nat)
    requires n <= |operations| && n <= |results| && ActiveAt(operations, results, n) != null
    ensures exists j :: 0 <= j < n && results[j].state == ActiveAt(operations, results, n)
  {
    if n > 0 && results[n - 1].state != ActiveAt(operations, results, n) {
      ActiveWasBegun(operations, results, n - 1);
    }
  }

  twostate lemma NewKept(conn: Connection, new operations: seq<Operation>, new results: seq<Result>, new r: Result)
    requires old(allocated(operations)) && old(allocated(results))
    requires |results| < |operations| && old(Traced(conn, operations, results))
    requires Performed(conn, operations[|results|], r)
    ensures Kept(conn, operations, results + [r], |results|)
  {
    hide Told, ActiveAt, MayResult;
    var n := |results|;
    if r.state != null {
      GivenPrefix(operations, results, r, r.state, n);
      if !operations[n].BeginLoad? {
        ActiveWasBegun(operations, results, n);
        var j :| 0 <= j < n && results[j].state == r.state;
        assert old(Kept(conn, operations, results, j));
      }
    }
  }

  twostate lemma {:induction false} AllKept(conn: Connection, new operations: seq<Operation>, new results: seq<Result>,
                                            new r: Result, new all: seq<Result>, new m: nat)
    requires old(allocated(operations)) && old(allocated(results))
    requires m <= |results| < |operations| && old(Traced(conn, operations, results)) && all == results + [r]
    requires Performed(conn, operations[|results|], r)
    ensures forall j :: 0 <= j < m ==> Kept(conn, operations, all, j) && Possible(operations, all, j)
    decreases m
  {
    hide Kept, Performed, Possible;
    if m > 0 {
      var j: nat := m - 1;
      AllKept(conn, operations, results, r, all, j);
      KeptMore(conn, operations, results, r, j);
    }
  }

  twostate lemma TracedMore(conn: Connection, new operations: seq<Operation>, new results: seq<Result>, new r: Result)
    requires old(allocated(operations)) && old(allocated(results))
    requires |results| < |operations| && old(Traced(conn, operations, results))
    requires Performed(conn, operations[|results|], r)
    ensures Traced(conn, operations, results + [r])
  {
    hide Kept;
    var n := |results|;
    NewKept(conn, operations, results, r);
    ActivePrefix(operations, results, r, n);
    AllKept(conn, operations, results, r, results + [r], n);
  }

  /** Deleting the connection changes no result; all loads are over then. */
  twostate lemma TracedEnd(conn: Connection, new operations: seq<Operation>, new results: seq<Result>)
    requires old(allocated(operations)) && old(allocated(results))
    requires |results| == |operations| && old(Traced(conn, operations, results)) && conn.Valid()
    requires old(conn.retired) <= conn.retired && (old(conn.bulkLoad) != null ==> old(conn.bulkLoad) in conn.retired)
    requires forall s :: s in old(conn.retired) ==> unchanged(s) && unchanged(s.stream)
    requires old(conn.bulkLoad) != null ==> old(conn.bulkLoad).history == old(conn.bulkLoad.history)
    ensures forall i :: 0 <= i < |results| ==> Possible(operations, results, i)
    ensures forall i :: 0 <= i < |results| && results[i].state != null ==>
      && results[i].state in conn.retired && results[i].state.Exact()
      && Told(results[i].state.history) == Given(operations, results, results[i].state, |results|)
  {
    hide ActiveAt, Given;
    forall i | 0 <= i < |results|
      ensures Possible(operations, results, i)
      ensures results[i].state != null ==>
        && results[i].state in conn.retired && results[i].state.Exact()
        && Told(results[i].state.history) == Given(operations, results, results[i].state, |results|)
    {
      assert old(Kept(conn, operations, results, i)) && old(Possible(operations, results, i));
      if results[i].state != null {
        results[i].state.RecordsExact();
      }
    }
  }

  /** Over every run of operations on a connection, each one has a result that it may have, each load was given
      exactly the blocks of the operations while it was active, and each load is over when the connection is deleted. */
  method AnyRun(serializer: Serializer, operations: seq<Operation>)
    returns (conn: Connection, ghost results: seq<Result>)
    ensures conn.Valid() && conn.bulkLoad == null && conn.serializer == serializer && |results| == |operations|
    ensures forall i :: 0 <= i < |results| ==> Possible(operations, results, i)
    ensures forall i :: 0 <= i < |results| && results[i].state != null ==>
      && results[i].state in conn.retired && results[i].state.Exact()
      && Told(results[i].state.history) == Given(operations, results, results[i].state, |results|)
  {
    hide Possible, Told, Given, ActiveAfter, Kept, Performed;
    conn := new Connection(serializer);
    results := [];
    for i := 0 to |operations|
      invariant conn.Valid() && fresh(conn) && conn.serializer == serializer && |results| == i
      invariant conn.bulkLoad != null ==> fresh(conn.bulkLoad) && fresh(conn.bulkLoad.stream)
      invariant Traced(conn, operations, results)
    {
      label Before:
      ghost var r := Perform(conn, operations[i]);
      TracedMore@Before(conn, operations, results, r);
      results := results + [r];
    }
    label Ending:
    conn.Close();
    TracedEnd@Ending(conn, operations, results);
  }
}
