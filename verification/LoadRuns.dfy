/** What a direct path load does to the stream and to the table, as a function of how the client answers. */
module LoadRuns {
  import opened Numbers

  /** A field in the client's external format. */
  datatype Cell = Cell(data: string, isNull: bool)

  type BulkRow = seq<Cell>

  /** The rows in the stream, the rows that the server took, and whether a chunk was ever loaded completely. */
  datatype Pipe = Pipe(streamed: seq<BulkRow>, loaded: seq<BulkRow>, used: bool)
  {
    /** The rows that the next chunk sends along: nothing resets the stream before a chunk was loaded completely. */
    function Stale(): seq<BulkRow> {
      if used then [] else streamed
    }
  }

  const FRESH := Pipe([], [], false)

  /** A turn of the conversion loop: how many rows the client put in the stream, whether its answer was accepted,
      whether it sent the whole stream or only some rows of it, and whether it reset the stream afterwards. */
  datatype Turn = Turn(taken: nat, accepted: bool, sends: bool, sent: nat, resets: bool)

  /** A chunk: whether the stream was reset, whether the column array was filled, and the turns of the loop. */
  datatype Chunk = Chunk(resets: bool, filled: bool, turns: seq<Turn>)

  /** A block: its rows, whether they were serialized, and the chunks. */
  datatype BlockRun = BlockRun(rows: seq<BulkRow>, prepared: bool, chunks: seq<Chunk>)

  /** How far a loop over rows has come, and whether it may go on. */
  datatype Moved = Moved(pipe: Pipe, offset: nat, ok: bool)

  function Min(a: nat, b: nat): nat {
    if a < b then a else b
  }

  function TurnAfter(m: Moved, rows: seq<BulkRow>, t: Turn): (r: Moved)
    requires m.offset <= |rows|
    ensures r.offset <= |rows|
  {
    if !m.ok || m.offset == |rows| then m
    else
      var n := Min(t.taken, |rows| - m.offset);
      var q := m.pipe.streamed + rows[m.offset..m.offset + n];
      if !t.accepted || n == 0 then Moved(m.pipe.(streamed := q), m.offset, false)
      else if !t.sends then
        Moved(Pipe(q, m.pipe.loaded + q[..Min(t.sent, |q|)], m.pipe.used), m.offset + n, false)
      else if m.offset + n == |rows| then Moved(Pipe(q, m.pipe.loaded + q, m.pipe.used), |rows|, true)
      else Moved(Pipe(if t.resets then [] else q, m.pipe.loaded + q, m.pipe.used), m.offset + n, t.resets)
  }

  function TurnsAfter(p: Pipe, rows: seq<BulkRow>, turns: seq<Turn>): (r: Moved)
    ensures r.offset <= |rows|
  {
    if turns == [] then Moved(p, 0, true)
    else TurnAfter(TurnsAfter(p, rows, turns[..|turns| - 1]), rows, turns[|turns| - 1])
  }

  /** A chunk with these rows, and whether all of them were loaded. */
  function ChunkAfter(p: Pipe, rows: seq<BulkRow>, c: Chunk): (Pipe, bool) {
    var p1 := if p.used && c.resets then p.(streamed := []) else p;
    if !c.filled || (p.used && !c.resets) then (p1, false)
    else
      var m := TurnsAfter(p1, rows, c.turns);
      if m.ok && m.offset == |rows| then (m.pipe.(used := true), true) else (m.pipe, false)
  }

  function NextChunk(m: Moved, rows: seq<BulkRow>, max: nat, c: Chunk): (r: Moved)
    requires m.offset <= |rows|
    ensures r.offset <= |rows|
  {
    if !m.ok || m.offset == |rows| then m
    else
      var n := Min(max, |rows| - m.offset);
      var (q, ok) := ChunkAfter(m.pipe, rows[m.offset..m.offset + n], c);
      Moved(q, m.offset + n, ok)
  }

  /** Chunks of at most `max` rows. */
  function ChunksAfter(p: Pipe, rows: seq<BulkRow>, max: nat, chunks: seq<Chunk>): (r: Moved)
    ensures r.offset <= |rows|
  {
    if chunks == [] then Moved(p, 0, true)
    else NextChunk(ChunksAfter(p, rows, max, chunks[..|chunks| - 1]), rows, max, chunks[|chunks| - 1])
  }

  /** A block, and whether all of its rows were loaded. */
  function BlockAfter(p: Pipe, b: BlockRun, max: nat): (Pipe, bool) {
    if !b.prepared || b.rows == [] then (p, b.prepared)
    else
      var m := ChunksAfter(p, b.rows, max, b.chunks);
      (m.pipe, m.ok && m.offset == |b.rows|)
  }

  function RowBytes(row: BulkRow): nat {
    if row == [] then 0 else RowBytes(row[..|row| - 1]) + |row[|row| - 1].data|
  }

  function BytesOf(rows: seq<BulkRow>): nat {
    if rows == [] then 0 else BytesOf(rows[..|rows| - 1]) + RowBytes(rows[|rows| - 1])
  }

  /** What a counter of 64 bits counts. */
  function Count(counted: nat, size: nat): nat {
    if size <= INT64_MAX - counted then counted + size else counted
  }

  function RunAfter(blocks: seq<BlockRun>, max: nat): Pipe {
    if blocks == [] then FRESH else BlockAfter(RunAfter(blocks[..|blocks| - 1], max), blocks[|blocks| - 1], max).0
  }

  /** The block after these ones was loaded completely. */
  predicate Complete(before: seq<BlockRun>, b: BlockRun, max: nat) {
    BlockAfter(RunAfter(before, max), b, max).1
  }

  predicate AllComplete(blocks: seq<BlockRun>, max: nat) {
    forall k :: 0 <= k < |blocks| ==> Complete(blocks[..k], blocks[k], max)
  }

  /** The bytes of the blocks that were loaded completely, as the 64-bit counter of the stream counts them. */
  function Counted(blocks: seq<BlockRun>, max: nat): nat {
    if blocks == [] then 0
    else
      var before, b := blocks[..|blocks| - 1], blocks[|blocks| - 1];
      if Complete(before, b, max) then Count(Counted(before, max), BytesOf(b.rows)) else Counted(before, max)
  }

  /** The bytes of the blocks that were loaded completely. */
  function SumOfBytes(blocks: seq<BlockRun>, max: nat): nat {
    if blocks == [] then 0
    else
      var before, b := blocks[..|blocks| - 1], blocks[|blocks| - 1];
      SumOfBytes(before, max) + if Complete(before, b, max) then BytesOf(b.rows) else 0
  }

  function Concat(blocks: seq<BlockRun>): seq<BulkRow> {
    if blocks == [] then [] else Concat(blocks[..|blocks| - 1]) + blocks[|blocks| - 1].rows
  }

  /* ---- What is loaded ---- */

  /** What is loaded when the first `k` rows are, behind what was in the stream before. */
  function Sent(base: seq<BulkRow>, stale: seq<BulkRow>, rows: seq<BulkRow>, k: nat): seq<BulkRow>
    requires k <= |rows|
  {
    if k == 0 then base else base + stale + rows[..k]
  }

  lemma SentMore(base: seq<BulkRow>, stale: seq<BulkRow>, rows: seq<BulkRow>, k: nat, next: nat)
    requires k < next <= |rows|
    ensures var pending := if k == 0 then stale else [];
      Sent(base, stale, rows, k) + (pending + rows[k..next]) == Sent(base, stale, rows, next)
    ensures base <= Sent(base, stale, rows, k) && Sent(base, stale, rows, next) <= base + stale + rows
    ensures Sent(base, stale, rows, |rows|) == base + stale + rows
  {
    assert rows[..next] == rows[..k] + rows[k..next];
    assert rows[..|rows|] == rows;
  }

  /** What a loop over rows keeps: what is loaded is a prefix of the stale rows and the rows behind what was loaded
      before; as long as it may go on, exactly the rows up to its offset are, and then none of them is pending. */
  predicate Follows(p: Pipe, stale: seq<BulkRow>, rows: seq<BulkRow>, m: Moved) {
    && m.offset <= |rows|
    && p.loaded <= m.pipe.loaded <= p.loaded + stale + rows
    && (m.ok ==> m.pipe.loaded == Sent(p.loaded, stale, rows, m.offset))
  }

  lemma PrefixOfMore(a: seq<BulkRow>, b: seq<BulkRow>, q: seq<BulkRow>, n: nat)
    requires a + q <= b && n <= |q|
    ensures a <= a + q[..n] <= b
  {
    assert forall i :: 0 <= i < |a + q[..n]| ==> (a + q[..n])[i] == (a + q)[i];
  }

  /** A loop that has loaded all rows up to `k` follows, and so does one that fails behind a part of them. */
  lemma StaysBehind(p: Pipe, stale: seq<BulkRow>, rows: seq<BulkRow>, m: Moved, k: nat, q: seq<BulkRow>)
    requires Follows(p, stale, rows, m) && m.ok && m.offset < k <= |rows|
    requires q == (if m.offset == 0 then stale else []) + rows[m.offset..k]
    ensures forall r: Moved ::
      (r.offset == k && r.pipe.loaded == m.pipe.loaded + q ==> Follows(p, stale, rows, r))
    ensures forall r: Moved, n: nat :: (n <= |q| && r.offset <= |rows| && !r.ok
      && r.pipe.loaded == m.pipe.loaded + q[..n]) ==> Follows(p, stale, rows, r)
  {
    var all := p.loaded + stale + rows;
    SentMore(p.loaded, stale, rows, m.offset, k);
    assert m.pipe.loaded + q == Sent(p.loaded, stale, rows, k);
    assert p.loaded <= m.pipe.loaded;
    hide Sent;
    forall n: nat | n <= |q| ensures p.loaded <= m.pipe.loaded + q[..n] <= all {
      PrefixOfMore(m.pipe.loaded, all, q, n);
    }
    assert q[..|q|] == q;
  }

  lemma TurnFollows(p: Pipe, rows: seq<BulkRow>, m: Moved, t: Turn)
    requires Follows(p, p.streamed, rows, m)
    requires m.ok && m.offset < |rows| ==> m.pipe.streamed == if m.offset == 0 then p.streamed else []
    ensures var r := TurnAfter(m, rows, t);
      && Follows(p, p.streamed, rows, r) && r.pipe.used == m.pipe.used
      && (r.ok && r.offset < |rows| ==> r.pipe.streamed == if r.offset == 0 then p.streamed else [])
  {
    if m.ok && m.offset < |rows| {
      var n := Min(t.taken, |rows| - m.offset);
      var q := m.pipe.streamed + rows[m.offset..m.offset + n];
      var r := TurnAfter(m, rows, t);
      if t.accepted && n > 0 {
        StaysBehind(p, p.streamed, rows, m, m.offset + n, q);
        hide Follows;
        assert r.pipe.loaded == if t.sends then m.pipe.loaded + q else m.pipe.loaded + q[..Min(t.sent, |q|)];
      } else {
        assert r.pipe.loaded == m.pipe.loaded && !r.ok;
      }
    }
  }

  lemma {:induction false} TurnsFollow(p: Pipe, rows: seq<BulkRow>, turns: seq<Turn>)
    ensures var m := TurnsAfter(p, rows, turns);
      && Follows(p, p.streamed, rows, m) && m.pipe.used == p.used
      && (m.ok && m.offset < |rows| ==> m.pipe.streamed == if m.offset == 0 then p.streamed else [])
  {
    hide TurnAfter;
    if turns != [] {
      var n := |turns| - 1;
      TurnsFollow(p, rows, turns[..n]);
      TurnFollows(p, rows, TurnsAfter(p, rows, turns[..n]), turns[n]);
    }
  }

  /** A chunk that succeeds loads the stale rows and its own, and one that fails a prefix of them. */
  lemma ChunkLoads(p: Pipe, rows: seq<BulkRow>, c: Chunk)
    requires rows != []
    ensures var (q, ok) := ChunkAfter(p, rows, c);
      && p.loaded <= q.loaded <= p.loaded + p.Stale() + rows
      && (if ok then q.used && q.loaded == p.loaded + p.Stale() + rows else q.used == p.used)
  {
    hide TurnsAfter;
    var p1 := if p.used && c.resets then p.(streamed := []) else p;
    TurnsFollow(p1, rows, c.turns);
    SentMore(p1.loaded, p1.streamed, rows, 0, |rows|);
  }

  lemma ChunkFollows(p: Pipe, rows: seq<BulkRow>, max: nat, m: Moved, c: Chunk)
    requires max > 0 && Follows(p, p.Stale(), rows, m)
    requires m.ok && m.offset < |rows| ==> m.pipe.Stale() == if m.offset == 0 then p.Stale() else []
    requires p.used || (m.ok && m.offset > 0) ==> m.pipe.used
    ensures var r := NextChunk(m, rows, max, c);
      && Follows(p, p.Stale(), rows, r) && (m.ok && m.offset < |rows| ==> r.offset > m.offset)
      && (r.ok && r.offset < |rows| ==> r.pipe.Stale() == if r.offset == 0 then p.Stale() else [])
      && (p.used || (r.ok && r.offset > 0) ==> r.pipe.used)
  {
    if m.ok && m.offset < |rows| {
      hide ChunkAfter;
      var n := Min(max, |rows| - m.offset);
      var chunk := rows[m.offset..m.offset + n];
      ChunkLoads(m.pipe, chunk, c);
      var q, r := m.pipe.Stale() + chunk, NextChunk(m, rows, max, c);
      assert m.pipe.loaded + m.pipe.Stale() + chunk == m.pipe.loaded + q;
      Beyond(m.pipe.loaded, r.pipe.loaded, q);
      StaysBehind(p, p.Stale(), rows, m, m.offset + n, q);
      hide Follows;
      var k :| 0 <= k <= |q| && r.pipe.loaded == m.pipe.loaded + q[..k];
    }
  }

  lemma Beyond(a: seq<BulkRow>, l: seq<BulkRow>, q: seq<BulkRow>)
    requires a <= l <= a + q
    ensures exists k :: 0 <= k <= |q| && l == a + q[..k]
  {
    assert l == a + q[..|l| - |a|];
  }

  lemma {:induction false} ChunksFollow(p: Pipe, rows: seq<BulkRow>, max: nat, chunks: seq<Chunk>)
    requires max > 0
    ensures var m := ChunksAfter(p, rows, max, chunks);
      && Follows(p, p.Stale(), rows, m)
      && (m.ok && m.offset < |rows| ==> m.pipe.Stale() == if m.offset == 0 then p.Stale() else [])
      && (p.used || (m.ok && m.offset > 0) ==> m.pipe.used)
  {
    hide NextChunk, Follows;
    if chunks != [] {
      var n := |chunks| - 1;
      ChunksFollow(p, rows, max, chunks[..n]);
      ChunkFollows(p, rows, max, ChunksAfter(p, rows, max, chunks[..n]), chunks[n]);
    } else {
      StartFollows(p, p.Stale(), rows);
    }
  }

  lemma StartFollows(p: Pipe, stale: seq<BulkRow>, rows: seq<BulkRow>)
    ensures Follows(p, stale, rows, Moved(p, 0, true))
  {
  }

  /** A block that succeeds loads the stale rows and its own, and leaves none behind; one that fails loads a prefix. */
  lemma BlockLoads(p: Pipe, b: BlockRun, max: nat)
    requires max > 0
    ensures var (q, ok) := BlockAfter(p, b, max);
      && p.loaded <= q.loaded <= p.loaded + p.Stale() + b.rows
      && (b.rows == [] ==> q == p) && (p.used ==> q.used)
      && (ok && b.rows != [] ==> q.used && q.loaded == p.loaded + p.Stale() + b.rows)
  {
    hide ChunksAfter;
    if b.prepared && b.rows != [] {
      ChunksFollow(p, b.rows, max, b.chunks);
      SentMore(p.loaded, p.Stale(), b.rows, 0, |b.rows|);
    }
  }

  /** So a block that succeeds loads exactly its rows if and only if no rows were left in the stream. */
  lemma BlockExact(p: Pipe, b: BlockRun, max: nat)
    requires max > 0 && BlockAfter(p, b, max).1 && b.rows != []
    ensures BlockAfter(p, b, max).0.loaded == p.loaded + b.rows <==> p.Stale() == []
  {
    hide BlockAfter;
    BlockLoads(p, b, max);
    assert |p.loaded + p.Stale() + b.rows| == |p.loaded| + |p.Stale()| + |b.rows|;
    assert p.Stale() == [] ==> p.loaded + p.Stale() == p.loaded;
  }

  /* ---- Whole loads ---- */

  lemma CompletePrefix(blocks: seq<BlockRun>, max: nat)
    requires blocks != [] && AllComplete(blocks, max)
    ensures AllComplete(blocks[..|blocks| - 1], max)
    ensures Complete(blocks[..|blocks| - 1], blocks[|blocks| - 1], max)
  {
    hide Complete;
    var before := blocks[..|blocks| - 1];
    assert forall k :: 0 <= k < |before| ==> before[..k] == blocks[..k];
  }

  /** A load whose blocks all succeeded has loaded exactly their rows, in order, and has left none in the stream. */
  lemma {:induction false} LoadExact(blocks: seq<BlockRun>, max: nat)
    requires max > 0 && AllComplete(blocks, max)
    ensures RunAfter(blocks, max).loaded == Concat(blocks) && RunAfter(blocks, max).Stale() == []
  {
    hide BlockAfter, AllComplete;
    if blocks != [] {
      var n := |blocks| - 1;
      CompletePrefix(blocks, max);
      LoadExact(blocks[..n], max);
      var p := RunAfter(blocks[..n], max);
      BlockLoads(p, blocks[n], max);
      if blocks[n].rows != [] {
        BlockExact(p, blocks[n], max);
      }
    }
  }

  /** If the blocks that were loaded completely fit the 64-bit counter, it counts exactly their bytes. */
  lemma {:induction false} CountedIsSum(blocks: seq<BlockRun>, max: nat)
    ensures Counted(blocks, max) <= SumOfBytes(blocks, max)
    ensures SumOfBytes(blocks, max) <= INT64_MAX ==> Counted(blocks, max) == SumOfBytes(blocks, max)
  {
    hide Complete, BytesOf;
    if blocks != [] {
      CountedIsSum(blocks[..|blocks| - 1], max);
    }
  }

  /* ---- Rows that are left in the stream ---- */

  /** What the caller sees of a block: its rows, and whether the call succeeded. */
  datatype Seen = Seen(rows: seq<BulkRow>, ok: bool)

  /** The caller saw this of the blocks; a call that failed may have failed anywhere. */
  predicate SeenAs(blocks: seq<BlockRun>, max: nat, seen: seq<Seen>) {
    && |blocks| == |seen|
    && forall k :: 0 <= k < |seen| ==>
         && blocks[k].rows == seen[k].rows && blocks[k].prepared
         && (seen[k].ok ==> Complete(blocks[..k], blocks[k], max))
  }

  lemma {:induction false} UsedStays(blocks: seq<BlockRun>, max: nat, k: nat)
    requires max > 0 && k <= |blocks| && RunAfter(blocks[..k], max).used
    ensures RunAfter(blocks, max).used
    decreases |blocks|
  {
    hide BlockAfter;
    var n := |blocks| - 1;
    if k < |blocks| {
      assert blocks[..n][..k] == blocks[..k];
      UsedStays(blocks[..n], max, k);
      BlockLoads(RunAfter(blocks[..n], max), blocks[n], max);
    } else {
      assert blocks[..k] == blocks;
    }
  }

  lemma SuccessUses(blocks: seq<BlockRun>, max: nat, k: nat)
    requires max > 0 && k < |blocks| && blocks[k].rows != [] && Complete(blocks[..k], blocks[k], max)
    ensures RunAfter(blocks, max).used
  {
    hide BlockAfter;
    BlockLoads(RunAfter(blocks[..k], max), blocks[k], max);
    assert blocks[..k + 1][..k] == blocks[..k];
    UsedStays(blocks, max, k + 1);
  }

  /** A first chunk that fails after its first row was converted: the row stays in the stream. */
  const CONVERTED_ONE := Chunk(false, true, [Turn(1, false, false, 0, false)])

  /** A chunk that fails before anything is converted. */
  const NOT_FILLED := Chunk(false, false, [])

  function Failing(seen: seq<Seen>): seq<BlockRun> {
    seq(|seen|, k requires 0 <= k < |seen| =>
      BlockRun(seen[k].rows, true, [if k == 0 then CONVERTED_ONE else NOT_FILLED]))
  }

  lemma ConvertedOne(p: Pipe, rows: seq<BulkRow>)
    requires rows != [] && !p.used
    ensures ChunkAfter(p, rows, CONVERTED_ONE) == (p.(streamed := p.streamed + [rows[0]]), false)
  {
    var t := CONVERTED_ONE.turns[0];
    assert CONVERTED_ONE.turns[..0] == [];
    assert TurnsAfter(p, rows, []) == Moved(p, 0, true);
    assert rows[0..1] == [rows[0]];
  }

  lemma OneChunk(p: Pipe, b: BlockRun, max: nat, c: Chunk)
    requires max > 0 && b.prepared && b.rows != [] && b.chunks == [c]
    ensures var n := Min(max, |b.rows|);
      var (q, ok) := ChunkAfter(p, b.rows[..n], c);
      BlockAfter(p, b, max) == (q, ok && n == |b.rows|)
  {
    hide ChunkAfter;
    assert b.chunks[..0] == [];
    var m0 := ChunksAfter(p, b.rows, max, []);
    assert m0 == Moved(p, 0, true);
    assert b.rows[0..Min(max, |b.rows|)] == b.rows[..Min(max, |b.rows|)];
  }

  lemma {:induction false} FailingLeavesRow(seen: seq<Seen>, max: nat)
    requires max > 0 && seen != [] && forall k :: 0 <= k < |seen| ==> seen[k].rows != []
    ensures RunAfter(Failing(seen), max) == Pipe([seen[0].rows[0]], [], false)
  {
    hide ChunkAfter, BlockAfter;
    var blocks, n := Failing(seen), |seen| - 1;
    var before, b := RunAfter(blocks[..n], max), blocks[n];
    if n == 0 {
      assert before == FRESH;
      OneChunk(FRESH, b, max, CONVERTED_ONE);
      ConvertedOne(FRESH, b.rows[..Min(max, |b.rows|)]);
    } else {
      assert blocks[..n] == Failing(seen[..n]);
      FailingLeavesRow(seen[..n], max);
      OneChunk(before, b, max, NOT_FILLED);
      NotFilled(before, b.rows[..Min(max, |b.rows|)]);
    }
  }

  lemma NotFilled(p: Pipe, rows: seq<BulkRow>)
    ensures ChunkAfter(p, rows, NOT_FILLED) == (p, false)
  {
  }

  /** Whatever the client does, no rows of earlier blocks are left for the next one, if and only if no block was sent
      before in this load or one of those that were sent succeeded. */
  lemma NextBlockExact(seen: seq<Seen>, max: nat)
    requires max > 0 && forall k :: 0 <= k < |seen| ==> seen[k].rows != []
    ensures (forall blocks :: SeenAs(blocks, max, seen) ==> RunAfter(blocks, max).Stale() == []) <==>
            seen == [] || exists k :: 0 <= k < |seen| && seen[k].ok
  {
    hide BlockAfter, Complete;
    if seen != [] && forall k :: 0 <= k < |seen| ==> !seen[k].ok {
      FailingLeavesRow(seen, max);
      assert SeenAs(Failing(seen), max, seen);
    } else {
      forall blocks | SeenAs(blocks, max, seen) ensures RunAfter(blocks, max).Stale() == [] {
        if k :| 0 <= k < |seen| && seen[k].ok {
          SuccessUses(blocks, max, k);
        }
      }
    }
  }

  /** A block whose first chunk fails, and one that succeeds: the server takes the row of the failed block, too. */
  lemma FirstChunkFails(failed: BulkRow, row: BulkRow)
    ensures var first := BlockRun([failed], true, [CONVERTED_ONE]);
      var second := BlockRun([row], true, [Chunk(false, true, [Turn(1, true, true, 0, false)])]);
      && !Complete([], first, 1) && Complete([first], second, 1)
      && RunAfter([first], 1).loaded == [] && RunAfter([first, second], 1).loaded == [failed, row]
  {
    var first := BlockRun([failed], true, [CONVERTED_ONE]);
    var c := Chunk(false, true, [Turn(1, true, true, 0, false)]);
    var second := BlockRun([row], true, [c]);
    var left := Pipe([failed], [], false);
    hide ChunkAfter, BlockAfter;
    assert [first][..0] == [] && [first, second][..1] == [first];
    OneChunk(FRESH, first, 1, CONVERTED_ONE);
    assert [failed][..1] == [failed] && [row][..1] == [row];
    ConvertedOne(FRESH, [failed]);
    assert RunAfter([first], 1) == left;
    OneChunk(left, second, 1, c);
    SentAlong(left, row, c.turns[0]);
  }

  lemma SentAlong(p: Pipe, row: BulkRow, t: Turn)
    requires !p.used && t == Turn(1, true, true, 0, false)
    ensures ChunkAfter(p, [row], Chunk(false, true, [t])) ==
      (Pipe(p.streamed + [row], p.loaded + (p.streamed + [row]), true), true)
  {
    var turns := [t];
    assert turns[..0] == [];
    assert TurnsAfter(p, [row], []) == Moved(p, 0, true);
    assert [row][0..1] == [row];
  }
}
