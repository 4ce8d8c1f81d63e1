/** Reading a result: the row-at-a-time stream over database/sql, the materializing read built on it,
    and the cutting of a stream into batches. */
module Streams {
  import opened Common

  /** What the driver does when asked for its next row. */
  datatype Fetch = Fetched(cells: Row) | ScanFailed(error: string)

  /** Byte slices are turned into strings on the way out, so no cell shares the driver's buffer. */
  function Owned(row: Row): (out: Row)
    ensures |out| == |row|
  {
    seq(|row|, i requires 0 <= i < |row| => if row[i].Bytes? then Text(row[i].raw) else row[i])
  }

  /** What a caller sees of a fetched row: every cell in its place, byte slices as strings. */
  ghost predicate Shows(row: Row, cells: Row) {
    |row| == |cells|
    && forall i :: 0 <= i < |cells| ==>
         match cells[i] case Bytes(raw) => row[i] == Text(raw) case cell => row[i] == cell
  }

  /** The longest start of the answer that scans. */
  function Scannable(script: seq<Fetch>): (n: nat)
    ensures n <= |script| && (forall i :: 0 <= i < n ==> script[i].Fetched?)
    ensures n < |script| ==> script[n].ScanFailed?
  {
    if script == [] || script[0].ScanFailed? then 0 else 1 + Scannable(script[1..])
  }

  /** The first n rows of an answer, as a caller sees them. */
  function RowsOf(script: seq<Fetch>, n: nat): (rows: seq<Row>)
    requires n <= Scannable(script)
    ensures |rows| == n
  {
    seq(n, i requires 0 <= i < n => Owned(script[i].cells))
  }

  lemma RowsShow(script: seq<Fetch>, n: nat)
    requires n <= Scannable(script)
    ensures forall i :: 0 <= i < n ==> Shows(RowsOf(script, n)[i], script[i].cells)
  {
  }

  /** Nothing fails within the row cap. */
  ghost predicate Clean(script: seq<Fetch>, ending: Option<string>, limit: nat) {
    Scannable(script) >= limit || (Scannable(script) == |script| && ending.None?)
  }

  class SqlStream {
    const columns: seq<Column>
    const limit: nat
    const script: seq<Fetch>
    const ending: Option<string>

    var fetched: nat
    var read: nat
    var row: Row
    var truncated: bool
    var err: Option<string>
    var closed: bool

    ghost predicate Valid()
      reads this
    {
      && read <= limit && read <= Scannable(script)
      && read <= fetched <= |script|
      && (err.None? ==> fetched == read)
      && (err.Some? ==> read == Scannable(script) < limit && !Clean(script, ending, limit))
      && (read > 0 ==> row == RowsOf(script, read)[read - 1])
      && (truncated ==> read == limit)
    }

    constructor (columns: seq<Column>, limit: nat, script: seq<Fetch>, ending: Option<string>)
      ensures Valid() && read == 0 && err.None? && !truncated && !closed
      ensures this.columns == columns && this.limit == limit && this.script == script && this.ending == ending
    {
      this.columns, this.limit, this.script, this.ending := columns, limit, script, ending;
      fetched, read, row, truncated, err, closed := 0, 0, [], false, None, false;
    }

    /** Rows come in order and none is skipped; once Next says no it keeps saying no, and why it did
        is settled: the cap, the end of the answer, or a failure. */
    method Next() returns (more: bool)
      requires Valid()
      modifies this
      ensures Valid() && closed == old(closed)
      ensures more ==> read == old(read) + 1 && err.None? && old(err).None? && truncated == old(truncated)
      ensures more <==> old(err).None? && !closed && old(read) < limit && old(read) < Scannable(script)
      ensures more ==> Shows(row, script[read - 1].cells)
      ensures !more ==> read == old(read)
      ensures !more && !closed ==>
                && (err.None? <==> Clean(script, ending, limit))
                && (err.None? ==> read == Min(limit, |script|) && (truncated <==> |script| >= limit || old(truncated)))
      ensures closed ==> truncated == old(truncated) && err == old(err)
    {
      if err.Some? || closed {
        return false;
      }
      if read >= limit {
        truncated := true;
        return false;
      }
      if fetched == |script| {
        if ending.Some? {
          err := ending;
        }
        return false;
      }
      fetched := fetched + 1;
      match script[fetched - 1]
      case ScanFailed(error) =>
        err := Some(error);
        return false;
      case Fetched(cells) =>
        row := Owned(cells);
        read := read + 1;
        return true;
    }

    method Close()
      requires Valid()
      modifies this`closed
      ensures Valid() && closed
    {
      closed := true;
    }
  }

  datatype Answer = Answer(columns: seq<Column>, rows: seq<Row>, truncated: bool)

  /** The whole answer at once: the first `limit` rows and a flag saying there may be more, or the
      failure when one lies within the cap. An answer of exactly `limit` rows is flagged too. */
  method Query(stream: SqlStream) returns (r: Result<Answer, string>)
    requires stream.Valid() && stream.read == 0 && stream.err.None? && !stream.closed && !stream.truncated
    modifies stream
    ensures r.Ok? <==> Clean(stream.script, stream.ending, stream.limit)
    ensures r.Ok? ==>
              var n := Min(stream.limit, |stream.script|);
              && n <= Scannable(stream.script)
              && r.value == Answer(stream.columns, RowsOf(stream.script, n), |stream.script| >= stream.limit)
              && forall i :: 0 <= i < n ==> Shows(r.value.rows[i], stream.script[i].cells)
    ensures stream.closed
  {
    var rows: seq<Row> := [];
    var more := stream.Next();
    while more
      invariant stream.Valid() && !stream.closed
      invariant more ==> stream.read == |rows| + 1 && stream.err.None? && !stream.truncated
      invariant more ==> rows == RowsOf(stream.script, |rows|)
      invariant !more ==> rows == RowsOf(stream.script, stream.read)
      invariant !more ==>
                  && (stream.err.None? <==> Clean(stream.script, stream.ending, stream.limit))
                  && (stream.err.None? ==> stream.read == Min(stream.limit, |stream.script|))
                  && (stream.err.None? ==> (stream.truncated <==> |stream.script| >= stream.limit))
      decreases stream.limit - stream.read + if more then 1 else 0
    {
      rows := rows + [stream.row];
      more := stream.Next();
    }
    stream.Close();
    if stream.err.Some? {
      return Err(stream.err.value);
    }
    RowsShow(stream.script, |rows|);
    return Ok(Answer(stream.columns, rows, stream.truncated));
  }

  // Batches.

  function Concat(batches: seq<seq<Row>>): seq<Row> {
    if batches == [] then [] else Concat(batches[..|batches| - 1]) + batches[|batches| - 1]
  }

  ghost predicate AllFull(batches: seq<seq<Row>>, size: nat) {
    forall i :: 0 <= i < |batches| ==> |batches[i]| == size
  }

  /** Every batch full but the last, and none empty. */
  ghost predicate Chunked(batches: seq<seq<Row>>, size: nat) {
    batches == [] ||
    (AllFull(batches[..|batches| - 1], size) && 0 < |batches[|batches| - 1]| <= size)
  }

  lemma AppendBatch(batches: seq<seq<Row>>, built: seq<Row>, size: nat)
    requires AllFull(batches, size) && 0 < |built| <= size
    ensures var more := batches + [built];
            && Concat(more) == Concat(batches) + built
            && Chunked(more, size) && (|built| == size ==> AllFull(more, size))
  {
    assert (batches + [built])[..|batches|] == batches;
  }

  /** How many batches so many rows make. */
  function Batched(n: nat, size: nat): nat
    requires size > 0
  {
    if n == 0 then 0 else if n <= size then 1 else 1 + Batched(n - size, size)
  }

  lemma {:induction false} BatchedGrows(m: nat, n: nat, size: nat)
    requires size > 0 && m <= n
    ensures Batched(m, size) <= Batched(n, size)
  {
    if m > size {
      BatchedGrows(m - size, n - size, size);
    }
  }

  lemma {:induction false} FullThenLast(full: nat, last: nat, size: nat)
    requires 0 < last <= size
    ensures Batched(full * size + last, size) == full + 1
  {
    if full > 0 {
      FullThenLast(full - 1, last, size);
      assert full * size + last - size == (full - 1) * size + last;
      assert full * size >= size;
    }
  }

  lemma {:induction false} FullRows(batches: seq<seq<Row>>, size: nat)
    requires AllFull(batches, size)
    ensures |Concat(batches)| == |batches| * size
  {
    if batches != [] {
      FullRows(batches[..|batches| - 1], size);
      assert |batches| * size == (|batches| - 1) * size + size;
    }
  }

  /** A chunking has as many batches as its rows make. */
  lemma ChunkCount(batches: seq<seq<Row>>, size: nat)
    requires size > 0 && Chunked(batches, size)
    ensures |batches| == Batched(|Concat(batches)|, size)
  {
    if batches != [] {
      FullRows(batches[..|batches| - 1], size);
      FullThenLast(|batches| - 1, |batches[|batches| - 1]|, size);
    }
  }

  ghost predicate AllConvert(rows: seq<Row>, converts: Row -> bool) {
    forall i :: 0 <= i < |rows| ==> converts(rows[i])
  }

  lemma RowsOfGrows(script: seq<Fetch>, a: nat, b: nat)
    requires a <= b <= Scannable(script)
    ensures RowsOf(script, a) == RowsOf(script, b)[..a]
  {
  }

  class Batches {
    const stream: SqlStream
    const size: nat
    /** Whether a row converts to the batch's types. */
    const converts: Row -> bool
    var done: bool
    var err: Option<string>

    /** The rows converted so far and the batches they went into. */
    ghost var emitted: seq<seq<Row>>

    ghost predicate Valid()
      reads this, stream
    {
      && size > 0 && stream.Valid() && !stream.closed
      && Chunked(emitted, size)
      && |Concat(emitted)| <= stream.read
      && Concat(emitted) == RowsOf(stream.script, |Concat(emitted)|)
      && AllConvert(Concat(emitted), converts)
      && (err.None? ==> |Concat(emitted)| == stream.read)
      && (err.None? && !done ==> stream.err.None? && AllFull(emitted, size))
      && (err.None? && done ==> Finished())
      && (err.Some? ==> Failed())
    }

    /** The stream ended on its own and every row of it converted. */
    ghost predicate Finished()
      reads this, stream
    {
      && Clean(stream.script, stream.ending, stream.limit)
      && stream.read == Min(stream.limit, |stream.script|)
    }

    /** The source failed within the cap, or a row it delivered does not convert. */
    ghost predicate Failed()
      reads this, stream
    {
      || !Clean(stream.script, stream.ending, stream.limit)
      || (stream.read <= Scannable(stream.script) && !AllConvert(RowsOf(stream.script, stream.read), converts))
    }

    constructor (stream: SqlStream, requested: int, defaultSize: nat, converts: Row -> bool)
      requires stream.Valid() && stream.read == 0 && stream.err.None? && !stream.closed
      requires defaultSize > 0
      ensures Valid() && this.stream == stream && this.converts == converts && emitted == [] && !done && err.None?
      ensures size == if requested <= 0 then defaultSize else requested
    {
      this.stream, this.converts := stream, converts;
      size := if requested <= 0 then defaultSize else requested;
      done, err, emitted := false, None, [];
    }

    /** Fills the builder from the stream, stopping at a full batch, at the end, or at a row that
        does not convert. */
    method Fill() returns (built: seq<Row>)
      requires Valid() && !done && err.None?
      modifies this`err, stream
      ensures stream.Valid() && !stream.closed && |built| <= size
      ensures old(stream.read) <= stream.read
      ensures var handed := Concat(emitted);
              && (err.None? ==> handed + built == RowsOf(stream.script, stream.read))
              && (err.None? ==> AllConvert(built, converts))
              && (err.Some? ==> RowsOf(stream.script, stream.read)[..|handed|] == handed
                                && !AllConvert(RowsOf(stream.script, stream.read), converts))
      ensures err.None? && |built| < size ==>
                && (stream.err.None? <==> Clean(stream.script, stream.ending, stream.limit))
                && (stream.err.None? ==> stream.read == Min(stream.limit, |stream.script|))
      ensures err.None? && |built| == size ==> stream.err.None?
    {
      hide Concat, Chunked, Clean;
      built := [];
      ghost var handed := Concat(emitted);
      var more := true;
      while more && |built| < size
        invariant stream.Valid() && !stream.closed && err.None?
        invariant |built| <= size && old(stream.read) <= stream.read
        invariant more ==> stream.err.None?
        invariant !more ==> |built| < size
        invariant !more ==> (stream.err.None? <==> Clean(stream.script, stream.ending, stream.limit))
        invariant !more && stream.err.None? ==> stream.read == Min(stream.limit, |stream.script|)
        invariant handed + built == RowsOf(stream.script, stream.read)
        invariant AllConvert(built, converts)
        decreases size - |built| + if more then 1 else 0
      {
        ghost var before := stream.read;
        more := stream.Next();
        if more {
          RowsOfGrows(stream.script, before, stream.read);
          ghost var all := RowsOf(stream.script, stream.read);
          assert all == all[..before] + [all[before]];
          if !converts(stream.row) {
            err := Some("a row did not convert");
            assert !converts(all[before]);
            RowsOfGrows(stream.script, |handed|, stream.read);
            return;
          }
          built := built + [stream.row];
          assert handed + built == all;
        }
      }
    }

    /** The next batch, or none. A failure discards the batch it happens in, so what was handed out
        before it is a prefix of the answer; an ending without failure leaves nothing out. */
    method Next() returns (batch: Option<seq<Row>>)
      requires Valid()
      modifies this`done, this`err, this`emitted, stream
      ensures Valid()
      ensures batch.Some? ==> emitted == old(emitted) + [batch.value] && old(err).None? && !old(done)
      ensures batch.None? ==> emitted == old(emitted) && (done || err.Some?)
      ensures stream.read >= old(stream.read)
      ensures batch.Some? ==> stream.read > old(stream.read)
    {
      if done || err.Some? {
        return None;
      }
      ghost var handed := Concat(emitted);
      var built := Fill();
      if err.Some? {
        return None;
      }
      RowsOfGrows(stream.script, |handed|, stream.read);
      assert (handed + built)[..|handed|] == handed;
      if |built| < size {
        done := true;
        if stream.err.Some? {
          err := stream.err;
          return None;
        }
      }
      if built == [] {
        assert handed + built == handed;
        return None;
      }
      AppendBatch(emitted, built, size);
      emitted := emitted + [built];
      return Some(built);
    }
  }

  function SizeOf(requested: int): nat
    ensures SizeOf(requested) > 0
  {
    if requested <= 0 then 4096 else requested
  }

  /** Reads a stream to its end, looking at the context before each batch; `canceled` is what each look
      finds. Either every delivered row is in exactly one batch, in order, every batch but the last full and
      none empty; or there was a failure, or a look found the context canceled, and nothing is returned. */
  method Collect(stream: SqlStream, requested: int, converts: Row -> bool, canceled: nat -> bool)
    returns (r: Result<seq<seq<Row>>, string>)
    requires stream.Valid() && stream.read == 0 && stream.err.None? && !stream.closed
    modifies stream
    ensures var n := Min(stream.limit, |stream.script|);
            r.Ok? <==>
              && Clean(stream.script, stream.ending, stream.limit)
              && n <= Scannable(stream.script)
              && AllConvert(RowsOf(stream.script, n), converts)
              && forall i :: 0 <= i <= Batched(n, SizeOf(requested)) ==> !canceled(i)
    ensures r.Ok? ==>
              var n := Min(stream.limit, |stream.script|);
              && Concat(r.value) == RowsOf(stream.script, n)
              && (forall i :: 0 <= i < n ==> Shows(Concat(r.value)[i], stream.script[i].cells))
              && Chunked(r.value, SizeOf(requested))
  {
    hide Batched, Chunked, Concat, AllFull, Clean, RowsOf;
    var batches := new Batches(stream, requested, 4096, converts);
    var out: seq<seq<Row>> := [];
    while true
      invariant batches.Valid() && batches.stream == stream && batches.converts == converts
      invariant fresh(batches) && batches.emitted == out
      invariant batches.size == SizeOf(requested)
      invariant forall i :: 0 <= i < |out| ==> !canceled(i)
      decreases stream.limit - stream.read
    {
      ChunkCount(out, SizeOf(requested));
      BatchedGrows(|Concat(out)|, Min(stream.limit, |stream.script|), SizeOf(requested));
      if canceled(|out|) {
        return Err("canceled");
      }
      var record := batches.Next();
      if record.None? {
        break;
      }
      out := out + [record.value];
    }
    if batches.err.Some? {
      var n := Min(stream.limit, |stream.script|);
      if n <= Scannable(stream.script) {
        RowsOfGrows(stream.script, stream.read, n);
      }
      return Err(batches.err.value);
    }
    RowsShow(stream.script, Min(stream.limit, |stream.script|));
    return Ok(out);
  }
}
