/** The stream the pipeline hands out: it counts what it delivers and copies it aside for the cache. */
module LoggedStream {
  import opened Common
  import opened Streams
  import opened ResultCache

  datatype Status = Hit | Miss | Uncached

  function EstimateCell(c: Cell): nat {
    match c
    case Nil => 0
    case Text(t) => |t|
    case Bytes(b) => |b|
    case Instant(_) => 24
    case Flag(_) => 1
    case Number(_) => 8
  }

  function Estimate(row: Row): nat {
    if row == [] then 0 else EstimateCell(row[0]) + Estimate(row[1..])
  }

  function EstimateAll(rows: seq<Row>): nat {
    if rows == [] then 0 else EstimateAll(rows[..|rows| - 1]) + Estimate(rows[|rows| - 1])
  }

  /** What the tee into the cache has gathered. */
  datatype Tee = Tee(rows: nat, bytes: nat, caching: bool, status: Status, pending: seq<Row>, exhausted: bool)

  function Opened(cacheable: bool): Tee {
    Tee(0, 0, cacheable, if cacheable then Miss else Uncached, [], false)
  }

  function TeeRow(t: Tee, row: Row, maxEntryBytes: nat): Tee {
    var counted := t.(rows := t.rows + 1, bytes := t.bytes + Estimate(row));
    if !t.caching then counted
    else if counted.bytes > maxEntryBytes then counted.(caching := false, status := Uncached, pending := [])
    else counted.(pending := t.pending + [row])
  }

  function TeeEnd(t: Tee, failed: bool): Tee {
    t.(exhausted := !failed)
  }

  /** Whether closing offers the copy to the cache. */
  predicate Offers(t: Tee, failed: bool) {
    t.status == Miss && t.caching && t.exhausted && !failed
  }

  /** Sizes add up, so no cell of a row goes uncounted. */
  lemma {:induction false} EstimateAdds(a: Row, b: Row)
    ensures Estimate(a + b) == Estimate(a) + Estimate(b)
  {
    if a != [] {
      EstimateAdds(a[1..], b);
      assert (a + b)[1..] == a[1..] + b;
    } else {
      assert a + b == b;
    }
  }

  /** The copy is exactly what was delivered for as long as the answer may be kept and fits, and was given
      up for good from there on. */
  ghost predicate Follows(t: Tee, delivered: seq<Row>, cacheable: bool, maxEntryBytes: nat) {
    && t.rows == |delivered|
    && t.bytes == EstimateAll(delivered)
    && (t.caching <==> cacheable && EstimateAll(delivered) <= maxEntryBytes)
    && (t.caching ==> t.pending == delivered)
    && (t.status == Miss <==> t.caching) && t.status != Hit
  }

  lemma RowFollows(t: Tee, delivered: seq<Row>, row: Row, cacheable: bool, maxEntryBytes: nat)
    requires Follows(t, delivered, cacheable, maxEntryBytes)
    ensures Follows(TeeRow(t, row, maxEntryBytes), delivered + [row], cacheable, maxEntryBytes)
    ensures !t.caching ==> !TeeRow(t, row, maxEntryBytes).caching
  {
    assert (delivered + [row])[..|delivered|] == delivered;
  }

  class LoggedStream {
    const stream: SqlStream
    const cache: Cache<Row>
    const cacheKey: string
    const cacheable: bool

    var rows: nat
    var bytes: nat
    var caching: bool
    var cacheStatus: Status
    var pending: seq<Row>
    var exhausted: bool
    var closed: bool

    function Copied(): Tee
      reads this
    {
      Tee(rows, bytes, caching, cacheStatus, pending, exhausted)
    }

    ghost predicate Valid()
      reads this, stream, cache
    {
      && stream.Valid() && cache.Valid()
      && (!closed ==>
            && !stream.closed
            && Follows(Copied(), RowsOf(stream.script, stream.read), cacheable, cache.limits.maxEntryBytes)
            && (exhausted ==>
                  && stream.err.None? && Clean(stream.script, stream.ending, stream.limit)
                  && stream.read == Min(stream.limit, |stream.script|)
                  && (stream.truncated <==> |stream.script| >= stream.limit)))
    }

    constructor (stream: SqlStream, cache: Cache<Row>, key: string, cacheable: bool)
      requires stream.Valid() && stream.read == 0 && !stream.closed && cache.Valid()
      ensures Valid() && !closed && Copied() == Opened(cacheable)
      ensures this.stream == stream && this.cache == cache && this.cacheKey == key && this.cacheable == cacheable
    {
      this.stream, this.cache, cacheKey, this.cacheable := stream, cache, key, cacheable;
      rows, bytes, caching, pending, exhausted, closed := 0, 0, cacheable, [], false, false;
      cacheStatus := if cacheable then Miss else Uncached;
    }

    method Next() returns (more: bool)
      requires Valid() && !closed
      modifies this`rows, this`bytes, this`caching, this`cacheStatus, this`pending, this`exhausted, stream
      ensures Valid() && !closed
      ensures more ==> stream.read == old(stream.read) + 1
                       && Copied() == TeeRow(old(Copied()), stream.row, cache.limits.maxEntryBytes)
      ensures !more ==> Copied() == old(Copied()).(exhausted := stream.err.None?) && stream.read == old(stream.read)
    {
      hide Estimate, Clean, EstimateAll;
      ghost var before := RowsOf(stream.script, stream.read);
      more := stream.Next();
      if !more {
        exhausted := stream.err.None?;
        return;
      }
      RowFollows(Copied(), before, stream.row, cacheable, cache.limits.maxEntryBytes);
      assert RowsOf(stream.script, stream.read) == before + [stream.row];
      rows := rows + 1;
      bytes := bytes + Estimate(stream.row);
      TeeCurrent();
    }

    /** Copies the current row aside, or gives the copy up once it has outgrown the budget. */
    method TeeCurrent()
      modifies this`caching, this`cacheStatus, this`pending
      ensures caching == (old(caching) && bytes <= cache.limits.maxEntryBytes)
      ensures old(caching) && !caching ==> cacheStatus == Uncached && pending == []
      ensures caching ==> cacheStatus == old(cacheStatus) && pending == old(pending) + [stream.row]
      ensures !old(caching) ==> cacheStatus == old(cacheStatus) && pending == old(pending)
    {
      if !caching {
        return;
      }
      if bytes > cache.limits.maxEntryBytes {
        caching, cacheStatus, pending := false, Uncached, [];
        return;
      }
      pending := pending + [stream.row];
    }

    /** Closing keeps the answer, at most once: exactly when it may be kept, the source was read to the end
        of a clean answer and closed without an error, and the answer fits both limits. In front of the
        cache is then all of it, with its own columns and its own flag; otherwise the cache is as it was. */
    method Close(closeErr: Option<string>, now: int) returns (failed: bool)
      requires Valid()
      modifies this, stream, cache`entries, cache`order, cache`bytes, cache`stats
      ensures Valid() && closed
      ensures old(closed) ==> !failed && cache.order == old(cache.order) && Copied() == old(Copied())
      ensures !old(closed) ==> (failed <==> stream.err.Some? || closeErr.Some?)
      ensures !old(closed) ==>
                var answer := RowsOf(stream.script, stream.read);
                var size := EstimateAll(answer);
                var entry := Entry(cacheKey, stream.columns, answer, stream.truncated, size, now + cache.limits.ttl);
                if cacheable && old(exhausted) && !failed
                   && size <= cache.limits.maxEntryBytes && size <= cache.limits.maxBytes
                then
                  && cacheStatus == Miss
                  && cache.order == Stored(old(cache.order), entry, cache.limits).0
                  && cache.order != [] && cache.order[0] == entry
                  && Clean(stream.script, stream.ending, stream.limit)
                  && stream.read == Min(stream.limit, |stream.script|)
                  && (entry.truncated <==> |stream.script| >= stream.limit)
                else cacheStatus == Uncached && cache.order == old(cache.order)
    {
      hide Stored, EstimateAll, Estimate, cache.Valid;
      if closed {
        return false;
      }
      stream.Close();
      failed := stream.err.Some? || closeErr.Some?;
      ghost var answer := RowsOf(stream.script, stream.read);
      assert Follows(Copied(), answer, cacheable, cache.limits.maxEntryBytes);
      Store(failed, now);
      StoredInFront(old(cache.order), Entry(cacheKey, stream.columns, answer, stream.truncated, EstimateAll(answer),
                                            now + cache.limits.ttl), cache.limits);
      closed := true;
    }

    /** Puts the copy in the cache, if it earned the right to be there. */
    method Store(failed: bool, now: int)
      requires cache.Valid()
      modifies this`cacheStatus, this`pending, cache`entries, cache`order, cache`bytes, cache`stats
      ensures cache.Valid()
      ensures old(cacheStatus) != Miss ==> cache.order == old(cache.order) && Copied() == old(Copied())
      ensures old(cacheStatus) == Miss ==>
                var entry := Entry(cacheKey, stream.columns, old(pending), stream.truncated, bytes,
                                   now + cache.limits.ttl);
                var (order, taken) := Stored(old(cache.order), entry, cache.limits);
                if caching && exhausted && !failed
                then cache.order == order && cacheStatus == (if taken then Miss else Uncached) && pending == []
                else cache.order == old(cache.order) && cacheStatus == Uncached && pending == old(pending)
    {
      hide Stored, cache.Valid;
      if cacheStatus != Miss {
        return;
      }
      if !caching || !exhausted || failed {
        cacheStatus := Uncached;
        return;
      }
      var taken := cache.Put(cacheKey, stream.columns, pending, stream.truncated, bytes, now);
      if !taken {
        cacheStatus := Uncached;
      }
      pending := [];
    }
  }
}
