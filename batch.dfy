/**
 * The chunked batch layer of pkg/internal/db/tables/test.go: `BatchGetItems`,
 * `BatchWriteItems` and the input check of `QueryItems`.
 *
 * Marshalling (`dynamodbattribute.MarshalMap`) and the store's single-request
 * batch operations are parameters. Each goroutine becomes a call of a worker
 * method, and the workers run one after another in the completion order
 * `order` (see module FanOut).
 */
module Batch {
  import opened Wrappers
  import opened ErrorChain
  import Chunking
  import FanOut

  /** `dynamodbattribute.MarshalMap` on one domain item: its wire form or an error. */
  type Marshaller<!K, W> = K -> Result<W, Error>
  /** The store's BatchGetItem on one chunk of wire keys: the records found, or an error. */
  type ReadMany<!W, R> = seq<W> -> Result<seq<R>, Error>
  /** The store's BatchWriteItem on one chunk of wire items: nil, or an error. */
  type WriteMany<!W> = seq<W> -> Option<Error>

  // ---------------------------------------------------------------------------
  // Marshalling one chunk into its slot array
  // ---------------------------------------------------------------------------

  /** The wire form of a whole chunk, or the error of its first item that fails to marshal. */
  function MarshalAll<K, W>(items: seq<K>, marshal: Marshaller<K, W>): Result<seq<W>, Error>
  {
    if |items| == 0 then Success([])
    else match marshal(items[0])
      case Failure(e) => Failure(e)
      case Success(w) =>
        match MarshalAll(items[1..], marshal)
        case Failure(e) => Failure(e)
        case Success(ws) => Success([w] + ws)
  }

  /**
   * A chunk marshals iff every item does; slot j then holds the wire form of
   * item j; otherwise the error is that of the first failing item.
   */
  lemma {:induction false} MarshalAllSpec<K, W>(items: seq<K>, marshal: Marshaller<K, W>)
    ensures MarshalAll(items, marshal).Success? <==> forall j :: 0 <= j < |items| ==> marshal(items[j]).Success?
    ensures MarshalAll(items, marshal).Success? ==>
      |MarshalAll(items, marshal).value| == |items| &&
      forall j :: 0 <= j < |items| ==> MarshalAll(items, marshal).value[j] == marshal(items[j]).value
    ensures MarshalAll(items, marshal).Failure? ==>
      exists j :: 0 <= j < |items| && marshal(items[j]) == Failure(MarshalAll(items, marshal).error) &&
        forall i :: 0 <= i < j ==> marshal(items[i]).Success?
  {
    if |items| > 0 {
      MarshalAllSpec(items[1..], marshal);
      var r := MarshalAll(items, marshal);
      if marshal(items[0]).Success? && r.Failure? {
        var j :| 0 <= j < |items[1..]| && marshal(items[1..][j]) == Failure(r.error) &&
          forall i :: 0 <= i < j ==> marshal(items[1..][i]).Success?;
        assert marshal(items[j + 1]) == Failure(r.error);
        forall i | 0 <= i < j + 1 ensures marshal(items[i]).Success? {
          if i > 0 { assert items[i] == items[1..][i - 1]; }
        }
      }
      if !marshal(items[0]).Success? {
        assert marshal(items[0]) == Failure(r.error);
      }
    }
  }

  /** If the first `j` items marshal and item `j` does not, the chunk fails with item j's error. */
  lemma {:induction false} MarshalAllFirstFailure<K, W>(items: seq<K>, marshal: Marshaller<K, W>, j: nat)
    requires j < |items| && marshal(items[j]).Failure?
    requires forall i :: 0 <= i < j ==> marshal(items[i]).Success?
    ensures MarshalAll(items, marshal) == Failure(marshal(items[j]).error)
  {
    if j > 0 {
      MarshalAllFirstFailure(items[1..], marshal, j - 1);
    }
  }

  /**
   * The slot-filling loop of a worker (test.go:136-144 and 197-206): slot j
   * receives the wire form of item j, and the first failure abandons the chunk.
   */
  method MarshalChunk<K, W(0)>(chunk: seq<K>, marshal: Marshaller<K, W>) returns (r: Result<seq<W>, Error>)
    ensures r == MarshalAll(chunk, marshal)
  {
    var slots := new W[|chunk|];
    for j := 0 to |chunk|
      invariant forall i :: 0 <= i < j ==> marshal(chunk[i]).Success? && slots[i] == marshal(chunk[i]).value
    {
      var m := marshal(chunk[j]);
      if m.Failure? {
        MarshalAllFirstFailure(chunk, marshal, j);
        return Failure(m.error);
      }
      slots[j] := m.value;
    }
    MarshalAllSpec(chunk, marshal);
    assert MarshalAll(chunk, marshal).value == slots[..];
    r := Success(slots[..]);
  }

  // ---------------------------------------------------------------------------
  // What one worker does
  // ---------------------------------------------------------------------------

  /** A read worker's outcome: the store is asked only when the whole chunk marshalled. */
  function ReadOutcome<K, W, R>(chunk: seq<K>, marshal: Marshaller<K, W>, readMany: ReadMany<W, R>): Result<seq<R>, Error>
  {
    match MarshalAll(chunk, marshal)
    case Failure(e) => Failure(e)
    case Success(ws) => readMany(ws)
  }

  /** A write worker's outcome: nil, a marshal error, or the store's error. */
  function WriteOutcome<K, W>(chunk: seq<K>, marshal: Marshaller<K, W>, writeMany: WriteMany<W>): Option<Error>
  {
    match MarshalAll(chunk, marshal)
    case Failure(e) => Some(e)
    case Success(ws) => writeMany(ws)
  }

  /** The store requests a worker makes: its whole marshalled chunk, or none at all. */
  function Submission<K, W>(chunk: seq<K>, marshal: Marshaller<K, W>): seq<seq<W>>
  {
    match MarshalAll(chunk, marshal)
    case Failure(_) => []
    case Success(ws) => [ws]
  }

  /** Records a read worker appends to `allResults`. */
  function RecordsOf<R>(out: Result<seq<R>, Error>): seq<R>
  {
    if out.Success? then out.value else []
  }

  /** Errors a read worker sends on the channel. */
  function ErrorsOf<R>(out: Result<seq<R>, Error>): seq<Error>
  {
    if out.Failure? then [out.error] else []
  }

  /** Errors a write worker sends on the channel. */
  function WriteErrorsOf(out: Option<Error>): seq<Error>
  {
    if out.Some? then [out.value] else []
  }

  /** Per chunk, in submission order: the records each read worker contributes. */
  function ReadRecords<K, W, R>(chunks: seq<seq<K>>, marshal: Marshaller<K, W>, readMany: ReadMany<W, R>): (cs: seq<seq<R>>)
    ensures |cs| == |chunks|
  {
    seq(|chunks|, k requires 0 <= k < |chunks| => RecordsOf(ReadOutcome(chunks[k], marshal, readMany)))
  }

  /** Per chunk: the errors each read worker sends (none or one). */
  function ReadErrors<K, W, R>(chunks: seq<seq<K>>, marshal: Marshaller<K, W>, readMany: ReadMany<W, R>): (cs: seq<seq<Error>>)
    ensures |cs| == |chunks|
  {
    seq(|chunks|, k requires 0 <= k < |chunks| => ErrorsOf(ReadOutcome(chunks[k], marshal, readMany)))
  }

  /** Per chunk: the errors each write worker sends (none or one). */
  function WriteErrors<K, W>(chunks: seq<seq<K>>, marshal: Marshaller<K, W>, writeMany: WriteMany<W>): (cs: seq<seq<Error>>)
    ensures |cs| == |chunks|
  {
    seq(|chunks|, k requires 0 <= k < |chunks| => WriteErrorsOf(WriteOutcome(chunks[k], marshal, writeMany)))
  }

  /** Per chunk: the store requests each worker makes. */
  function StoreCalls<K, W>(chunks: seq<seq<K>>, marshal: Marshaller<K, W>): (cs: seq<seq<seq<W>>>)
    ensures |cs| == |chunks|
  {
    seq(|chunks|, k requires 0 <= k < |chunks| => Submission(chunks[k], marshal))
  }

  /**
   * The body of a read goroutine (test.go:133-153): marshal the chunk, send the
   * marshal error or call the store, send the store error or hand back the records.
   */
  method ReadChunk<K, W(0), R>(chunk: seq<K>, marshal: Marshaller<K, W>, readMany: ReadMany<W, R>, errCh: ErrorChannel)
    returns (resp: seq<R>, ghost call: seq<seq<W>>)
    requires errCh.Valid() && !errCh.closed && |errCh.buffered| < errCh.capacity
    modifies errCh
    ensures errCh.Valid() && !errCh.closed
    ensures errCh.buffered == old(errCh.buffered) + ErrorsOf(ReadOutcome(chunk, marshal, readMany))
    ensures resp == RecordsOf(ReadOutcome(chunk, marshal, readMany))
    ensures call == Submission(chunk, marshal)
  {
    var marshalled := MarshalChunk(chunk, marshal);
    if marshalled.Failure? {
      errCh.Send(marshalled.error);
      return [], [];
    }
    call := [marshalled.value];
    var result := readMany(marshalled.value);
    if result.Failure? {
      errCh.Send(result.error);
      return [], call;
    }
    resp := result.value;
  }

  /** The body of a write goroutine (test.go:194-211). */
  method WriteChunk<K, W(0)>(chunk: seq<K>, marshal: Marshaller<K, W>, writeMany: WriteMany<W>, errCh: ErrorChannel)
    returns (ghost call: seq<seq<W>>)
    requires errCh.Valid() && !errCh.closed && |errCh.buffered| < errCh.capacity
    modifies errCh
    ensures errCh.Valid() && !errCh.closed
    ensures errCh.buffered == old(errCh.buffered) + WriteErrorsOf(WriteOutcome(chunk, marshal, writeMany))
    ensures call == Submission(chunk, marshal)
  {
    var marshalled := MarshalChunk(chunk, marshal);
    if marshalled.Failure? {
      errCh.Send(marshalled.error);
      return [];
    }
    call := [marshalled.value];
    var err := writeMany(marshalled.value);
    if err.Some? {
      errCh.Send(err.value);
    }
  }

  // ---------------------------------------------------------------------------
  // The two batch operations
  // ---------------------------------------------------------------------------

  /**
   * `BatchGetItems` (test.go:116-169). Returns the records and the aggregate
   * error, and (ghost) the store requests made, in completion order.
   * The error channel has room for `len(keys)` errors, which the proof shows
   * is never exceeded.
   */
  method BatchGetItems<K, W(0), R>(keys: seq<K>, marshal: Marshaller<K, W>, readMany: ReadMany<W, R>, order: seq<nat>)
    returns (allResults: seq<R>, finalErr: Option<Error>, ghost calls: seq<seq<W>>)
    requires FanOut.IsSchedule(order, |Chunking.Chunks(keys, Chunking.MaxBatchGet)|)
    ensures var chunks := Chunking.Chunks(keys, Chunking.MaxBatchGet);
      && allResults == FanOut.Gather(ReadRecords(chunks, marshal, readMany), order)
      && finalErr == Chain(FanOut.Gather(ReadErrors(chunks, marshal, readMany), order))
      && calls == FanOut.Gather(StoreCalls(chunks, marshal), order)
    ensures |keys| == 0 ==> allResults == [] && finalErr == None && calls == []
  {
    var chunks := Chunking.Split(keys, Chunking.MaxBatchGet);
    Chunking.ChunksAtMost(keys, Chunking.MaxBatchGet);
    FanOut.ScheduleFacts(order, |chunks|);
    ghost var recs := ReadRecords(chunks, marshal, readMany);
    ghost var errs := ReadErrors(chunks, marshal, readMany);
    ghost var subs := StoreCalls(chunks, marshal);

    var errCh := new ErrorChannel(|keys|);
    allResults := [];
    calls := [];
    for t := 0 to |order|
      invariant errCh.Valid() && !errCh.closed && errCh.capacity == |keys|
      invariant allResults == FanOut.Gather(recs, order[..t])
      invariant errCh.buffered == FanOut.Gather(errs, order[..t])
      invariant calls == FanOut.Gather(subs, order[..t])
      invariant |errCh.buffered| <= t
    {
      assert order[..t + 1][..t] == order[..t];
      var resp;
      ghost var call;
      resp, call := ReadChunk(chunks[order[t]], marshal, readMany, errCh);
      allResults := allResults + resp;
      calls := calls + call;
    }
    assert order[..|order|] == order;
    finalErr := Drain(errCh);
  }

  /**
   * `BatchWriteItems` (test.go:171-227). Returns the aggregate error and (ghost)
   * the store requests made, in completion order. The error channel has room
   * for `len(chunks)` errors.
   */
  method BatchWriteItems<K, W(0)>(requestItems: seq<K>, marshal: Marshaller<K, W>, writeMany: WriteMany<W>, order: seq<nat>)
    returns (finalErr: Option<Error>, ghost calls: seq<seq<W>>)
    requires FanOut.IsSchedule(order, |Chunking.Chunks(requestItems, Chunking.MaxBatchWrite)|)
    ensures var chunks := Chunking.Chunks(requestItems, Chunking.MaxBatchWrite);
      && finalErr == Chain(FanOut.Gather(WriteErrors(chunks, marshal, writeMany), order))
      && calls == FanOut.Gather(StoreCalls(chunks, marshal), order)
    ensures |requestItems| == 0 ==> finalErr == None && calls == []
  {
    var chunks := Chunking.Split(requestItems, Chunking.MaxBatchWrite);
    FanOut.ScheduleFacts(order, |chunks|);
    ghost var errs := WriteErrors(chunks, marshal, writeMany);
    ghost var subs := StoreCalls(chunks, marshal);

    var errCh := new ErrorChannel(|chunks|);
    calls := [];
    for t := 0 to |order|
      invariant errCh.Valid() && !errCh.closed && errCh.capacity == |chunks|
      invariant errCh.buffered == FanOut.Gather(errs, order[..t])
      invariant calls == FanOut.Gather(subs, order[..t])
      invariant |errCh.buffered| <= t
    {
      assert order[..t + 1][..t] == order[..t];
      ghost var call := WriteChunk(chunks[order[t]], marshal, writeMany, errCh);
      calls := calls + call;
    }
    assert order[..|order|] == order;
    finalErr := Drain(errCh);
  }

  // ---------------------------------------------------------------------------
  // What the two operations promise, whatever the completion order
  // ---------------------------------------------------------------------------

  /** The read's aggregate error is nil iff every chunk marshalled and was read successfully. */
  lemma ReadNilIff<K, W, R>(chunks: seq<seq<K>>, marshal: Marshaller<K, W>, readMany: ReadMany<W, R>, order: seq<nat>)
    requires FanOut.IsSchedule(order, |chunks|)
    ensures Chain(FanOut.Gather(ReadErrors(chunks, marshal, readMany), order)) == None <==>
      forall k :: 0 <= k < |chunks| ==> ReadOutcome(chunks[k], marshal, readMany).Success?
  {
    var errs := ReadErrors(chunks, marshal, readMany);
    ChainNilIff(FanOut.Gather(errs, order));
    FanOut.GatherEmptyIff(errs, order);
    assert forall k :: 0 <= k < |chunks| ==> (errs[k] == [] <==> ReadOutcome(chunks[k], marshal, readMany).Success?);
  }

  /** The write's aggregate error is nil iff every chunk marshalled and was written successfully. */
  lemma WriteNilIff<K, W>(chunks: seq<seq<K>>, marshal: Marshaller<K, W>, writeMany: WriteMany<W>, order: seq<nat>)
    requires FanOut.IsSchedule(order, |chunks|)
    ensures Chain(FanOut.Gather(WriteErrors(chunks, marshal, writeMany), order)) == None <==>
      forall k :: 0 <= k < |chunks| ==> WriteOutcome(chunks[k], marshal, writeMany) == None
  {
    var errs := WriteErrors(chunks, marshal, writeMany);
    ChainNilIff(FanOut.Gather(errs, order));
    FanOut.GatherEmptyIff(errs, order);
    assert forall k :: 0 <= k < |chunks| ==> (errs[k] == [] <==> WriteOutcome(chunks[k], marshal, writeMany) == None);
  }

  /**
   * Whatever the completion order, the records returned are those of the
   * successful chunks concatenated in chunk order, up to reordering; so their
   * number is the sum of the successful responses' lengths. Each chunk sends
   * at most one error, so there are never more errors than chunks.
   */
  lemma ReadUpToOrder<K, W, R>(chunks: seq<seq<K>>, marshal: Marshaller<K, W>, readMany: ReadMany<W, R>, order: seq<nat>)
    requires FanOut.IsSchedule(order, |chunks|)
    ensures multiset(FanOut.Gather(ReadRecords(chunks, marshal, readMany), order)) ==
      multiset(Chunking.Flatten(ReadRecords(chunks, marshal, readMany)))
    ensures |FanOut.Gather(ReadRecords(chunks, marshal, readMany), order)| ==
      |Chunking.Flatten(ReadRecords(chunks, marshal, readMany))|
    ensures multiset(FanOut.Gather(ReadErrors(chunks, marshal, readMany), order)) ==
      multiset(Chunking.Flatten(ReadErrors(chunks, marshal, readMany)))
    ensures |FanOut.Gather(ReadErrors(chunks, marshal, readMany), order)| <= |chunks|
  {
    var recs := ReadRecords(chunks, marshal, readMany);
    var errs := ReadErrors(chunks, marshal, readMany);
    FanOut.ScheduledGather(recs, order);
    FanOut.ScheduledGather(errs, order);
    ReadErrorsAtMostOne(chunks, marshal, readMany);
    FanOut.GatherAtMostOne(errs, order);
  }

  /** A read worker sends at most one error. */
  lemma ReadErrorsAtMostOne<K, W, R>(chunks: seq<seq<K>>, marshal: Marshaller<K, W>, readMany: ReadMany<W, R>)
    ensures forall k :: 0 <= k < |chunks| ==> |ReadErrors(chunks, marshal, readMany)[k]| <= 1
  {
  }

  /** A sequence whose multiset is a single item is that item. */
  lemma SingletonMultiset<T>(s: seq<T>, x: T)
    requires multiset(s) == multiset{x}
    ensures s == [x]
  {
    assert |s| == |multiset(s)| == 1;
    assert s[0] in multiset(s);
  }

  /**
   * Failure is local: when exactly chunk `f` fails, the aggregate error is that
   * chunk's error alone, and the records of every other chunk are returned.
   */
  lemma ReadSingleFailure<K, W, R>(chunks: seq<seq<K>>, marshal: Marshaller<K, W>, readMany: ReadMany<W, R>, order: seq<nat>, f: nat)
    requires FanOut.IsSchedule(order, |chunks|)
    requires f < |chunks| && ReadOutcome(chunks[f], marshal, readMany).Failure?
    requires forall k :: 0 <= k < |chunks| && k != f ==> ReadOutcome(chunks[k], marshal, readMany).Success?
    ensures Chain(FanOut.Gather(ReadErrors(chunks, marshal, readMany), order)) == Some(ReadOutcome(chunks[f], marshal, readMany).error)
    ensures forall k :: 0 <= k < |chunks| && k != f ==>
      multiset(ReadOutcome(chunks[k], marshal, readMany).value) <= multiset(FanOut.Gather(ReadRecords(chunks, marshal, readMany), order))
  {
    var errs := ReadErrors(chunks, marshal, readMany);
    var recs := ReadRecords(chunks, marshal, readMany);
    FanOut.ScheduledGather(errs, order);
    FanOut.FlattenOnly(errs, f);
    SingletonMultiset(FanOut.Gather(errs, order), ReadOutcome(chunks[f], marshal, readMany).error);
    FanOut.ScheduledGather(recs, order);
    forall k | 0 <= k < |chunks| && k != f
      ensures multiset(ReadOutcome(chunks[k], marshal, readMany).value) <= multiset(FanOut.Gather(recs, order))
    {
      FlattenContains(recs, k);
    }
  }

  /** Each contribution is contained, as a multiset, in the concatenation. */
  lemma {:induction false} FlattenContains<T>(cs: seq<seq<T>>, k: nat)
    requires k < |cs|
    ensures multiset(cs[k]) <= multiset(Chunking.Flatten(cs))
  {
    if k > 0 {
      FlattenContains(cs[1..], k - 1);
    }
  }

  /**
   * Failure is local on the write path too: when exactly chunk `f` fails, the
   * aggregate error is that chunk's error alone, and every other chunk was
   * submitted to the store, whole.
   */
  lemma WriteSingleFailure<K, W>(chunks: seq<seq<K>>, marshal: Marshaller<K, W>, writeMany: WriteMany<W>, order: seq<nat>, f: nat)
    requires FanOut.IsSchedule(order, |chunks|)
    requires f < |chunks| && WriteOutcome(chunks[f], marshal, writeMany).Some?
    requires forall k :: 0 <= k < |chunks| && k != f ==> WriteOutcome(chunks[k], marshal, writeMany) == None
    ensures Chain(FanOut.Gather(WriteErrors(chunks, marshal, writeMany), order)) == WriteOutcome(chunks[f], marshal, writeMany)
    ensures forall k :: 0 <= k < |chunks| && k != f ==>
      MarshalAll(chunks[k], marshal).Success? && MarshalAll(chunks[k], marshal).value in FanOut.Gather(StoreCalls(chunks, marshal), order)
  {
    var errs := WriteErrors(chunks, marshal, writeMany);
    FanOut.ScheduledGather(errs, order);
    FanOut.FlattenOnly(errs, f);
    SingletonMultiset(FanOut.Gather(errs, order), WriteOutcome(chunks[f], marshal, writeMany).value);
    StoreCallsAreWholeChunks(chunks, marshal, order);
  }

  /**
   * The store is asked exactly for the chunks whose every item marshalled,
   * each with its whole marshalled chunk, and never for any other.
   */
  lemma StoreCallsAreWholeChunks<K, W>(chunks: seq<seq<K>>, marshal: Marshaller<K, W>, order: seq<nat>)
    requires FanOut.IsSchedule(order, |chunks|)
    ensures forall k :: 0 <= k < |chunks| && MarshalAll(chunks[k], marshal).Success? ==>
      MarshalAll(chunks[k], marshal).value in FanOut.Gather(StoreCalls(chunks, marshal), order)
    ensures forall c :: c in FanOut.Gather(StoreCalls(chunks, marshal), order) ==>
      exists k :: 0 <= k < |chunks| && MarshalAll(chunks[k], marshal) == Success(c)
  {
    var subs := StoreCalls(chunks, marshal);
    var calls := FanOut.Gather(subs, order);
    FanOut.ScheduledGather(subs, order);
    forall k | 0 <= k < |chunks| && MarshalAll(chunks[k], marshal).Success?
      ensures MarshalAll(chunks[k], marshal).value in calls
    {
      var c := MarshalAll(chunks[k], marshal).value;
      assert c in subs[k];
      FanOut.FlattenMember(subs, c);
      assert c in multiset(calls);
    }
    forall c | c in calls
      ensures exists k :: 0 <= k < |chunks| && MarshalAll(chunks[k], marshal) == Success(c)
    {
      assert c in multiset(calls);
      FanOut.FlattenMember(subs, c);
      var k :| 0 <= k < |subs| && c in subs[k];
      assert MarshalAll(chunks[k], marshal) == Success(c);
    }
  }

  /** 30 items make two write chunks, of 25 and 5 items. */
  lemma WriteThirtyItems<K>(items: seq<K>)
    requires |items| == 30
    ensures |Chunking.Chunks(items, Chunking.MaxBatchWrite)| == 2
    ensures Chunking.Chunks(items, Chunking.MaxBatchWrite) == [items[..25], items[25..]]
  {
    Chunking.ChunksCount(items, Chunking.MaxBatchWrite);
    Chunking.ChunkAt(items, Chunking.MaxBatchWrite, 0);
    Chunking.ChunkAt(items, Chunking.MaxBatchWrite, 1);
    var cs := Chunking.Chunks(items, Chunking.MaxBatchWrite);
    assert cs[0] == items[..25] && cs[1] == items[25..];
  }

  /** 250 keys make three read chunks, of 100, 100 and 50 keys. */
  lemma ReadTwoHundredFiftyKeys<K>(keys: seq<K>)
    requires |keys| == 250
    ensures Chunking.Chunks(keys, Chunking.MaxBatchGet) == [keys[..100], keys[100..200], keys[200..]]
  {
    Chunking.ChunksCount(keys, Chunking.MaxBatchGet);
    Chunking.ChunkAt(keys, Chunking.MaxBatchGet, 0);
    Chunking.ChunkAt(keys, Chunking.MaxBatchGet, 1);
    Chunking.ChunkAt(keys, Chunking.MaxBatchGet, 2);
    var cs := Chunking.Chunks(keys, Chunking.MaxBatchGet);
    assert |cs| == 3;
    assert cs[0] == keys[..100] && cs[1] == keys[100..200] && cs[2] == keys[200..];
  }

  // ---------------------------------------------------------------------------
  // QueryItems
  // ---------------------------------------------------------------------------

  const NoKeysProvided: string := "no keys provided"
  const MissingPk: string := "missing required key: pk"
  const PartitionKey: string := "pk"

  /**
   * `QueryItems` (test.go:78-108): refuses an empty key list and any key map
   * without "pk" before the store is asked; otherwise the store's query result
   * is returned as it is. `queried` (ghost) says whether the store was asked.
   */
  method QueryItems<V, R>(keys: seq<map<string, V>>, query: seq<map<string, V>> -> Result<seq<R>, Error>)
    returns (items: seq<R>, err: Option<Error>, ghost queried: bool)
    ensures |keys| == 0 ==> items == [] && err == Some(Leaf(NoKeysProvided)) && !queried
    ensures |keys| > 0 && (exists i :: 0 <= i < |keys| && PartitionKey !in keys[i]) ==>
      items == [] && err == Some(Leaf(MissingPk)) && !queried
    ensures |keys| > 0 && (forall i :: 0 <= i < |keys| ==> PartitionKey in keys[i]) ==>
      queried && (match query(keys)
        case Success(rs) => items == rs && err == None
        case Failure(e) => items == [] && err == Some(e))
  {
    if |keys| == 0 {
      return [], Some(Leaf(NoKeysProvided)), false;
    }
    for i := 0 to |keys|
      invariant forall j :: 0 <= j < i ==> PartitionKey in keys[j]
    {
      if PartitionKey !in keys[i] {
        return [], Some(Leaf(MissingPk)), false;
      }
    }
    queried := true;
    var result := query(keys);
    if result.Failure? {
      return [], Some(result.error), queried;
    }
    items, err := result.value, None;
  }
}
