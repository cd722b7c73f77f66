/** Batched writes that retry what the service leaves unprocessed. */
module BatchWrite {
  import opened Common

  /** DynamoDB's limit on the items of one request. */
  const MAX_BATCH := 25

  /** One request: what it carried, whether it succeeded, and what the service gave back unprocessed. */
  datatype Call<Req> = Call(items: seq<Req>, ok: bool, back: seq<Req>)

  /**
   The table as its service behaves: a call fails and does nothing, or applies all but
   some of its items and gives those back. Which, and how many, is not determined.
   */
  class BatchTable<Req(==)> {
    var applied: multiset<Req>
    var log: seq<Call<Req>>

    method BatchWriteItem(items: seq<Req>) returns (ok: bool, unprocessed: seq<Req>)
      modifies this
      ensures log == old(log) + [Call(items, ok, unprocessed)]
      ensures !ok ==> applied == old(applied)
      ensures ok ==> applied + multiset(unprocessed) == old(applied) + multiset(items)
      ensures |unprocessed| <= |items|
    {
      ok, unprocessed := false, [];
      if * {
        var k: nat :| k <= |items|;
        ok, unprocessed := true, items[..k];
        applied := applied + multiset(items[k..]);
        assert items == items[..k] + items[k..];
      }
      log := log + [Call(items, ok, unprocessed)];
    }
  }

  /** lo.Chunk: consecutive pieces of `n`, the last one possibly shorter. */
  function Chunks<T>(s: seq<T>, n: nat): (r: seq<seq<T>>)
    requires n > 0
    ensures forall i | 0 <= i < |r| :: 0 < |r[i]| <= n
    ensures Flatten(r) == s
  {
    if s == [] then []
    else if |s| <= n then assert Flatten([s]) == s; [s]
    else
      FlattenCons(s[..n], Chunks(s[n..], n));
      [s[..n]] + Chunks(s[n..], n)
  }

  function Flatten<T>(parts: seq<seq<T>>): seq<T> {
    if parts == [] then [] else Flatten(parts[..|parts| - 1]) + parts[|parts| - 1]
  }

  lemma {:induction false} FlattenCons<T>(p: seq<T>, parts: seq<seq<T>>)
    ensures Flatten([p] + parts) == p + Flatten(parts)
  {
    if parts == [] {
      assert [p] + parts == [p];
      assert Flatten([p]) == Flatten([]) + p;
    } else {
      var front := parts[..|parts| - 1];
      FlattenCons(p, front);
      assert ([p] + parts)[..|parts|] == [p] + front;
    }
  }

  function Budget(depth: int): nat { if depth < 0 then 0 else depth + 1 }

  /** Each call carries what the one before gave back, the first one the chunk; only the last may fail or empty it. */
  ghost predicate Chained<T>(calls: seq<Call<T>>, chunk: seq<T>) {
    && (calls != [] ==> calls[0].items == chunk)
    && (forall k | 0 <= k < |calls| - 1 :: calls[k].ok && calls[k].back != [] && calls[k + 1].items == calls[k].back)
    && (forall k | 0 <= k < |calls| :: 0 < |calls[k].items| <= MAX_BATCH)
  }

  ghost predicate Failed<T>(calls: seq<Call<T>>) { calls != [] && !calls[|calls| - 1].ok }

  /** What calls for a chunk leave of it. */
  function Rest<T>(calls: seq<Call<T>>, chunk: seq<T>): seq<T> {
    if calls == [] then chunk
    else if calls[|calls| - 1].ok then calls[|calls| - 1].back
    else calls[|calls| - 1].items
  }

  /**
   The whole story of a chunk: called for at most depth + 1 times, each time with what was
   left of it; it ends with nothing left, with a failed call, or with its calls used up.
   */
  ghost predicate Trace<T>(calls: seq<Call<T>>, chunk: seq<T>, left: seq<T>, depth: int) {
    && Chained(calls, chunk) && |calls| <= Budget(depth)
    && left == Rest(calls, chunk)
    && (left == [] || Failed(calls) || |calls| == Budget(depth))
  }

  lemma ChainedSnoc<T>(calls: seq<Call<T>>, chunk: seq<T>, c: Call<T>)
    requires Chained(calls, chunk) && !Failed(calls) && c.items == Rest(calls, chunk) && 0 < |c.items| <= MAX_BATCH
    ensures Chained(calls + [c], chunk)
  {
  }

  /** The inner loop: one chunk. */
  method WriteChunk<Req>(table: BatchTable<Req>, chunk: seq<Req>, depth: int)
    returns (left: seq<Req>, failed: bool, ghost calls: seq<Call<Req>>)
    requires |chunk| <= MAX_BATCH
    modifies table
    ensures table.applied + multiset(left) == old(table.applied) + multiset(chunk)
    ensures table.log == old(table.log) + calls
    ensures Trace(calls, chunk, left, depth)
    ensures failed <==> Failed(calls)
    ensures failed ==> left != []
  {
    var counter := 0;
    var unprocessed := chunk;
    left, failed, calls := [], false, [];
    while |unprocessed| > 0
      invariant 0 <= counter <= Budget(depth) && |calls| == counter
      invariant |unprocessed| <= MAX_BATCH && unprocessed == Rest(calls, chunk)
      invariant table.applied + multiset(unprocessed) == old(table.applied) + multiset(chunk)
      invariant table.log == old(table.log) + calls
      invariant Chained(calls, chunk) && !Failed(calls) && !failed
      decreases Budget(depth) - counter
    {
      if counter > depth {
        return unprocessed, false, calls;
      }
      counter := counter + 1;
      var ok, rest := table.BatchWriteItem(unprocessed);
      ChainedSnoc(calls, chunk, Call(unprocessed, ok, rest));
      calls := calls + [Call(unprocessed, ok, rest)];
      if !ok {
        return unprocessed, true, calls;
      }
      unprocessed := rest;
    }
  }

  /** Each chunk has its trace, and leaves its part. */
  ghost predicate Traced<T>(traces: seq<seq<Call<T>>>, chunks: seq<seq<T>>, perChunk: seq<seq<T>>, depth: int) {
    && |traces| == |chunks| == |perChunk|
    && forall i | 0 <= i < |chunks| :: Trace(traces[i], chunks[i], perChunk[i], depth)
  }

  ghost predicate SomeFailed<T>(traces: seq<seq<Call<T>>>) { exists i :: 0 <= i < |traces| && Failed(traces[i]) }

  /**
   RecursiveBatchWriteItem: nothing is lost and nothing is written twice. What was applied
   together with what is returned is what was asked for; what is returned is what the chunks'
   traces leave, so that a chunk leaves something only after a failed call or with all its
   calls used up; and an error means exactly that a call failed.
   */
  method RecursiveBatchWriteItem<Req>(table: BatchTable<Req>, reqs: seq<Req>, depth: int)
    returns (unprocessed: seq<Req>, err: bool, ghost traces: seq<seq<Call<Req>>>, ghost perChunk: seq<seq<Req>>)
    modifies table
    ensures table.applied + multiset(unprocessed) == old(table.applied) + multiset(reqs)
    ensures unprocessed == [] <==> table.applied == old(table.applied) + multiset(reqs)
    ensures table.log == old(table.log) + Flatten(traces)
    ensures Traced(traces, Chunks(reqs, MAX_BATCH), perChunk, depth) && unprocessed == Flatten(perChunk)
    ensures err <==> SomeFailed(traces)
    ensures err ==> unprocessed != []
  {
    var chunks := Chunks(reqs, MAX_BATCH);
    var left;
    left, err, traces := WriteChunks(table, chunks, depth);
    unprocessed, perChunk := Flatten(left), left;
    NothingLeft(table.applied, multiset(reqs) + old(table.applied), unprocessed);
  }

  /** The outer loop, which collects what each chunk leaves and whether any call failed. */
  method WriteChunks<Req>(table: BatchTable<Req>, chunks: seq<seq<Req>>, depth: int)
    returns (perChunk: seq<seq<Req>>, err: bool, ghost traces: seq<seq<Call<Req>>>)
    requires forall i | 0 <= i < |chunks| :: |chunks[i]| <= MAX_BATCH
    modifies table
    ensures Balanced(old(table.applied), table.applied, perChunk, chunks)
    ensures table.log == old(table.log) + Flatten(traces)
    ensures Traced(traces, chunks, perChunk, depth)
    ensures err <==> SomeFailed(traces)
    ensures err ==> Flatten(perChunk) != []
  {
    err, perChunk, traces := false, [], [];
    for i := 0 to |chunks|
      invariant Balanced(old(table.applied), table.applied, perChunk, chunks[..i])
      invariant table.log == old(table.log) + Flatten(traces)
      invariant Traced(traces, chunks[..i], perChunk, depth)
      invariant err <==> SomeFailed(traces)
      invariant err ==> Flatten(perChunk) != []
    {
      ghost var before := table.applied;
      var left, failed;
      ghost var calls;
      left, failed, calls := WriteChunk(table, chunks[i], depth);
      Tally(old(table.applied), before, table.applied, perChunk, chunks, i, left);
      TracedSnoc(traces, chunks, perChunk, depth, i, calls, left);
      Assoc(old(table.log), Flatten(traces), calls);
      perChunk := perChunk + [left];
      traces := traces + [calls];
      err := err || failed;
    }
    assert chunks[..|chunks|] == chunks;
  }

  lemma TracedSnoc<T>(
      traces: seq<seq<Call<T>>>, chunks: seq<seq<T>>, perChunk: seq<seq<T>>, depth: int, i: nat, calls: seq<Call<T>>, left: seq<T>)
    requires i < |chunks| && Traced(traces, chunks[..i], perChunk, depth) && Trace(calls, chunks[i], left, depth)
    ensures Traced(traces + [calls], chunks[..i + 1], perChunk + [left], depth)
    ensures Flatten(traces + [calls]) == Flatten(traces) + calls
    ensures SomeFailed(traces + [calls]) <==> SomeFailed(traces) || Failed(calls)
  {
    var all := traces + [calls];
    assert all[..|traces|] == traces && all[|traces|] == calls;
    assert forall k | 0 <= k < i :: all[k] == traces[k] && chunks[..i + 1][k] == chunks[..i][k];
  }

  lemma NothingLeft<T>(applied: multiset<T>, all: multiset<T>, left: seq<T>)
    requires applied + multiset(left) == all
    ensures left == [] <==> applied == all
  {
    if left != [] {
      assert left[0] in multiset(left);
      assert (applied + multiset(left))[left[0]] > applied[left[0]];
    } else {
      assert multiset(left) == multiset{};
    }
  }

  /** What has been applied and what is left account for the chunks done. */
  ghost predicate Balanced<T>(a0: multiset<T>, a: multiset<T>, lefts: seq<seq<T>>, done: seq<seq<T>>) {
    a + multiset(Flatten(lefts)) == a0 + multiset(Flatten(done))
  }

  /** The books of the chunks so far and of one more chunk add up. */
  lemma Tally<T>(a0: multiset<T>, a1: multiset<T>, a2: multiset<T>, lefts: seq<seq<T>>, chunks: seq<seq<T>>, i: nat, left: seq<T>)
    requires i < |chunks| && Balanced(a0, a1, lefts, chunks[..i])
    requires a2 + multiset(left) == a1 + multiset(chunks[i])
    ensures Balanced(a0, a2, lefts + [left], chunks[..i + 1])
    ensures Flatten(lefts + [left]) == Flatten(lefts) + left
  {
    assert (lefts + [left])[..|lefts|] == lefts && chunks[..i + 1][..i] == chunks[..i];
    var chunk := multiset(chunks[i]);
    var l, d := multiset(Flatten(lefts)), multiset(Flatten(chunks[..i]));
    assert multiset(Flatten(lefts) + left) == l + multiset(left);
    assert multiset(Flatten(chunks[..i]) + chunks[i]) == d + chunk;
    calc {
      a2 + (l + multiset(left));
      (a2 + multiset(left)) + l;
      (a1 + chunk) + l;
      (a1 + l) + chunk;
      (a0 + d) + chunk;
      a0 + (d + chunk);
    }
  }
}

/** The DynamoDB repository's range delete, built on the batch writer. */
module DynamoPending {
  import opened BatchWrite
  import opened PendingStore

  /** How often the rest of a chunk is tried again. */
  const DELETE_DEPTH := 2

  /** A page of the key query, or its failure. */
  datatype Page = Keys(keys: seq<Key>) | PageFails

  datatype DeleteResult = Deleted | QueryFailed | WriteFailed | Incomplete(count: nat)

  /** The rows left when the keys deleted between two states of the table are taken out. */
  function Remaining<V>(rows: map<Key, V>, before: multiset<Key>, now: multiset<Key>): map<Key, V> {
    map k | k in rows && now[k] <= before[k] :: rows[k]
  }

  function Listed(pages: seq<Page>): seq<Key>
    requires forall i | 0 <= i < |pages| :: pages[i].Keys?
  {
    if pages == [] then [] else Listed(pages[..|pages| - 1]) + pages[|pages| - 1].keys
  }

  /** The query's answer: when no page fails, exactly the keys of the session's rows up to `max`. */
  ghost predicate Answers<V>(pages: seq<Page>, rows: map<Key, V>, session: string, max: int) {
    (forall i | 0 <= i < |pages| :: pages[i].Keys?) ==>
      forall k :: k in Listed(pages) <==> k in rows && k.session == session && k.sendAt <= max
  }

  /**
   Deletes a session's rows up to `max`. It fails to list exactly if a page fails; else it
   reports success exactly if every listed row has been deleted, a failure exactly if a call
   failed, and else how many keys the chunks' traces leave, each chunk's only after all its
   calls. After a success the table is what the other repository's one statement leaves; whatever it
   reports, it deletes nothing else.
   */
  method DeleteUpTo<V>(table: BatchTable<Key>, ghost rows: map<Key, V>, session: string, max: int, pages: seq<Page>)
    returns (r: DeleteResult, ghost traces: seq<seq<Call<Key>>>, ghost perChunk: seq<seq<Key>>)
    requires Answers(pages, rows, session, max)
    modifies table
    ensures r == QueryFailed <==> exists i :: 0 <= i < |pages| && pages[i].PageFails?
    ensures r != QueryFailed ==>
      && table.log == old(table.log) + Flatten(traces)
      && Traced(traces, Chunks(Listed(pages), MAX_BATCH), perChunk, DELETE_DEPTH)
      && (r == Deleted <==> table.applied == old(table.applied) + multiset(Listed(pages)))
      && (r == WriteFailed <==> SomeFailed(traces))
      && (r.Incomplete? ==> r.count == |Flatten(perChunk)| > 0)
    ensures r == Deleted ==> Remaining(rows, old(table.applied), table.applied) == WithoutUpTo(rows, session, max)
    ensures forall k | k in rows && !(k.session == session && k.sendAt <= max) ::
      k in Remaining(rows, old(table.applied), table.applied)
    ensures r == QueryFailed ==> table.applied == old(table.applied)
  {
    var keys, ok := ListKeys(pages);
    if !ok {
      return QueryFailed, [], [];
    }
    ghost var before := table.applied;
    if |keys| == 0 {
      assert before + multiset(keys) == before;
      AllKeysDeleted(rows, before, before, keys, session, max);
      return Deleted, [], [];
    }
    var unprocessed, err;
    unprocessed, err, traces, perChunk := RecursiveBatchWriteItem(table, keys, DELETE_DEPTH);
    OnlyKeysDeleted(before, table.applied, unprocessed, keys);
    if err {
      return WriteFailed, traces, perChunk;
    }
    if |unprocessed| > 0 {
      return Incomplete(|unprocessed|), traces, perChunk;
    }
    AllKeysDeleted(rows, before, table.applied, keys, session, max);
    return Deleted, traces, perChunk;
  }

  /** The page loop: collects the keys, and gives up on the first page that fails. */
  method ListKeys(pages: seq<Page>) returns (keys: seq<Key>, ok: bool)
    ensures ok <==> forall i | 0 <= i < |pages| :: pages[i].Keys?
    ensures ok ==> keys == Listed(pages)
  {
    keys := [];
    for i := 0 to |pages|
      invariant forall k | 0 <= k < i :: pages[k].Keys?
      invariant keys == Listed(pages[..i])
    {
      if pages[i].PageFails? {
        return [], false;
      }
      keys := keys + pages[i].keys;
      assert pages[..i + 1][..i] == pages[..i];
    }
    assert pages[..|pages|] == pages;
    return keys, true;
  }

  lemma OnlyKeysDeleted(before: multiset<Key>, now: multiset<Key>, left: seq<Key>, keys: seq<Key>)
    requires now + multiset(left) == before + multiset(keys)
    ensures forall k | k !in keys :: now[k] <= before[k]
  {
    forall k | k !in keys ensures now[k] <= before[k] {
      assert multiset(keys)[k] == 0;
      assert (now + multiset(left))[k] == (before + multiset(keys))[k];
    }
  }

  lemma AllKeysDeleted<V>(rows: map<Key, V>, before: multiset<Key>, now: multiset<Key>, keys: seq<Key>, session: string, max: int)
    requires now == before + multiset(keys)
    requires forall k :: k in keys <==> k in rows && k.session == session && k.sendAt <= max
    ensures Remaining(rows, before, now) == WithoutUpTo(rows, session, max)
  {
  }
}
