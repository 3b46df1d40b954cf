/** src/worker.rs: batch ingestion. The file list is cut into chunks of 50;
    each chunk is run through exiftool and its records are upserted inside one
    transaction that is committed whole or not at all. Chunks are processed one
    after another, in list order, and the first error ends the run. */
module Worker {
  import opened Wrappers
  import opened Errors
  import opened Exiftool
  import opened Database

  // ---------------------------------------------------------------- chunking

  /** `par_chunks(50)`. */
  const ChunkSize: nat := 50

  /** Consecutive pieces of `s` of `n` elements each; the last may be shorter. */
  function Chunks<T>(s: seq<T>, n: nat): seq<seq<T>>
    requires n > 0
    decreases |s|
  {
    if |s| == 0 then []
    else if |s| <= n then [s]
    else [s[..n]] + Chunks(s[n..], n)
  }

  function Flatten<T>(ss: seq<seq<T>>): seq<T>
    decreases |ss|
  {
    if |ss| == 0 then [] else ss[0] + Flatten(ss[1..])
  }

  /** Putting the chunks back together gives the list that was cut. */
  lemma {:induction false} ChunksFlatten<T>(s: seq<T>, n: nat)
    requires n > 0
    ensures Flatten(Chunks(s, n)) == s
    decreases |s|
  {
    if |s| == 0 {
    } else if |s| <= n {
      assert Flatten([s]) == s + Flatten([s][1..]);
      assert [s][1..] == [];
    } else {
      var rest := Chunks(s[n..], n);
      ChunksFlatten(s[n..], n);
      assert ([s[..n]] + rest)[1..] == rest;
      assert s[..n] + s[n..] == s;
    }
  }

  /** Every chunk holds between 1 and `n` elements, and every chunk but the
      last holds exactly `n`. */
  lemma {:induction false} ChunksSizes<T>(s: seq<T>, n: nat)
    requires n > 0
    ensures forall i :: 0 <= i < |Chunks(s, n)| ==> 0 < |Chunks(s, n)[i]| <= n
    ensures forall i :: 0 <= i < |Chunks(s, n)| - 1 ==> |Chunks(s, n)[i]| == n
    decreases |s|
  {
    if |s| > n {
      var rest := Chunks(s[n..], n);
      ChunksSizes(s[n..], n);
      assert Chunks(s, n) == [s[..n]] + rest;
      forall i | 1 <= i < |Chunks(s, n)|
        ensures Chunks(s, n)[i] == rest[i - 1]
      {
      }
    }
  }

  /** `par_chunks(50)` makes `|s| / 50` chunks, rounded up. */
  lemma {:induction false} ChunksCount<T>(s: seq<T>)
    ensures |Chunks(s, ChunkSize)| == (|s| + ChunkSize - 1) / ChunkSize
    decreases |s|
  {
    if |s| > ChunkSize {
      ChunksCount(s[ChunkSize..]);
    }
  }

  /** 120 files give chunks of 50, 50 and 20. */
  lemma ChunksExample(s: seq<string>)
    requires |s| == 120
    ensures |Chunks(s, ChunkSize)| == 3
    ensures Chunks(s, ChunkSize) == [s[..50], s[50..100], s[100..]]
  {
    assert s[50..][..50] == s[50..100];
    assert s[50..][50..] == s[100..];
    assert Chunks(s[100..], 50) == [s[100..]];
    assert Chunks(s[50..], 50) == [s[50..100], s[100..]];
  }

  // ---------------------------------------------------------------- pairing

  /** `files.iter().zip(metadata.iter())`: the i-th file with the i-th record,
      as far as the shorter of the two goes. */
  function Zip<A, B>(a: seq<A>, b: seq<B>): (r: seq<(A, B)>)
    ensures |r| == if |a| <= |b| then |a| else |b|
    ensures forall i :: 0 <= i < |r| ==> r[i] == (a[i], b[i])
    decreases |a|
  {
    if |a| == 0 || |b| == 0 then [] else [(a[0], b[0])] + Zip(a[1..], b[1..])
  }

  /** Extra files are ignored, and so are extra records. */
  lemma ZipIgnoresExtra<A, B>(a: seq<A>, b: seq<B>, moreA: seq<A>, moreB: seq<B>)
    ensures |a| == |b| ==> Zip(a + moreA, b) == Zip(a, b + moreB)
  {
    if |a| == |b| {
      var l, r := Zip(a + moreA, b), Zip(a, b + moreB);
      assert |l| == |r|;
      forall i | 0 <= i < |l|
        ensures l[i] == r[i]
      {
        assert (a + moreA)[i] == a[i];
        assert (b + moreB)[i] == b[i];
      }
    }
  }

  // ---------------------------------------------------------------- mod time

  /** The file system as the worker sees it: for each readable file, its
      modification time in seconds after the Unix epoch (negative if before). */
  type FileSystem = map<string, real>

  /** `get_file_mod_time_secs`: never fails. A file that cannot be read counts
      as modified at the epoch, and so does a time before the epoch. */
  function ModTimeSecs(fs: FileSystem, path: string): (r: real)
    ensures r >= 0.0
    ensures path in fs && fs[path] >= 0.0 ==> r == fs[path]
    ensures path !in fs || fs[path] < 0.0 ==> r == 0.0
  {
    if path in fs && fs[path] >= 0.0 then fs[path] else 0.0
  }

  // ---------------------------------------------------------------- upserts

  /** The table after upserting every pair in order. */
  function UpsertAll(t: Table, fs: FileSystem, pairs: seq<(string, Json)>): Table
    decreases |pairs|
  {
    if |pairs| == 0 then t
    else
      var (file, record) := pairs[|pairs| - 1];
      Upsert(UpsertAll(t, fs, pairs[..|pairs| - 1]), file, ModTimeSecs(fs, file), record)
  }

  /** The record of the last pair for `path`, if any. */
  function Latest(pairs: seq<(string, Json)>, path: string): (r: Option<Json>)
    ensures r.Some? ==> exists i :: 0 <= i < |pairs| && pairs[i] == (path, r.value)
                                    && forall j :: i < j < |pairs| ==> pairs[j].0 != path
    ensures r.None? ==> forall i :: 0 <= i < |pairs| ==> pairs[i].0 != path
    decreases |pairs|
  {
    if |pairs| == 0 then None
    else if pairs[|pairs| - 1].0 == path then Some(pairs[|pairs| - 1].1)
    else
      var r := Latest(pairs[..|pairs| - 1], path);
      assert forall i :: 0 <= i < |pairs| - 1 ==> pairs[..|pairs| - 1][i] == pairs[i];
      r
  }

  /** After upserting the pairs, a path has a row exactly when it had one
      before or occurs in the pairs; the row of a path that occurs is built
      from its last record, and every other path keeps its row. */
  lemma {:induction false} UpsertAllAt(t: Table, fs: FileSystem, pairs: seq<(string, Json)>, path: string)
    ensures path in UpsertAll(t, fs, pairs) <==> path in t || Latest(pairs, path).Some?
    ensures Latest(pairs, path).Some? ==>
              UpsertAll(t, fs, pairs)[path] == MakeRow(path, ModTimeSecs(fs, path), Latest(pairs, path).value)
    ensures Latest(pairs, path).None? && path in t ==> UpsertAll(t, fs, pairs)[path] == t[path]
    decreases |pairs|
  {
    if |pairs| > 0 {
      var pre := pairs[..|pairs| - 1];
      var (file, record) := pairs[|pairs| - 1];
      UpsertAllAt(t, fs, pre, path);
      assert UpsertAll(t, fs, pairs) == UpsertAll(t, fs, pre)[file := MakeRow(file, ModTimeSecs(fs, file), record)];
      assert Latest(pairs, path) == if file == path then Some(record) else Latest(pre, path);
    }
  }

  /** Upserting two lists one after the other is upserting their concatenation. */
  lemma {:induction false} UpsertAllAppend(t: Table, fs: FileSystem, a: seq<(string, Json)>, b: seq<(string, Json)>)
    ensures UpsertAll(t, fs, a + b) == UpsertAll(UpsertAll(t, fs, a), fs, b)
    decreases |b|
  {
    if |b| == 0 {
      assert a + b == a;
    } else {
      assert (a + b)[..|a + b| - 1] == a + b[..|b| - 1];
      assert (a + b)[|a + b| - 1] == b[|b| - 1];
      UpsertAllAppend(t, fs, a, b[..|b| - 1]);
    }
  }

  /** Upserts keep every row in the stored shape. */
  lemma {:induction false} UpsertAllKeepsInvariant(t: Table, fs: FileSystem, pairs: seq<(string, Json)>)
    requires TableInvariant(t)
    ensures TableInvariant(UpsertAll(t, fs, pairs))
    decreases |pairs|
  {
    if |pairs| > 0 {
      UpsertAllKeepsInvariant(t, fs, pairs[..|pairs| - 1]);
      var (file, record) := pairs[|pairs| - 1];
      UpsertKeepsInvariant(UpsertAll(t, fs, pairs[..|pairs| - 1]), file, ModTimeSecs(fs, file), record);
    }
  }

  // ---------------------------------------------------------------- one transaction

  /** The first position below `n` that is in `s`. */
  function FirstIn(s: set<nat>, n: nat): (r: Option<nat>)
    ensures r.Some? ==> r.value < n && r.value in s && forall j :: 0 <= j < r.value ==> j !in s
    ensures r.None? ==> forall j :: 0 <= j < n ==> j !in s
  {
    if n == 0 then None
    else match FirstIn(s, n - 1)
      case Some(i) => Some(i)
      case None => if n - 1 in s then Some(n - 1) else None
  }

  /** What `process_files_in_transaction` does to the rows a transaction sees,
      starting from `t`. `rejected` holds the positions of the pairs whose
      insert the engine refuses. The first failing insert ends the loop, with
      the inserts before it applied. */
  function TransactionSpec(t: Table, schema: bool, fs: FileSystem, pairs: seq<(string, Json)>, rejected: set<nat>): (Outcome<AppError>, Table)
  {
    if |pairs| == 0 then (Pass, t)
    else if !schema then (Fail(Database(NoSuchTable)), t)
    else match FirstIn(rejected, |pairs|)
      case None => (Pass, UpsertAll(t, fs, pairs))
      case Some(i) => (Fail(Database(InsertRejected)), UpsertAll(t, fs, pairs[..i]))
  }

  /** The transaction passes exactly when there is nothing to insert, or the
      table exists and no insert is refused; then every pair is upserted. */
  lemma TransactionPasses(t: Table, schema: bool, fs: FileSystem, pairs: seq<(string, Json)>, rejected: set<nat>)
    ensures TransactionSpec(t, schema, fs, pairs, rejected).0 == Pass <==>
              |pairs| == 0 || (schema && forall i :: 0 <= i < |pairs| ==> i !in rejected)
    ensures TransactionSpec(t, schema, fs, pairs, rejected).0 == Pass ==>
              TransactionSpec(t, schema, fs, pairs, rejected).1 == UpsertAll(t, fs, pairs)
  {
    if |pairs| > 0 && schema && FirstIn(rejected, |pairs|).Some? {
      var i := FirstIn(rejected, |pairs|).value;
      assert i in rejected;
    }
  }

  /** `process_files_in_transaction`: upserts the i-th file with the i-th
      record, each with the file's modification time, into the open
      transaction, stopping at the first insert that fails. */
  method ProcessFilesInTransaction(store: Store, fs: FileSystem, files: seq<string>, metadata: seq<Json>, rejected: set<nat>)
    returns (r: Outcome<AppError>)
    requires store.Valid() && store.pending.Some?
    modifies store
    ensures store.Valid() && store.pending.Some?
    ensures store.schemaExists == old(store.schemaExists) && store.rows == old(store.rows)
    ensures (r, store.pending.value) ==
            TransactionSpec(old(store.pending.value), store.schemaExists, fs, Zip(files, metadata), rejected)
  {
    ghost var t0 := store.pending.value;
    var pairs := Zip(files, metadata);
    var i := 0;
    while i < |pairs|
      invariant 0 <= i <= |pairs|
      invariant store.Valid() && store.pending.Some?
      invariant store.schemaExists == old(store.schemaExists) && store.rows == old(store.rows)
      invariant TransactionSpec(t0, store.schemaExists, fs, pairs[..i], rejected) == (Pass, store.pending.value)
    {
      var file := pairs[i].0;
      var modTime := ModTimeSecs(fs, file);
      var o := store.InsertMetadata(file, modTime, pairs[i].1, i in rejected);
      if o.Fail? {
        TransactionStopsAt(t0, store.schemaExists, fs, pairs, rejected, i);
        return Fail(Database(o.error));
      }
      TransactionGrows(t0, store.schemaExists, fs, pairs, rejected, i);
      i := i + 1;
    }
    assert pairs[..i] == pairs;
    r := Pass;
  }

  /** After a prefix that passed, an insert that passes extends it by one upsert. */
  lemma TransactionGrows(t: Table, schema: bool, fs: FileSystem, pairs: seq<(string, Json)>, rejected: set<nat>, i: nat)
    requires i < |pairs| && schema && i !in rejected
    requires TransactionSpec(t, schema, fs, pairs[..i], rejected).0 == Pass
    ensures TransactionSpec(t, schema, fs, pairs[..i + 1], rejected) ==
            (Pass, Upsert(TransactionSpec(t, schema, fs, pairs[..i], rejected).1, pairs[i].0, ModTimeSecs(fs, pairs[i].0), pairs[i].1))
  {
    var u := TransactionSpec(t, schema, fs, pairs[..i], rejected).1;
    TransactionPasses(t, schema, fs, pairs[..i], rejected);
    TransactionPasses(t, schema, fs, pairs[..i + 1], rejected);
    assert pairs[..i + 1][..i] == pairs[..i];
    assert forall j :: 0 <= j < i + 1 ==> j !in rejected;
  }

  /** After a prefix that passed, the insert at position i fails, because the
      table is missing or because the engine refuses it: that is the
      transaction's outcome, with the prefix upserted. */
  lemma TransactionStopsAt(t: Table, schema: bool, fs: FileSystem, pairs: seq<(string, Json)>, rejected: set<nat>, i: nat)
    requires i < |pairs| && (!schema || i in rejected)
    requires TransactionSpec(t, schema, fs, pairs[..i], rejected).0 == Pass
    ensures TransactionSpec(t, schema, fs, pairs, rejected) ==
            (Fail(Database(if schema then InsertRejected else NoSuchTable)), TransactionSpec(t, schema, fs, pairs[..i], rejected).1)
  {
    TransactionPasses(t, schema, fs, pairs[..i], rejected);
    if schema {
      assert forall j :: 0 <= j < i ==> j !in rejected;
      FirstInIs(rejected, |pairs|, i);
    } else {
      assert i == 0;
    }
  }

  /** The least member of `s` below `n` is what `FirstIn` finds. */
  lemma FirstInIs(s: set<nat>, n: nat, i: nat)
    requires i < n && i in s && forall j :: 0 <= j < i ==> j !in s
    ensures FirstIn(s, n) == Some(i)
  {
  }


  // ---------------------------------------------------------------- one chunk

  /** How the world behaves for one chunk: what the exiftool run produces,
      whether the transaction can be started, which inserts the engine
      refuses (by position in the chunk) and whether the commit fails. */
  datatype ChunkFaults = ChunkFaults(run: ToolRun, beginFails: bool, rejected: set<nat>, commitFails: bool)

  /** What `process_chunk` returns and what the committed rows become. */
  function ChunkSpec(t: Table, schema: bool, fs: FileSystem, chunk: seq<string>, f: ChunkFaults): (Outcome<AppError>, Table)
  {
    match RunExiftool(chunk, f.run)
    case Failure(e) => (Fail(e), t)
    case Success(records) =>
      if f.beginFails then (Fail(Database(BeginFailed)), t)
      else
        var (o, _) := TransactionSpec(t, schema, fs, Zip(chunk, records), f.rejected);
        if o.Fail? then (o, t)
        else if f.commitFails then (Fail(Database(CommitFailed)), t)
        else (Pass, UpsertAll(t, fs, Zip(chunk, records)))
  }

  /** The records exiftool produced for a chunk, or none when it failed. */
  function Records(chunk: seq<string>, run: ToolRun): seq<Json> {
    match RunExiftool(chunk, run)
    case Success(records) => records
    case Failure(_) => []
  }

  /** A chunk is all or nothing: when it fails the committed rows are as
      before, and when it passes exiftool succeeded and every file is upserted
      with its own record. It passes exactly when every step does. */
  lemma ChunkAllOrNothing(t: Table, schema: bool, fs: FileSystem, chunk: seq<string>, f: ChunkFaults)
    ensures ChunkSpec(t, schema, fs, chunk, f).0.Fail? ==> ChunkSpec(t, schema, fs, chunk, f).1 == t
    ensures ChunkSpec(t, schema, fs, chunk, f).0 == Pass <==>
              && RunExiftool(chunk, f.run).Success? && !f.beginFails && !f.commitFails
              && (schema || |Records(chunk, f.run)| == 0)
              && forall i :: 0 <= i < |chunk| && i < |Records(chunk, f.run)| ==> i !in f.rejected
    ensures ChunkSpec(t, schema, fs, chunk, f).0 == Pass ==>
              ChunkSpec(t, schema, fs, chunk, f).1 == UpsertAll(t, fs, Zip(chunk, Records(chunk, f.run)))
  {
    if RunExiftool(chunk, f.run).Success? {
      TransactionPasses(t, schema, fs, Zip(chunk, Records(chunk, f.run)), f.rejected);
      assert |chunk| > 0;
    }
  }

  /** When exiftool fails for a chunk, its error is the chunk's error. */
  lemma ChunkExtractionFails(t: Table, schema: bool, fs: FileSystem, chunk: seq<string>, f: ChunkFaults)
    requires RunExiftool(chunk, f.run).Failure?
    ensures ChunkSpec(t, schema, fs, chunk, f) == (Fail(RunExiftool(chunk, f.run).error), t)
  {
  }

  /** `process_chunk`: extract, begin, insert, commit. A transaction that is
      dropped without a commit is rolled back. */
  method ProcessChunk(store: Store, fs: FileSystem, chunk: seq<string>, f: ChunkFaults) returns (r: Outcome<AppError>)
    requires store.Valid() && store.pending.None?
    modifies store
    ensures store.Valid() && store.pending.None? && store.schemaExists == old(store.schemaExists)
    ensures (r, store.rows) == ChunkSpec(old(store.rows), store.schemaExists, fs, chunk, f)
  {
    var metadata := RunExiftool(chunk, f.run);
    if metadata.Failure? {
      return Fail(metadata.error);
    }
    var b := store.Begin(f.beginFails);
    if b.Fail? {
      return Fail(Database(b.error));
    }
    var o := ProcessFilesInTransaction(store, fs, chunk, metadata.value, f.rejected);
    if o.Fail? {
      store.Rollback();
      return o;
    }
    TransactionPasses(old(store.rows), store.schemaExists, fs, Zip(chunk, metadata.value), f.rejected);
    var c := store.Commit(f.commitFails);
    if c.Fail? {
      return Fail(Database(c.error));
    }
    r := Pass;
  }

  // ---------------------------------------------------------------- the whole run

  /** The chunks processed in order from `t`, stopping at the first failure.
      `faults(k)` is how the world behaves for the k-th chunk. */
  function RunChunks(t: Table, schema: bool, fs: FileSystem, chunks: seq<seq<string>>, faults: nat -> ChunkFaults): (Outcome<AppError>, Table)
    decreases |chunks|
  {
    if |chunks| == 0 then (Pass, t)
    else
      var (o, u) := RunChunks(t, schema, fs, chunks[..|chunks| - 1], faults);
      if o.Fail? then (o, u)
      else ChunkSpec(u, schema, fs, chunks[|chunks| - 1], faults(|chunks| - 1))
  }

  /** What `process_files_in_parallel` returns and what the committed rows
      become, chunks taken in list order. */
  function ProcessFilesSpec(t: Table, schema: bool, fs: FileSystem, files: seq<string>, openFails: bool, faults: nat -> ChunkFaults): (Outcome<AppError>, Table)
  {
    if |files| == 0 then (Pass, t)
    else if openFails then (Fail(Database(CannotOpen)), t)
    else RunChunks(t, schema, fs, Chunks(files, ChunkSize), faults)
  }

  /** Every pair any chunk's transaction upserts, chunk after chunk. */
  function AllPairs(chunks: seq<seq<string>>, faults: nat -> ChunkFaults): seq<(string, Json)>
    decreases |chunks|
  {
    if |chunks| == 0 then []
    else
      var k := |chunks| - 1;
      AllPairs(chunks[..k], faults) + Zip(chunks[k], Records(chunks[k], faults(k).run))
  }

  /** A run that passes has committed every chunk: the rows are the old ones
      with every file of every chunk upserted in order. */
  lemma {:induction false} RunChunksPasses(t: Table, schema: bool, fs: FileSystem, chunks: seq<seq<string>>, faults: nat -> ChunkFaults)
    ensures RunChunks(t, schema, fs, chunks, faults).0 == Pass ==>
              RunChunks(t, schema, fs, chunks, faults).1 == UpsertAll(t, fs, AllPairs(chunks, faults))
    decreases |chunks|
  {
    if |chunks| > 0 {
      var k := |chunks| - 1;
      var (o, u) := RunChunks(t, schema, fs, chunks[..k], faults);
      if o == Pass && ChunkSpec(u, schema, fs, chunks[k], faults(k)).0 == Pass {
        var pre, last := AllPairs(chunks[..k], faults), Zip(chunks[k], Records(chunks[k], faults(k).run));
        RunChunksPasses(t, schema, fs, chunks[..k], faults);
        ChunkAllOrNothing(u, schema, fs, chunks[k], faults(k));
        UpsertAllAppend(t, fs, pre, last);
      }
    }
  }

  /** A run that fails stopped at some chunk k: every chunk before k passed,
      chunk k failed with the run's error, and the rows are those committed
      by the chunks before k. */
  lemma {:induction false} RunChunksFails(t: Table, schema: bool, fs: FileSystem, chunks: seq<seq<string>>, faults: nat -> ChunkFaults)
    ensures RunChunks(t, schema, fs, chunks, faults).0.Fail? ==>
              exists k :: 0 <= k < |chunks| && RunChunks(t, schema, fs, chunks[..k], faults).0 == Pass
                          && ChunkSpec(RunChunks(t, schema, fs, chunks[..k], faults).1, schema, fs, chunks[k], faults(k)).0
                             == RunChunks(t, schema, fs, chunks, faults).0
                          && RunChunks(t, schema, fs, chunks, faults).1 == RunChunks(t, schema, fs, chunks[..k], faults).1
    decreases |chunks|
  {
    if |chunks| > 0 && RunChunks(t, schema, fs, chunks, faults).0.Fail? {
      var n := |chunks| - 1;
      var (o, u) := RunChunks(t, schema, fs, chunks[..n], faults);
      if o.Fail? {
        RunChunksFails(t, schema, fs, chunks[..n], faults);
        var k :| 0 <= k < n && RunChunks(t, schema, fs, chunks[..n][..k], faults).0 == Pass
                 && ChunkSpec(RunChunks(t, schema, fs, chunks[..n][..k], faults).1, schema, fs, chunks[..n][k], faults(k)).0 == o
                 && u == RunChunks(t, schema, fs, chunks[..n][..k], faults).1;
        assert chunks[..n][..k] == chunks[..k];
        assert chunks[..n][k] == chunks[k];
      } else {
        ChunkAllOrNothing(u, schema, fs, chunks[n], faults(n));
      }
    }
  }

  /** `process_files_in_parallel`, with its chunks taken one after another.
      An empty list passes before anything is opened; a database that cannot
      be opened fails before any chunk; otherwise the chunks run in order
      until one fails. */
  method ProcessFilesInParallel(store: Store, fs: FileSystem, files: seq<string>, openFails: bool, faults: nat -> ChunkFaults)
    returns (r: Outcome<AppError>)
    requires store.Valid() && store.pending.None?
    modifies store
    ensures store.Valid() && store.pending.None? && store.schemaExists == old(store.schemaExists)
    ensures |files| == 0 ==> r == Pass && store.rows == old(store.rows)
    ensures (r, store.rows) == ProcessFilesSpec(old(store.rows), store.schemaExists, fs, files, openFails, faults)
  {
    if |files| == 0 {
      return Pass;
    }
    if openFails {
      return Fail(Database(CannotOpen));
    }
    var chunks := Chunks(files, ChunkSize);
    ghost var t0 := store.rows;
    var i := 0;
    while i < |chunks|
      invariant 0 <= i <= |chunks|
      invariant store.Valid() && store.pending.None? && store.schemaExists == old(store.schemaExists)
      invariant RunChunks(t0, store.schemaExists, fs, chunks[..i], faults) == (Pass, store.rows)
    {
      var o := ProcessChunk(store, fs, chunks[i], faults(i));
      RunChunksStep(t0, store.schemaExists, fs, chunks, faults, i);
      if o.Fail? {
        RunChunksStops(t0, store.schemaExists, fs, chunks, faults, i + 1);
        return o;
      }
      i := i + 1;
    }
    assert chunks[..i] == chunks;
    r := Pass;
  }

  /** Running one more chunk after a prefix that passed. */
  lemma RunChunksStep(t: Table, schema: bool, fs: FileSystem, chunks: seq<seq<string>>, faults: nat -> ChunkFaults, i: nat)
    requires i < |chunks| && RunChunks(t, schema, fs, chunks[..i], faults).0 == Pass
    ensures RunChunks(t, schema, fs, chunks[..i + 1], faults) ==
            ChunkSpec(RunChunks(t, schema, fs, chunks[..i], faults).1, schema, fs, chunks[i], faults(i))
  {
    assert chunks[..i + 1][..i] == chunks[..i];
  }

  /** Once a prefix of the chunks has failed, the remaining chunks change
      neither the outcome nor the rows. */
  lemma {:induction false} RunChunksStops(t: Table, schema: bool, fs: FileSystem, chunks: seq<seq<string>>, faults: nat -> ChunkFaults, k: nat)
    requires k <= |chunks|
    requires RunChunks(t, schema, fs, chunks[..k], faults).0.Fail?
    ensures RunChunks(t, schema, fs, chunks, faults) == RunChunks(t, schema, fs, chunks[..k], faults)
    decreases |chunks| - k
  {
    if k < |chunks| {
      assert chunks[..k + 1][..k] == chunks[..k];
      RunChunksStops(t, schema, fs, chunks, faults, k + 1);
    } else {
      assert chunks[..k] == chunks;
    }
  }
}
