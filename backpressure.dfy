/** The main md5 pass of `elastic_build_aarecords_main_internal`
    (allthethings/cli/views.py): chunks of ids are submitted to a process
    pool, and whenever more than `THREADS*2` are outstanding the driver waits
    for at least one to finish; a job reporting an error ends the run.

    The pool is modelled sequentially: which outstanding jobs have finished
    when the driver waits is left open (`:|`), and a job's result is the
    value of `job` on its chunk. */
module Backpressure {
  import opened Paging

  /** `THREADS`, `CHUNK_SIZE` and `BATCH_SIZE`. */
  datatype Config = Config(threads: nat, chunkSize: nat, batchSize: nat)

  /** The production settings, or the smaller ones used with
      `SLOW_DATA_IMPORTS`. */
  function ConfigFor(slowDataImports: bool): (c: Config)
    ensures c.threads > 0 && c.chunkSize > 0 && c.batchSize > 0
    ensures c.chunkSize <= c.batchSize
    ensures slowDataImports <==> c.threads == 1
  {
    if slowDataImports then Config(1, 10, 1000) else Config(200, 200, 100000)
  }

  /** The number of ids in the chunks at positions `live`. */
  ghost function IdsIn(s: seq<seq<string>>, live: set<nat>): nat
    requires forall i :: i in live ==> i < |s|
    decreases live
  {
    if live == {} then 0 else var i :| i in live; |s[i]| + IdsIn(s, live - {i})
  }

  /** No chunk holds more than `width` ids. */
  predicate ChunksWithin(s: seq<seq<string>>, width: nat) {
    forall i :: 0 <= i < |s| ==> |s[i]| <= width
  }

  lemma ChunksWithinSnoc(s: seq<seq<string>>, c: seq<string>, width: nat)
    requires ChunksWithin(s, width) && |c| <= width
    ensures ChunksWithin(s + [c], width)
  {
  }

  /** At most `n` chunks of at most `width` ids each hold at most
      `n * width` ids. */
  lemma {:induction false} IdsAtMost(s: seq<seq<string>>, live: set<nat>, width: nat, n: nat)
    requires forall i :: i in live ==> i < |s|
    requires ChunksWithin(s, width) && |live| <= n
    ensures IdsIn(s, live) <= n * width
    decreases live
  {
    if live != {} {
      forall i | i in live
        ensures |s[i]| + IdsIn(s, live - {i}) <= n * width
      {
        assert |live - {i}| == |live| - 1;
        IdsAtMost(s, live - {i}, width, n - 1);
        assert (n - 1) * width + width == n * width;
      }
    }
  }

  /** The ids being worked on at once: with the `futures` set no larger than
      `2*THREADS + 1` chunks of at most `CHUNK_SIZE` ids, at most 80200 ids in
      production and 30 with `SLOW_DATA_IMPORTS`. */
  lemma OutstandingIds(s: seq<seq<string>>, live: set<nat>, slowDataImports: bool)
    requires forall i :: i in live ==> i < |s|
    requires ChunksWithin(s, ConfigFor(slowDataImports).chunkSize)
    requires |live| <= 2 * ConfigFor(slowDataImports).threads + 1
    ensures IdsIn(s, live) <= if slowDataImports then 30 else 80200
  {
    var c := ConfigFor(slowDataImports);
    IdsAtMost(s, live, c.chunkSize, 2 * c.threads + 1);
  }

  /** The chunk indices below `n`: the futures submitted so far. */
  function Indices(n: nat): (r: set<nat>)
    ensures forall i: nat :: i in r <==> i < n
  {
    if n == 0 then {} else Indices(n - 1) + {n - 1}
  }

  /** Every chunk of every page, in submission order. */
  function AllChunks(pages: seq<seq<string>>, chunkSize: nat): seq<seq<string>>
    requires chunkSize > 0
  {
    ChunksUpTo(pages, |pages|, chunkSize)
  }

  predicate IsPrefix<T(==)>(a: seq<T>, b: seq<T>) {
    |a| <= |b| && b[..|a|] == a
  }

  /** The chunks of the first `m` pages come before those of any later page. */
  lemma {:induction false} ChunksUpToPrefix(pages: seq<seq<string>>, m: nat, n: nat, chunkSize: nat)
    requires m <= n <= |pages| && chunkSize > 0
    ensures IsPrefix(ChunksUpTo(pages, m, chunkSize), ChunksUpTo(pages, n, chunkSize))
    decreases n - m
  {
    if m < n {
      ChunksUpToPrefix(pages, m, n - 1, chunkSize);
      var a := ChunksUpTo(pages, m, chunkSize);
      var b := ChunksUpTo(pages, n - 1, chunkSize);
      assert (b + Chunks(pages[n - 1], chunkSize))[..|a|] == b[..|a|];
    }
  }

  lemma FlattenSnoc<T>(ss: seq<seq<T>>, x: seq<T>)
    ensures Flatten(ss + [x]) == Flatten(ss) + x
  {
    FlattenAppend(ss, [x]);
    FlattenCons(x, []);
  }

  /** The chunks of the first `n` pages hold every id of those pages, in page
      order. */
  lemma {:induction false} FlattenChunksUpTo(pages: seq<seq<string>>, n: nat, chunkSize: nat)
    requires n <= |pages| && chunkSize > 0
    ensures Flatten(ChunksUpTo(pages, n, chunkSize)) == Flatten(pages[..n])
  {
    if n > 0 {
      var before := ChunksUpTo(pages, n - 1, chunkSize);
      var page := pages[n - 1];
      var chunks := Chunks(page, chunkSize);
      assert ChunksUpTo(pages, n, chunkSize) == before + chunks;
      FlattenChunksUpTo(pages, n - 1, chunkSize);
      FlattenAppend(before, chunks);
      assert pages[..n] == pages[..n - 1] + [page];
      FlattenSnoc(pages[..n - 1], page);
    }
  }

  lemma PrefixOfAppend<T>(a: seq<T>, x: seq<T>, c: nat)
    requires c <= |x|
    ensures IsPrefix(a + x[..c], a + x)
  {
    assert (a + x)[..|a| + c] == a + x[..c];
  }

  /** What a run that quit on page `n - 1` submitted starts all the chunks. */
  lemma QuitPrefix(pages: seq<seq<string>>, n: nat, chunkSize: nat, s: seq<seq<string>>)
    requires n <= |pages| && chunkSize > 0 && IsPrefix(s, ChunksUpTo(pages, n, chunkSize))
    ensures IsPrefix(s, AllChunks(pages, chunkSize))
  {
    ChunksUpToPrefix(pages, n, |pages|, chunkSize);
    PrefixTrans(s, ChunksUpTo(pages, n, chunkSize), AllChunks(pages, chunkSize));
  }

  lemma PrefixTrans<T>(a: seq<T>, b: seq<T>, c: seq<T>)
    requires IsPrefix(a, b) && IsPrefix(b, c)
    ensures IsPrefix(a, c)
  {
    assert c[..|a|] == c[..|b|][..|a|];
  }

  /** What has been submitted when the driver is inside page `p`, at chunk
      `c`, is the start of all chunks. */
  lemma PrefixWithinPage(pages: seq<seq<string>>, p: nat, c: nat, chunkSize: nat)
    requires p < |pages| && chunkSize > 0 && c <= |Chunks(pages[p], chunkSize)|
    ensures IsPrefix(ChunksUpTo(pages, p, chunkSize) + Chunks(pages[p], chunkSize)[..c], AllChunks(pages, chunkSize))
  {
    var chunks := Chunks(pages[p], chunkSize);
    var before := ChunksUpTo(pages, p, chunkSize);
    PrefixOfAppend(before, chunks, c);
    assert before + chunks == ChunksUpTo(pages, p + 1, chunkSize);
    ChunksUpToPrefix(pages, p + 1, |pages|, chunkSize);
    PrefixTrans(before + chunks[..c], before + chunks, AllChunks(pages, chunkSize));
  }

  lemma PrefixFailed(a: seq<seq<string>>, b: seq<seq<string>>, job: seq<string> -> bool)
    requires IsPrefix(a, b) && AnyFailed(a, job)
    ensures AnyFailed(b, job)
  {
    var i :| 0 <= i < |a| && job(a[i]);
    assert b[i] == b[..|a|][i];
  }

  /** The bookkeeping of the driver: each submitted chunk is either
      outstanding or taken out, and the run has quit exactly when a chunk
      taken out reported an error. */
  ghost predicate Consistent(submitted: seq<seq<string>>, pending: set<nat>, completed: set<nat>, aborted: bool,
                       job: seq<string> -> bool) {
    pending !! completed &&
    (forall i: nat :: i in pending || i in completed <==> i < |submitted|) &&
    (aborted <==> exists i :: i in completed && i < |submitted| && job(submitted[i]))
  }

  /** Submitting a chunk keeps the bookkeeping. */
  lemma SubmitKeeps(submitted: seq<seq<string>>, pending: set<nat>, completed: set<nat>, job: seq<string> -> bool,
                    chunk: seq<string>)
    requires Consistent(submitted, pending, completed, false, job)
    ensures |submitted| !in pending
    ensures Consistent(submitted + [chunk], pending + {|submitted|}, completed, false, job)
  {
    var s := submitted + [chunk];
    assert forall i :: 0 <= i < |submitted| ==> s[i] == submitted[i];
  }

  /** Taking an outstanding chunk out keeps the bookkeeping; the run quits
      if that chunk's job reported an error. */
  lemma TakeOutKeeps(submitted: seq<seq<string>>, pending: set<nat>, completed: set<nat>, job: seq<string> -> bool,
                     f: nat)
    requires Consistent(submitted, pending, completed, false, job) && f in pending
    ensures f !in completed && f < |submitted|
    ensures Consistent(submitted, pending - {f}, completed + {f}, job(submitted[f]), job)
  {
  }

  /** Moving an outstanding future to the taken-out ones keeps the futures
      known, and strictly grows the taken-out ones. */
  lemma MoveKeeps(p0: set<nat>, c0: set<nat>, p: set<nat>, c: set<nat>, f: nat)
    requires p + c == p0 + c0 && c0 <= c && p !! c0 && f in p
    ensures (p - {f}) + (c + {f}) == p0 + c0 && c0 < c + {f} && p - {f} !! c0
  {
  }

  /** A run that has taken every chunk of every page out without quitting
      saw no error and handed every id to a job. */
  lemma FinishedRun(pages: seq<seq<string>>, chunkSize: nat, completed: set<nat>, job: seq<string> -> bool)
    requires chunkSize > 0
    requires Consistent(AllChunks(pages, chunkSize), {}, completed, false, job)
    ensures completed == Indices(|AllChunks(pages, chunkSize)|)
    ensures !AnyFailed(AllChunks(pages, chunkSize), job)
    ensures Flatten(AllChunks(pages, chunkSize)) == Flatten(pages)
  {
    var all := AllChunks(pages, chunkSize);
    forall i | 0 <= i < |all| ensures !job(all[i]) {
      assert i in completed;
    }
    FlattenChunksUpTo(pages, |pages|, chunkSize);
    assert pages[..|pages|] == pages;
  }

  /** A run that quit did so on an error of a submitted chunk, one of all the
      chunks. */
  lemma QuitRun(submitted: seq<seq<string>>, all: seq<seq<string>>, pending: set<nat>, completed: set<nat>,
                job: seq<string> -> bool)
    requires IsPrefix(submitted, all) && Consistent(submitted, pending, completed, true, job)
    ensures AnyFailed(all, job) && completed <= Indices(|submitted|)
  {
    var i :| i in completed && i < |submitted| && job(submitted[i]);
    PrefixFailed(submitted, all, job);
  }

  /** The invariant of the loop of `process_future`, which started with
      `pending0` and `completed0` and has `todo` of the `done` futures left. */
  ghost predicate TakeOutInv(s: seq<seq<string>>, pending0: set<nat>, completed0: set<nat>, done: set<nat>,
                             pending: set<nat>, completed: set<nat>, todo: set<nat>, job: seq<string> -> bool) {
    todo <= pending && todo <= done &&
    pending + completed == pending0 + completed0 && completed0 <= completed && pending !! completed0 &&
    completed - completed0 == done - todo &&
    Consistent(s, pending, completed, false, job)
  }

  /** One iteration of that loop. */
  lemma TakeOutStep(s: seq<seq<string>>, pending0: set<nat>, completed0: set<nat>, done: set<nat>,
                    pending: set<nat>, completed: set<nat>, todo: set<nat>, job: seq<string> -> bool, f: nat)
    requires TakeOutInv(s, pending0, completed0, done, pending, completed, todo, job) && f in todo
    ensures f < |s|
    ensures Consistent(s, pending - {f}, completed + {f}, job(s[f]), job)
    ensures completed0 < completed + {f} && (completed + {f}) - completed0 <= done
    ensures (pending - {f}) + (completed + {f}) == pending0 + completed0
    ensures |pending - {f}| == |pending| - 1
    ensures !job(s[f]) ==> TakeOutInv(s, pending0, completed0, done, pending - {f}, completed + {f}, todo - {f}, job)
  {
    TakeOutKeeps(s, pending, completed, job, f);
    MoveKeeps(pending0, completed0, pending, completed, f);
    assert f !in completed0 && f in done;
    assert (completed + {f}) - completed0 == (completed - completed0) + {f};
    assert done - (todo - {f}) == (done - todo) + {f};
  }

  /** The loop of `process_future` over the `done` futures: take each out,
      quitting at the first whose job reported an error. Without an error
      every done future is taken out; either way only done ones are, and at
      least one. */
  method TakeOutDone(s: seq<seq<string>>, pending: set<nat>, completed: set<nat>, done: set<nat>,
                     job: seq<string> -> bool)
    returns (pending': set<nat>, completed': set<nat>, failed: bool)
    requires Consistent(s, pending, completed, false, job) && done <= pending && done != {}
    ensures Consistent(s, pending', completed', failed, job)
    ensures completed < completed' && completed' - completed <= done
    ensures pending' + completed' == pending + completed && |pending'| < |pending|
    ensures !failed ==> completed' == completed + done
  {
    var todo := done;
    pending', completed' := pending, completed;
    ghost var removed := 0;
    while todo != {}
      invariant TakeOutInv(s, pending, completed, done, pending', completed', todo, job)
      invariant |pending'| + removed == |pending|
      invariant todo != {} || (completed < completed' && removed > 0)
      decreases todo
    {
      var f :| f in todo;
      TakeOutStep(s, pending, completed, done, pending', completed', todo, job, f);
      todo := todo - {f};
      pending' := pending' - {f};
      completed' := completed' + {f};
      removed := removed + 1;
      if job(s[f]) {
        return pending', completed', true;
      }
    }
    assert completed' - completed == done;
    failed := false;
  }

  /** The driver's state: the chunks submitted so far, in order, each known by
      its position; the `futures` set of those not yet taken out; those taken
      out by `process_future`; and whether the run has quit on an error.
      `peakIds` is the largest number of ids in the `futures` set so far: the
      set only grows by a submission, so that is the number right after one. */
  class MainDriver {
    const threads: nat
    const job: seq<string> -> bool
    var submitted: seq<seq<string>>
    var pending: set<nat>
    var completed: set<nat>
    var aborted: bool
    ghost var peakIds: nat

    ghost predicate Valid()
      reads this
    {
      Consistent(submitted, pending, completed, aborted, job)
    }

    /** Every chunk submitted holds at most `width` ids, and at no time have
        more than `cap` ids been outstanding. */
    ghost predicate IdsBounded(width: nat, cap: nat)
      reads this
    {
      ChunksWithin(submitted, width) && peakIds <= cap
    }

    constructor (threads: nat, job: seq<string> -> bool)
      ensures Valid()
      ensures this.threads == threads && this.job == job
      ensures submitted == [] && pending == {} && completed == {} && !aborted && peakIds == 0
    {
      this.threads := threads;
      this.job := job;
      submitted := [];
      pending := {};
      completed := {};
      aborted := false;
      peakIds := 0;
    }

    /** `futures.add(executor.submit(elastic_build_aarecords_job, chunk))`. */
    method Submit(chunk: seq<string>)
      requires Valid() && !aborted
      modifies this
      ensures Valid() && !aborted
      ensures submitted == old(submitted) + [chunk]
      ensures pending == old(pending) + {|old(submitted)|} && |pending| == |old(pending)| + 1
      ensures completed == old(completed)
      ensures peakIds == if IdsIn(submitted, pending) > old(peakIds) then IdsIn(submitted, pending) else old(peakIds)
    {
      SubmitKeeps(submitted, pending, completed, job, chunk);
      pending := pending + {|submitted|};
      submitted := submitted + [chunk];
      if IdsIn(submitted, pending) > peakIds {
        peakIds := IdsIn(submitted, pending);
      }
    }

    /** `process_future`: wait until at least one outstanding job is done,
        then take the done ones out one by one, quitting at the first that
        reported an error. */
    method ProcessFuture()
      requires Valid() && !aborted && pending != {}
      modifies this
      ensures Valid()
      ensures submitted == old(submitted)
      ensures old(completed) < completed && pending + completed == old(pending) + old(completed)
      ensures |pending| < |old(pending)|
      ensures peakIds == old(peakIds)
    {
      var done :| done <= pending && done != {};
      var failed;
      pending, completed, failed := TakeOutDone(submitted, pending, completed, done, job);
      aborted := failed;
    }

    /** One step of the submission loop: submit the chunk, then wait for a
        job if more than `2*threads` are outstanding. `outstanding` is the
        size of the `futures` set right after the submission. */
    method AddChunk(chunk: seq<string>, ghost width: nat, ghost cap: nat) returns (outstanding: nat)
      requires Valid() && !aborted && |pending| <= 2 * threads
      requires cap == (2 * threads + 1) * width && IdsBounded(width, cap) && |chunk| <= width
      modifies this
      ensures Valid()
      ensures submitted == old(submitted) + [chunk]
      ensures outstanding == |old(pending)| + 1
      ensures !aborted ==> |pending| <= 2 * threads
      ensures IdsBounded(width, cap)
    {
      ChunksWithinSnoc(submitted, chunk, width);
      Submit(chunk);
      IdsAtMost(submitted, pending, width, 2 * threads + 1);
      outstanding := |pending|;
      if |pending| > 2 * threads {
        ProcessFuture();
      }
    }

    /** The loop over one page's chunks, until one `process_future` quits.
        `peak` is the largest size of the `futures` set along the way. */
    method SubmitAll(chunks: seq<seq<string>>, ghost width: nat, ghost cap: nat) returns (peak: nat)
      requires Valid() && !aborted && |pending| <= 2 * threads
      requires cap == (2 * threads + 1) * width && IdsBounded(width, cap) && ChunksWithin(chunks, width)
      modifies this
      ensures Valid()
      ensures !aborted ==> submitted == old(submitted) + chunks && |pending| <= 2 * threads
      ensures aborted ==> IsPrefix(submitted, old(submitted) + chunks)
      ensures peak <= 2 * threads + 1
      ensures IdsBounded(width, cap)
    {
      peak := 0;
      for c := 0 to |chunks|
        invariant Valid() && !aborted && |pending| <= 2 * threads && peak <= 2 * threads + 1
        invariant submitted == old(submitted) + chunks[..c]
        invariant IdsBounded(width, cap)
      {
        assert chunks[..c + 1] == chunks[..c] + [chunks[c]];
        var outstanding := AddChunk(chunks[c], width, cap);
        if outstanding > peak {
          peak := outstanding;
        }
        if aborted {
          PrefixOfAppend(old(submitted), chunks, c + 1);
          return;
        }
      }
      assert chunks[..|chunks|] == chunks;
    }

    /** The `while True` loop over the pages: every chunk of every page is
        submitted, until one `process_future` quits. */
    method SubmitPages(pages: seq<seq<string>>, chunkSize: nat) returns (peak: nat)
      requires Valid() && !aborted && submitted == [] && pending == {} && peakIds == 0 && chunkSize > 0
      modifies this
      ensures Valid()
      ensures !aborted ==> submitted == AllChunks(pages, chunkSize)
      ensures aborted ==> IsPrefix(submitted, AllChunks(pages, chunkSize))
      ensures peak <= 2 * threads + 1
      ensures peakIds <= (2 * threads + 1) * chunkSize
    {
      peak := 0;
      ghost var cap := (2 * threads + 1) * chunkSize;
      for p := 0 to |pages|
        invariant Valid() && !aborted
        invariant submitted == ChunksUpTo(pages, p, chunkSize)
        invariant |pending| <= 2 * threads && peak <= 2 * threads + 1
        invariant IdsBounded(chunkSize, cap)
      {
        var chunks := Chunks(pages[p], chunkSize);
        assert ChunksWithin(chunks, chunkSize);
        assert ChunksUpTo(pages, p + 1, chunkSize) == submitted + chunks;
        var pagePeak := SubmitAll(chunks, chunkSize, cap);
        if pagePeak > peak {
          peak := pagePeak;
        }
        if aborted {
          QuitPrefix(pages, p + 1, chunkSize, submitted);
          return;
        }
      }
    }

    /** `while len(futures) > 0: process_future()`. */
    method Drain()
      requires Valid() && !aborted
      modifies this
      ensures Valid() && submitted == old(submitted)
      ensures !aborted ==> pending == {}
      ensures peakIds == old(peakIds)
    {
      while pending != {}
        invariant Valid() && !aborted && submitted == old(submitted) && peakIds == old(peakIds)
        decreases |pending|
      {
        ProcessFuture();
        if aborted {
          return;
        }
      }
    }
  }

  /** The main md5 pass over `pages` (the id pages of `computed_all_md5s`,
      read by keyset paging): every chunk of every page is submitted, the
      driver waiting for a job whenever more than `2*threads` are
      outstanding, then every outstanding job is waited for. Returns whether
      the run quit on an error, the chunks submitted, the positions of those
      taken out, the largest number of chunks outstanding at any time, and
      the largest number of ids in them. */
  method ElasticBuildAarecordsMain(pages: seq<seq<string>>, threads: nat, chunkSize: nat, job: seq<string> -> bool)
    returns (aborted: bool, submitted: seq<seq<string>>, completed: set<nat>, peak: nat, ghost peakIds: nat)
    requires chunkSize > 0
    ensures aborted <==> AnyFailed(AllChunks(pages, chunkSize), job)
    ensures IsPrefix(submitted, AllChunks(pages, chunkSize))
    ensures !aborted ==> submitted == AllChunks(pages, chunkSize) && completed == Indices(|submitted|)
    ensures !aborted ==> Flatten(submitted) == Flatten(pages)
    ensures aborted ==> exists i :: i in completed && i < |submitted| && job(submitted[i])
    ensures completed <= Indices(|submitted|)
    ensures peak <= 2 * threads + 1
    ensures peakIds <= (2 * threads + 1) * chunkSize
  {
    var d := new MainDriver(threads, job);
    var all := AllChunks(pages, chunkSize);
    peak := d.SubmitPages(pages, chunkSize);
    if !d.aborted {
      d.Drain();
      assert all[..|all|] == all;
    }
    if d.aborted {
      QuitRun(d.submitted, all, d.pending, d.completed, job);
      return true, d.submitted, d.completed, peak, d.peakIds;
    }
    FinishedRun(pages, chunkSize, d.completed, job);
    return false, d.submitted, d.completed, peak, d.peakIds;
  }
}
