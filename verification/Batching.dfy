/** Cutting work into batches: ChunkSlice, the batched PushMany, and the jobs of the health checker. */
module Batching {
  import opened Prelude
  import opened Decimals
  import opened WorkerPool
  import PoolRuns

  function Min(a: nat, b: nat): nat { if a < b then a else b }

  /** Where piece `j` of length `k` starts, cut off at `n`. */
  function Bound(j: nat, k: nat, n: nat): (b: nat)
    ensures b <= n
  {
    Min(j * k, n)
  }

  lemma {:induction false} BoundsGrow(j: nat, k: nat, n: nat)
    ensures Bound(j, k, n) <= Bound(j + 1, k, n) == Min(Bound(j, k, n) + k, n)
  {
    assert (j + 1) * k == j * k + k;
  }

  function Piece<T>(s: seq<T>, k: nat, j: nat): seq<T> {
    BoundsGrow(j, k, |s|);
    s[Bound(j, k, |s|)..Bound(j + 1, k, |s|)]
  }

  function Pieces<T>(s: seq<T>, k: nat, m: nat): (pieces: seq<seq<T>>)
    ensures |pieces| == m
    ensures forall j :: 0 <= j < m ==> pieces[j] == Piece(s, k, j)
  {
    if m == 0 then [] else Pieces(s, k, m - 1) + [Piece(s, k, m - 1)]
  }

  /** `m` is the quotient of `n` by `k`, rounded up. */
  predicate Ceiling(m: nat, n: nat, k: nat) {
    n <= m * k && (m > 0 ==> (m - 1) * k < n)
  }

  /** Cut into ceil(|s| / k) pieces, `s` keeps every element once and in order. */
  lemma {:induction false} PiecesPartition<T>(s: seq<T>, k: nat, m: nat)
    requires Ceiling(m, |s|, k)
    ensures Concat(Pieces(s, k, m)) == s
    ensures forall j :: 0 <= j < m ==> 0 < |Pieces(s, k, m)[j]| <= k
    ensures forall j :: 0 <= j < m - 1 ==> |Pieces(s, k, m)[j]| == k
  {
    hide Bound, Ceiling, Piece;
    PiecesSoFar(s, k, m);
    WholeAt(m, k, |s|);
    forall j: nat | j < m
      ensures 0 < |Piece(s, k, j)| <= k && (j < m - 1 ==> |Piece(s, k, j)| == k)
    {
      PieceSize(s, k, j, m);
    }
  }

  lemma {:induction false} WholeAt(m: nat, k: nat, n: nat)
    ensures Ceiling(m, n, k) ==> Bound(m, k, n) == n
    ensures Bound(0, k, n) == 0
  {
  }

  lemma {:induction false} PieceSize<T>(s: seq<T>, k: nat, j: nat, m: nat)
    requires Ceiling(m, |s|, k) && j < m
    ensures 0 < |Piece(s, k, j)| <= k && (j < m - 1 ==> |Piece(s, k, j)| == k)
  {
    PieceLength(|s|, k, j, m);
    hide Bound, Ceiling;
  }

  lemma {:induction false} PieceLength(n: nat, k: nat, j: nat, m: nat)
    requires Ceiling(m, n, k) && j < m
    ensures Bound(j, k, n) == j * k < n
    ensures Bound(j + 1, k, n) == if j < m - 1 then (j + 1) * k else n
    ensures (j + 1) * k == j * k + k
  {
    ProductsGrow(j, m - 1, k);
    ProductsGrow(j + 1, m - 1, k);
    assert j == m - 1 ==> (j + 1) * k == m * k;
  }

  lemma {:induction false} PieceFollows<T>(s: seq<T>, k: nat, j: nat)
    ensures s[..Bound(j, k, |s|)] + Piece(s, k, j) == s[..Bound(j + 1, k, |s|)]
  {
    hide Bound;
    BoundsGrow(j, k, |s|);
  }

  lemma {:induction false} PiecesSoFar<T>(s: seq<T>, k: nat, m: nat)
    ensures Concat(Pieces(s, k, m)) == s[..Bound(m, k, |s|)]
  {
    hide Bound;
    if m == 0 {
      WholeAt(0, k, |s|);
    } else {
      PiecesSoFar(s, k, m - 1);
      PieceFollows(s, k, m - 1);
      hide Concat, Piece;
      ConcatSnoc(Pieces(s, k, m - 1), Piece(s, k, m - 1));
    }
  }

  // ----- runtime/helpers ------------------------------------------------------------------------

  /** The loop shrinks the slice and, for the last piece, the chunk size. */
  method ChunkSlice<T>(slice: seq<T>, chunkSize: nat) returns (chunks: seq<seq<T>>)
    requires chunkSize > 0
    ensures Ceiling(|chunks|, |slice|, chunkSize)
    ensures chunks == Pieces(slice, chunkSize, |chunks|)
  {
    hide Bound, Ceiling, StartsInside;
    WholeAt(0, chunkSize, |slice|);
    NothingCut(|slice|, chunkSize);
    chunks := [];
    var rest, size := slice, chunkSize;
    while rest != []
      invariant chunks == Pieces(slice, chunkSize, |chunks|)
      invariant rest == slice[Bound(|chunks|, chunkSize, |slice|)..]
      invariant StartsInside(|chunks|, |slice|, chunkSize)
      invariant rest != [] ==> size == chunkSize
      decreases |rest|
    {
      StartsInsideNext(|chunks|, chunkSize, |slice|);
      BoundsGrow(|chunks|, chunkSize, |slice|);
      if |rest| < size {
        size := |rest|;
      }
      assert rest[..size] == Piece(slice, chunkSize, |chunks|);
      chunks := chunks + [rest[..size]];
      rest := rest[size..];
    }
    CutToTheEnd(|chunks|, |slice|, chunkSize);
  }

  /** The last of `m` pieces starts before the end. */
  predicate StartsInside(m: nat, n: nat, k: nat) {
    m > 0 ==> (m - 1) * k < n
  }

  lemma {:induction false} NothingCut(n: nat, k: nat)
    ensures StartsInside(0, n, k)
  {
  }

  lemma {:induction false} StartsInsideNext(m: nat, k: nat, n: nat)
    requires Bound(m, k, n) < n
    ensures StartsInside(m + 1, n, k)
  {
  }

  lemma {:induction false} CutToTheEnd(m: nat, n: nat, k: nat)
    requires Bound(m, k, n) == n && StartsInside(m, n, k)
    ensures Ceiling(m, n, k)
  {
  }

  // ----- runtime/queue --------------------------------------------------------------------------

  const PUSH_BATCH := 100

  /** The Redis lists, and whether the server accepts the j-th RPUSH of a call. */
  class Redis {
    var lists: map<string, seq<string>>

    constructor ()
      ensures lists == map[]
    {
      lists := map[];
    }

    function Items(key: string): seq<string>
      reads this
    {
      if key in lists then lists[key] else []
    }

    /** RPUSH appends the whole batch or fails without a trace. */
    method Rpush(key: string, batch: seq<string>, accepted: bool) returns (ok: bool)
      modifies this
      ensures ok == accepted
      ensures Items(key) == if accepted then old(Items(key)) + batch else old(Items(key))
      ensures forall other :: other != key ==> Items(other) == old(Items(other))
    {
      if accepted {
        lists := lists[key := Items(key) + batch];
      }
      ok := accepted;
    }

    /**
     * Either every item arrives in order, or the call stops at the first refused batch and exactly
     * the batches before it have arrived.
     */
    method PushMany(key: string, data: seq<string>, accepts: nat -> bool) returns (ok: bool)
      modifies this
      ensures ok ==> Items(key) == old(Items(key)) + data
      ensures !ok ==> exists j: nat :: StoppedAt(j, |data|, accepts)
                                       && Items(key) == old(Items(key)) + data[..j * 100]
      ensures ok <==> AcceptsAll(|data|, accepts)
      ensures forall other :: other != key ==> Items(other) == old(Items(other))
    {
      var dataChunks := ChunkSlice(data, PUSH_BATCH);
      WholeAt(|dataChunks|, PUSH_BATCH, |data|);
      AllAccepted(|dataChunks|, |data|, accepts);
      hide Bound, Ceiling, Piece, Pieces, StoppedAt, AcceptsAll;
      for i := 0 to |dataChunks|
        invariant Items(key) == old(Items(key)) + data[..Bound(i, PUSH_BATCH, |data|)]
        invariant forall j: nat :: j < i ==> accepts(j)
        invariant forall other :: other != key ==> Items(other) == old(Items(other))
      {
        PieceLength(|data|, PUSH_BATCH, i, |dataChunks|);
        ok := Rpush(key, dataChunks[i], accepts(i));
        if !ok {
          Refused(i, |data|, accepts);
          return;
        }
        PieceFollows(data, PUSH_BATCH, i);
        AppendTwice(old(Items(key)), data[..Bound(i, PUSH_BATCH, |data|)], dataChunks[i]);
      }
      ok := true;
      assert data[..|data|] == data;
    }

    /** LPOP with a count hands out the oldest items and keeps the rest; a failed one does neither. */
    method FetchMany(key: string, count: nat, answers: bool) returns (items: seq<string>, ok: bool)
      modifies this
      ensures ok == answers && old(Items(key)) == items + Items(key)
      ensures |items| == if answers then Min(count, |old(Items(key))|) else 0
      ensures forall other :: other != key ==> Items(other) == old(Items(other))
    {
      items, ok := [], answers;
      if answers && key in lists {
        var values := lists[key][..Min(count, |lists[key]|)];
        lists := lists[key := lists[key][|values|..]];
        for i := 0 to |values|
          invariant items == values[..i]
        {
          items := items + [values[i]];
        }
      }
    }
  }

  lemma {:induction false} AppendTwice<T>(a: seq<T>, b: seq<T>, c: seq<T>)
    ensures (a + b) + c == a + (b + c)
  {
  }

  /** No batch that holds anything is refused. */
  ghost predicate AcceptsAll(size: nat, accepts: nat -> bool) {
    forall j: nat :: j * 100 < size ==> accepts(j)
  }

  lemma {:induction false} AllAccepted(m: nat, size: nat, accepts: nat -> bool)
    requires Ceiling(m, size, 100)
    ensures (forall j: nat :: j < m ==> accepts(j)) ==> AcceptsAll(size, accepts)
  {
    forall j: nat | j * 100 < size
      ensures j < m
    {
      ProductsGrow(m, j, 100);
    }
  }

  lemma {:induction false} Refused(i: nat, size: nat, accepts: nat -> bool)
    requires i * 100 < size && !accepts(i) && forall j: nat :: j < i ==> accepts(j)
    ensures StoppedAt(i, size, accepts) && !AcceptsAll(size, accepts)
  {
  }

  /** Batch `j` is the first one the server refuses. */
  ghost predicate StoppedAt(j: nat, size: nat, accepts: nat -> bool) {
    j * 100 < size && !accepts(j) && forall i: nat :: i < j ==> accepts(i)
  }

  // ----- health-checker -------------------------------------------------------------------------

  /** One job for each piece of the position list: it runs on that piece and is named after where that starts. */
  method GenerateJobs(positionList: seq<string>, addressesPerJob: nat, fetch: seq<string> -> Outcome)
    returns (jobs: seq<Job>)
    requires addressesPerJob > 0
    ensures Ceiling(|jobs|, |positionList|, addressesPerJob)
    ensures forall j :: 0 <= j < |jobs|
              ==> && jobs[j].args == Piece(positionList, addressesPerJob, j)
                  && jobs[j].outcome == fetch(Piece(positionList, addressesPerJob, j))
                  && jobs[j].id == Decimal(j * addressesPerJob)
  {
    hide Piece;
    jobs := [];
    var i := 0;
    while i < |positionList|
      invariant i == |jobs| * addressesPerJob
      invariant |jobs| > 0 ==> (|jobs| - 1) * addressesPerJob < |positionList|
      invariant forall j :: 0 <= j < |jobs|
                  ==> && jobs[j].args == Piece(positionList, addressesPerJob, j)
                      && jobs[j].outcome == fetch(Piece(positionList, addressesPerJob, j))
                      && jobs[j].id == Decimal(j * addressesPerJob)
      decreases |positionList| - i
    {
      PieceAt(positionList, addressesPerJob, |jobs|, i);
      var sliceEnd := i + Min(|positionList| - i, addressesPerJob);
      var positionsSubSlice := positionList[i..sliceEnd];
      if |positionsSubSlice| > 0 {
        jobs := jobs + [Job(Decimal(i), positionsSubSlice, fetch(positionsSubSlice))];
      }
      i := i + addressesPerJob;
    }
  }

  lemma {:induction false} PieceAt<T>(s: seq<T>, k: nat, j: nat, i: nat)
    requires i == j * k < |s|
    ensures Piece(s, k, j) == s[i..i + Min(|s| - i, k)] && (j + 1) * k == i + k
  {
    BoundsGrow(j, k, |s|);
  }

  ghost predicate Generated(
      jobs: seq<Job>, positionList: seq<string>, k: nat, fetch: seq<string> -> Outcome)
  {
    && k > 0 && Ceiling(|jobs|, |positionList|, k)
    && forall j :: 0 <= j < |jobs|
         ==> && jobs[j].args == Piece(positionList, k, j) && jobs[j].outcome == fetch(Piece(positionList, k, j))
             && jobs[j].id == Decimal(j * k)
  }

  function ArgsOf(jobs: seq<Job>): seq<seq<string>> {
    seq(|jobs|, j requires 0 <= j < |jobs| => jobs[j].args)
  }

  /**
   * What GenerateJobs produces splits the positions without loss, and every id can be read back, so
   * that no run of the pool on these jobs is cut short by an unreadable id.
   */
  lemma {:induction false} GeneratedJobsAreComplete(
      positionList: seq<string>, k: nat, fetch: seq<string> -> Outcome, jobs: seq<Job>)
    requires Generated(jobs, positionList, k, fetch) && |positionList| <= MAX_INT64
    ensures Concat(ArgsOf(jobs)) == positionList
    ensures forall j :: 0 <= j < |jobs| ==> 0 < |jobs[j].args| <= k && ParseInt64(jobs[j].id) == Some(j * k)
  {
    assert ArgsOf(jobs) == Pieces(positionList, k, |jobs|);
    PiecesPartition(positionList, k, |jobs|);
    forall j: nat | j < |jobs|
      ensures 0 < |jobs[j].args| <= k && ParseInt64(jobs[j].id) == Some(j * k)
    {
      assert jobs[j].args == Pieces(positionList, k, |jobs|)[j];
      PieceLength(|positionList|, k, j, |jobs|);
      ParseReadsDecimal(j * k);
    }
  }

  /** Checking a position list end to end: the pool's consumer never gives up on generated jobs. */
  lemma {:induction false} GeneratedJobsNeverFail(
      positionList: seq<string>, k: nat, fetch: seq<string> -> Outcome, jobs: seq<Job>, n: nat, s: State)
    requires Generated(jobs, positionList, k, fetch) && |positionList| <= MAX_INT64
    requires PoolRuns.Reachable(n, jobs, s)
    ensures s.consumer != Returned(false)
  {
    GeneratedJobsAreComplete(positionList, k, fetch, jobs);
    PoolRuns.NeverReturnsFalse(n, jobs, s);
  }

  /**
   * And when nothing is left behind, the users returned are those that fetching each piece of the position
   * list yields, all of them and as often; what is left behind makes up the difference.
   */
  lemma {:induction false} GeneratedJobsReturnUsers(
      positionList: seq<string>, k: nat, fetch: seq<string> -> Outcome, jobs: seq<Job>, n: nat, s: State)
    requires Generated(jobs, positionList, k, fetch)
    requires n > 0 && PoolRuns.Reachable(n, jobs, s) && s.consumer == Returned(true)
    ensures var left := s.results.buf;
            multiset(s.users)
            + multiset(Concat(seq(|left|, i requires 0 <= i < |left| =>
                                    if left[i].outcome.Value? then left[i].outcome.users else [])))
            == multiset(Concat(seq(|jobs|, j requires 0 <= j < |jobs| =>
                                     var fetched := fetch(Piece(positionList, k, j));
                                     if fetched.Value? then fetched.users else [])))
    ensures s.results.buf == []
            ==> multiset(s.users)
                == multiset(Concat(seq(|jobs|, j requires 0 <= j < |jobs| =>
                                         var fetched := fetch(Piece(positionList, k, j));
                                         if fetched.Value? then fetched.users else [])))
  {
    PoolRuns.ReturnedUsers(n, jobs, s);
    assert seq(|jobs|, i requires 0 <= i < |jobs| => if jobs[i].outcome.Value? then jobs[i].outcome.users else [])
        == seq(|jobs|, j requires 0 <= j < |jobs| =>
             var fetched := fetch(Piece(positionList, k, j));
             if fetched.Value? then fetched.users else []);
    assert Concat<User>([]) == [];
  }
}
