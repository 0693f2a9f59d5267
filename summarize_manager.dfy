/**
 * The summary worker's request table. Requests are records in a list; they
 * are looked up, updated and removed by the first one with a given id. A
 * request moves PENDING, EXTRACTING, FILTERING and then COMPLETED or FAILED,
 * and polling reports its state, its place in the queue and time estimates
 * drawn from the duration store.
 */
module SummarizeManager {
  import opened Common
  import opened Strings
  import Estimation

  /** `RequestStatus`, with its numeric values. */
  datatype Status = Pending | Extracting | Filtering | Completed | Failed {
    function Value(): (v: nat)
      ensures 1 <= v <= 5
    {
      match this
      case Pending => 1
      case Extracting => 2
      case Filtering => 3
      case Completed => 4
      case Failed => 5
    }
  }

  /** `result`: the error text, or the per-page summaries (a page may have none). */
  datatype ResultValue = Text(text: string) | Pages(pages: seq<Option<string>>)

  /** The `Request` record, with times in seconds. */
  datatype Request = Request(id: string, pdfPath: string, status: Status, result: ResultValue,
                             nbPages: nat, timeStart: real, customPrompt: string)

  /** What `poll_summarize` returns. */
  datatype PollResponse =
    | NotFound
    | Queued(id: string, status: Status, result: ResultValue, queuePosition: nat, queueEstimation: real, timeEstimation: real)
    | Running(id: string, status: Status, result: ResultValue, timeEstimation: real)
    | Finished(id: string, status: Status, result: ResultValue)

  const RequestNotFound: string := "Request not found"

  /** A request is in progress when its status lies strictly between PENDING and COMPLETED. */
  predicate InProgress(s: Status) {
    Pending.Value() < s.Value() < Completed.Value()
  }

  predicate IsPending(s: Status) {
    s == Pending
  }

  /** A request the queue estimate counts: pending or in progress. */
  predicate Active(s: Status) {
    IsPending(s) || InProgress(s)
  }

  /** Being in progress means extracting or filtering. */
  lemma InProgressStatuses(s: Status)
    ensures InProgress(s) <==> s == Extracting || s == Filtering
    ensures Active(s) <==> s != Completed && s != Failed
  {
  }

  /** The index of the first request with that id. */
  function IndexOf(rs: seq<Request>, id: string): (r: Option<nat>)
    ensures r.Some? ==> r.value < |rs| && rs[r.value].id == id
    ensures r.Some? ==> forall j :: 0 <= j < r.value ==> rs[j].id != id
    ensures r.None? <==> forall j :: 0 <= j < |rs| ==> rs[j].id != id
  {
    if |rs| == 0 then None
    else if rs[0].id == id then Some(0)
    else match IndexOf(rs[1..], id)
      case None => None
      case Some(i) => Some(i + 1)
  }

  /** `list.index`: the position of the first element equal to `x`. */
  function FirstIndexOf(xs: seq<Request>, x: Request): (r: Option<nat>)
    ensures r.Some? ==> r.value < |xs| && xs[r.value] == x
    ensures r.Some? ==> forall j :: 0 <= j < r.value ==> xs[j] != x
    ensures r.None? <==> x !in xs
  {
    if |xs| == 0 then None
    else if xs[0] == x then Some(0)
    else match FirstIndexOf(xs[1..], x)
      case None => None
      case Some(i) => Some(i + 1)
  }

  /** The requests whose status satisfies `p`, in list order. */
  function Select(rs: seq<Request>, p: Status -> bool): (r: seq<Request>)
    ensures |r| <= |rs|
  {
    if |rs| == 0 then []
    else Select(rs[..|rs| - 1], p) + (if p(rs[|rs| - 1].status) then [rs[|rs| - 1]] else [])
  }

  predicate UniqueIds(rs: seq<Request>) {
    forall i, j :: 0 <= i < j < |rs| ==> rs[i].id != rs[j].id
  }

  /** The record after `__update_request_status` has set `status` on it. */
  function WithStatus(r: Request, status: Status, error: string, results: seq<Option<string>>, now: real): (u: Request)
    ensures u.id == r.id && u.pdfPath == r.pdfPath && u.nbPages == r.nbPages && u.customPrompt == r.customPrompt
    ensures u.status == status
    ensures u.timeStart == if status == Extracting then now else r.timeStart
    ensures u.result == if status == Failed then Text(error) else if status == Completed then Pages(results) else r.result
  {
    var r1 := r.(status := status);
    var r2 := if status == Extracting then r1.(timeStart := now) else r1;
    if status == Failed then r2.(result := Text(error))
    else if status == Completed then r2.(result := Pages(results))
    else r2
  }

  /** The record at the end of the worker: started at `started`, then FAILED with the error or COMPLETED with the results. */
  function Processed(r: Request, extraction: Result<bool>, summary: Result<seq<Option<string>>>, started: real): (u: Request)
    ensures u.status == Completed <==> extraction.Ok? && summary.Ok?
    ensures u.status == Failed <==> extraction.Err? || summary.Err?
    ensures u.id == r.id && u.nbPages == r.nbPages && u.timeStart == started
  {
    var s := r.(timeStart := started);
    if extraction.Err? then s.(status := Failed, result := Text(extraction.message))
    else if summary.Err? then s.(status := Failed, result := Text(summary.message))
    else s.(status := Completed, result := Pages(summary.value))
  }

  /** The statuses the worker sets, in order. */
  function Trace(id: string, extraction: Result<bool>, summary: Result<seq<Option<string>>>): seq<(string, Status)> {
    if extraction.Err? then [(id, Extracting), (id, Failed)]
    else [(id, Extracting), (id, Filtering), (id, if summary.Err? then Failed else Completed)]
  }

  /** `__get_request_remaining_time`: the estimate while pending, then what is left of it, but never below -1. */
  function RemainingTime(est: Estimation.Buckets, r: Request, now: real): (t: real)
    requires Estimation.NoEmptyBucket(est)
  {
    var estimate := Estimation.GetEstimationTime(est, r.nbPages);
    if r.status == Pending then estimate
    else
      var left := estimate - (now - r.timeStart);
      if left > -1.0 then left else -1.0
  }

  /** The sum of the remaining times of some requests. */
  function SumRemaining(est: Estimation.Buckets, rs: seq<Request>, now: real): real
    requires Estimation.NoEmptyBucket(est)
  {
    if |rs| == 0 then 0.0 else SumRemaining(est, rs[..|rs| - 1], now) + RemainingTime(est, rs[|rs| - 1], now)
  }

  /** `__get_queue_estimation_time`: the pending requests' remaining times, then those in progress. */
  function QueueTotal(est: Estimation.Buckets, rs: seq<Request>, now: real): real
    requires Estimation.NoEmptyBucket(est)
  {
    SumRemaining(est, Select(rs, IsPending), now) + SumRemaining(est, Select(rs, InProgress), now)
  }

  /** The number of pending requests before index `i`. */
  function PendingRank(rs: seq<Request>, i: nat): nat
    requires i <= |rs|
  {
    |Select(rs[..i], IsPending)|
  }

  class SummarizeManager {
    var requests: seq<Request>
    /** The ids put on the processing queue, oldest first. */
    var queue: seq<string>
    /** Every status change made, with the id it was made for. */
    ghost var history: seq<(string, Status)>
    const estimation: Estimation.EstimationStore
    const uploadFolder: string

    /** Request ids are unique: `start_summarize` draws each one from `uuid4`. */
    ghost predicate Valid()
      reads this
    {
      UniqueIds(requests)
    }

    constructor (estimation: Estimation.EstimationStore, uploadFolder: string)
      ensures Valid()
      ensures requests == [] && queue == [] && history == []
      ensures this.estimation == estimation && this.uploadFolder == uploadFolder
    {
      requests := [];
      queue := [];
      history := [];
      this.estimation := estimation;
      this.uploadFolder := uploadFolder;
    }

    /** `__get_request`: the first request with that id, if any. */
    method GetRequest(id: string) returns (r: Option<Request>)
      ensures IndexOf(requests, id).None? ==> r.None?
      ensures IndexOf(requests, id).Some? ==> r == Some(requests[IndexOf(requests, id).value])
    {
      var i := 0;
      while i < |requests|
        invariant 0 <= i <= |requests|
        invariant forall j :: 0 <= j < i ==> requests[j].id != id
      {
        if requests[i].id == id {
          return Some(requests[i]);
        }
        i := i + 1;
      }
      return None;
    }

    /**
     * `__remove_request`: removes the first request with that id. Python's
     * `list.remove` drops the first element equal to that record, and no
     * earlier element is equal to it, since none has its id.
     */
    method RemoveRequest(id: string)
      requires Valid()
      modifies this
      ensures Valid()
      ensures queue == old(queue) && history == old(history)
      ensures IndexOf(old(requests), id).None? ==> requests == old(requests)
      ensures IndexOf(old(requests), id).Some? ==>
        var i := IndexOf(old(requests), id).value;
        requests == old(requests)[..i] + old(requests)[i + 1..]
    {
      var i := 0;
      while i < |requests|
        invariant 0 <= i <= |requests|
        invariant forall j :: 0 <= j < i ==> requests[j].id != id
      {
        if requests[i].id == id {
          UniqueAfterRemoval(requests, i);
          requests := requests[..i] + requests[i + 1..];
          return;
        }
        i := i + 1;
      }
    }

    /**
     * `__update_request_status`: on the first request with that id, sets the
     * status; EXTRACTING also stamps the start time, FAILED stores the error
     * and COMPLETED the results. An unknown id changes nothing.
     */
    method UpdateRequestStatus(id: string, status: Status, error: string, results: seq<Option<string>>, now: real)
      requires Valid()
      modifies this
      ensures Valid()
      ensures queue == old(queue)
      ensures IndexOf(old(requests), id).None? ==> requests == old(requests) && history == old(history)
      ensures IndexOf(old(requests), id).Some? ==>
        var i := IndexOf(old(requests), id).value;
        && requests == old(requests)[i := WithStatus(old(requests)[i], status, error, results, now)]
        && IndexOf(requests, id) == Some(i)
        && history == old(history) + [(id, status)]
    {
      var i := 0;
      while i < |requests|
        invariant 0 <= i <= |requests|
        invariant forall j :: 0 <= j < i ==> requests[j].id != id
        invariant requests == old(requests) && history == old(history) && queue == old(queue)
      {
        if requests[i].id == id {
          var r := requests[i].(status := status);
          if status == Extracting {
            r := r.(timeStart := now);
          }
          if status == Failed {
            r := r.(result := Text(error));
          } else if status == Completed {
            r := r.(result := Pages(results));
          }
          IndexOfKept(requests, id, i, r);
          UniqueAfterUpdate(requests, i, r);
          requests := requests[i := r];
          history := history + [(id, status)];
          break;
        }
        i := i + 1;
      }
    }

    /**
     * `__cleanup_request`: records how long the request took, from its start
     * time to `now`, unless it failed. Removing its folder is not modelled.
     */
    method CleanupRequest(id: string, now: real)
      requires estimation.Valid()
      modifies estimation
      ensures estimation.Valid()
      ensures IndexOf(requests, id).None? || requests[IndexOf(requests, id).value].status == Failed ==>
        estimation.buckets == old(estimation.buckets)
      ensures IndexOf(requests, id).Some? && requests[IndexOf(requests, id).value].status != Failed ==>
        var r := requests[IndexOf(requests, id).value];
        estimation.buckets == Estimation.Recorded(old(estimation.buckets), r.nbPages, now - r.timeStart)
    {
      var request := GetRequest(id);
      if request.None? {
        return;
      }
      if request.value.status != Failed {
        estimation.AddEstimationTime(request.value.nbPages, now - request.value.timeStart);
      }
    }

    /**
     * The `try`/`except` of `_summarize_worker`: EXTRACTING, then the
     * extraction, FILTERING, the summarising and COMPLETED; an exception in
     * either step (`Err` with its text) sets FAILED instead. The extractor's
     * boolean answer is not looked at.
     */
    method RunStages(id: string, extraction: Result<bool>, summary: Result<seq<Option<string>>>, started: real, finished: real)
      requires Valid() && IndexOf(requests, id).Some?
      modifies this
      ensures Valid()
      ensures queue == old(queue)
      ensures var i := IndexOf(old(requests), id).value;
        && requests == old(requests)[i := Processed(old(requests)[i], extraction, summary, started)]
        && IndexOf(requests, id) == Some(i)
        && history == old(history) + Trace(id, extraction, summary)
    {
      ghost var i := IndexOf(requests, id).value;
      ghost var r0, h0 := requests, history;
      ghost var p := Processed(r0[i], extraction, summary, started);
      StagesRecord(r0[i], extraction, summary, started, finished);
      UpdateRequestStatus(id, Extracting, "", [], started);
      ghost var r1, w1 := requests, requests[i];
      if extraction.Err? {
        UpdateRequestStatus(id, Failed, extraction.message, [], finished);
        UpdateOverwrite(r0, i, w1, requests[i]);
        AppendTwo(h0, (id, Extracting), (id, Failed));
      } else {
        UpdateRequestStatus(id, Filtering, "", [], finished);
        ghost var r2, w2 := requests, requests[i];
        UpdateOverwrite(r0, i, w1, w2);
        if summary.Err? {
          UpdateRequestStatus(id, Failed, summary.message, [], finished);
          UpdateOverwrite(r0, i, w2, requests[i]);
          AppendThree(h0, (id, Extracting), (id, Filtering), (id, Failed));
        } else {
          UpdateRequestStatus(id, Completed, "", summary.value, finished);
          UpdateOverwrite(r0, i, w2, requests[i]);
          AppendThree(h0, (id, Extracting), (id, Filtering), (id, Completed));
        }
      }
    }

    /**
     * `_summarize_worker`: runs the stages on the request, then cleans up,
     * which records the duration unless the request failed. `started` and
     * `finished` are the clock at the start of extraction and at the clean-up.
     */
    method SummarizeWorker(id: string, extraction: Result<bool>, summary: Result<seq<Option<string>>>, started: real, finished: real)
      requires Valid() && estimation.Valid()
      modifies this, estimation
      ensures Valid() && estimation.Valid() && queue == old(queue)
      ensures IndexOf(old(requests), id).None? ==>
        requests == old(requests) && history == old(history) && estimation.buckets == old(estimation.buckets)
      ensures IndexOf(old(requests), id).Some? ==>
        var i := IndexOf(old(requests), id).value;
        var r := Processed(old(requests)[i], extraction, summary, started);
        && requests == old(requests)[i := r]
        && history == old(history) + Trace(id, extraction, summary)
        && (r.status == Failed ==> estimation.buckets == old(estimation.buckets))
        && (r.status == Completed ==> estimation.buckets == Estimation.Recorded(old(estimation.buckets), r.nbPages, finished - started))
    {
      var request := GetRequest(id);
      if request.None? {
        return;
      }
      RunStages(id, extraction, summary, started, finished);
      CleanupRequest(id, finished);
    }

    /** Where `start_summarize` moves the uploaded PDF. */
    function PdfPath(id: string): string {
      uploadFolder + "/" + id + "/file.pdf"
    }

    /**
     * `start_summarize`: `id` is the fresh request id, one no request holds,
     * and `pageCount` the number of pages the PDF reader found, or `None`
     * when it failed.
     */
    method StartSummarize(id: string, pageCount: Option<nat>) returns (r: Option<string>)
      requires Valid() && IndexOf(requests, id).None?
      modifies this
      ensures Valid()
      ensures history == old(history)
      ensures pageCount.None? ==> r.None? && requests == old(requests) && queue == old(queue)
      ensures pageCount.Some? ==>
        && r == Some(id)
        && requests == old(requests) + [Request(id, PdfPath(id), Pending, Text(""), pageCount.value, 0.0, "")]
        && queue == old(queue) + [id]
    {
      if pageCount.None? {
        return None;
      }
      var request := Request(id, PdfPath(id), Pending, Text(""), pageCount.value, 0.0, "");
      UniqueAfterAppend(requests, request);
      requests := requests + [request];
      queue := queue + [id];
      return Some(id);
    }

    /** `__get_queue_estimation_time`, with its two loops. */
    method QueueEstimation(now: real) returns (total: real)
      requires estimation.Valid()
      ensures total == QueueTotal(estimation.buckets, requests, now)
    {
      var queued := Select(requests, IsPending);
      var current := Select(requests, InProgress);
      total := 0.0;
      var i := 0;
      while i < |queued|
        invariant 0 <= i <= |queued|
        invariant total == SumRemaining(estimation.buckets, queued[..i], now)
      {
        SumRemainingSnoc(estimation.buckets, queued, i, now);
        total := total + RemainingTime(estimation.buckets, queued[i], now);
        i := i + 1;
      }
      assert queued[..i] == queued;
      var j := 0;
      while j < |current|
        invariant 0 <= j <= |current|
        invariant total == SumRemaining(estimation.buckets, queued, now) + SumRemaining(estimation.buckets, current[..j], now)
      {
        SumRemainingSnoc(estimation.buckets, current, j, now);
        total := total + RemainingTime(estimation.buckets, current[j], now);
        j := j + 1;
      }
      assert current[..j] == current;
    }

    /**
     * The second half of `poll_summarize`: the reply for `req`, with its
     * estimates taken from the table as it now stands. A pending request's
     * position is where `list.index` finds it among the pending ones, plus 1.
     */
    method Reply(req: Request, ghost i: nat, now: real) returns (resp: PollResponse)
      requires estimation.Valid()
      requires req.status == Pending ==> i < |requests| && requests[i] == req && IndexOf(requests, req.id) == Some(i)
      ensures req.status == Pending ==>
        resp == Queued(req.id, req.status, req.result, PendingRank(requests, i) + 1,
                       QueueTotal(estimation.buckets, requests, now) - RemainingTime(estimation.buckets, req, now),
                       RemainingTime(estimation.buckets, req, now))
      ensures InProgress(req.status) ==> resp == Running(req.id, req.status, req.result, RemainingTime(estimation.buckets, req, now))
      ensures req.status == Completed || req.status == Failed ==> resp == Finished(req.id, req.status, req.result)
    {
      var requestTime := RemainingTime(estimation.buckets, req, now);
      var queueTime := QueueEstimation(now);
      if req.status == Pending {
        var queued := Select(requests, IsPending);
        PendingPosition(requests, i);
        var position := FirstIndexOf(queued, req);
        return Queued(req.id, req.status, req.result, position.value + 1, queueTime - requestTime, requestTime);
      } else if req.status.Value() < Completed.Value() {
        return Running(req.id, req.status, req.result, requestTime);
      }
      return Finished(req.id, req.status, req.result);
    }

    /**
     * `poll_summarize`. A COMPLETED request is removed as it is reported; the
     * estimates are computed after that removal.
     */
    method Poll(id: string, now: real) returns (resp: PollResponse)
      requires Valid() && estimation.Valid()
      modifies this
      ensures Valid()
      ensures queue == old(queue) && history == old(history)
      ensures IndexOf(old(requests), id).None? ==> resp == NotFound && requests == old(requests)
      ensures IndexOf(old(requests), id).Some? ==>
        var i := IndexOf(old(requests), id).value;
        var r := old(requests)[i];
        && (r.status == Completed ==> requests == old(requests)[..i] + old(requests)[i + 1..] && IndexOf(requests, id).None?)
        && (r.status != Completed ==> requests == old(requests) && IndexOf(requests, id) == Some(i))
        && (r.status == Pending ==>
              resp == Queued(r.id, r.status, r.result, PendingRank(old(requests), i) + 1,
                             QueueTotal(estimation.buckets, old(requests), now) - RemainingTime(estimation.buckets, r, now),
                             RemainingTime(estimation.buckets, r, now)))
        && (InProgress(r.status) ==> resp == Running(r.id, r.status, r.result, RemainingTime(estimation.buckets, r, now)))
        && (r.status == Completed || r.status == Failed ==> resp == Finished(r.id, r.status, r.result))
    {
      var request := GetRequest(id);
      if request.None? {
        return NotFound;
      }
      var req := request.value;
      ghost var i := IndexOf(requests, id).value;
      if req.status == Completed {
        ghost var before := requests;
        RemoveRequest(id);
        RemovedNotFound(before, i);
      }
      resp := Reply(req, i, now);
    }
  }

  /** Selecting from a prefix one element longer. */
  lemma SelectSnoc(rs: seq<Request>, i: nat, p: Status -> bool)
    requires i < |rs|
    ensures Select(rs[..i + 1], p) == Select(rs[..i], p) + (if p(rs[i].status) then [rs[i]] else [])
  {
    assert rs[..i + 1][..i] == rs[..i];
  }

  /** The selection holds exactly the requests of the list that satisfy `p`. */
  lemma {:induction false} SelectMembers(rs: seq<Request>, p: Status -> bool)
    ensures forall x :: x in Select(rs, p) <==> x in rs && p(x.status)
    decreases |rs|
  {
    if |rs| > 0 {
      var init := rs[..|rs| - 1];
      SelectMembers(init, p);
      assert rs == init + [rs[|rs| - 1]];
    }
  }

  /** The pending requests before index `i` are the first `PendingRank` entries of the pending list. */
  lemma {:induction false} SelectPrefix(rs: seq<Request>, i: nat)
    requires i <= |rs|
    ensures PendingRank(rs, i) <= |Select(rs, IsPending)|
    ensures Select(rs, IsPending)[..PendingRank(rs, i)] == Select(rs[..i], IsPending)
    decreases |rs| - i
  {
    if i == |rs| {
      assert rs[..i] == rs;
    } else {
      SelectPrefix(rs, i + 1);
      SelectSnoc(rs, i, IsPending);
    }
  }

  /** Replacing the first request with an id by another with that id keeps it first. */
  lemma IndexOfKept(rs: seq<Request>, id: string, i: nat, u: Request)
    requires IndexOf(rs, id) == Some(i) && u.id == id
    ensures IndexOf(rs[i := u], id) == Some(i)
  {
    var r := IndexOf(rs[i := u], id);
    assert rs[i := u][i].id == id;
    assert r.Some?;
    assert !(r.value < i) && !(r.value > i);
  }

  /** Updating the same index twice keeps only the second value. */
  lemma UpdateOverwrite<T>(s: seq<T>, i: nat, a: T, b: T)
    requires i < |s|
    ensures s[i := a][i := b] == s[i := b]
  {
  }

  /** Appending two entries one at a time. */
  lemma AppendTwo<T>(h: seq<T>, a: T, b: T)
    ensures h + [a] + [b] == h + [a, b]
  {
  }

  /** Appending three entries one at a time. */
  lemma AppendThree<T>(h: seq<T>, a: T, b: T, c: T)
    ensures h + [a] + [b] + [c] == h + [a, b, c]
  {
  }

  /** The worker's status updates on one record leave it as `Processed` describes. */
  lemma StagesRecord(r: Request, extraction: Result<bool>, summary: Result<seq<Option<string>>>, started: real, finished: real)
    ensures var r1 := WithStatus(r, Extracting, "", [], started);
      var r2 := WithStatus(r1, Filtering, "", [], finished);
      var p := Processed(r, extraction, summary, started);
      && (extraction.Err? ==> WithStatus(r1, Failed, extraction.message, [], finished) == p)
      && (extraction.Ok? && summary.Err? ==> WithStatus(r2, Failed, summary.message, [], finished) == p)
      && (extraction.Ok? && summary.Ok? ==> WithStatus(r2, Completed, "", summary.value, finished) == p)
  {
  }

  /** `list.index` finds `x` at `k` when `x` is there and nowhere before. */
  lemma FirstIndexOfAt(xs: seq<Request>, x: Request, k: nat)
    requires k < |xs| && xs[k] == x && forall j :: 0 <= j < k ==> xs[j] != x
    ensures FirstIndexOf(xs, x) == Some(k)
  {
    var r := FirstIndexOf(xs, x);
    assert r.Some?;
    assert !(r.value < k);
  }

  /**
   * `list.index` on the pending list finds the first request with an id at
   * its rank: no earlier pending request equals it, as none has its id.
   */
  lemma PendingPosition(rs: seq<Request>, i: nat)
    requires i < |rs| && rs[i].status == Pending && IndexOf(rs, rs[i].id) == Some(i)
    ensures FirstIndexOf(Select(rs, IsPending), rs[i]) == Some(PendingRank(rs, i))
  {
    var queued := Select(rs, IsPending);
    var before := Select(rs[..i], IsPending);
    var k := PendingRank(rs, i);
    SelectAtRank(rs, i);
    SelectMembers(rs[..i], IsPending);
    forall j | 0 <= j < k
      ensures queued[j] != rs[i]
    {
      assert queued[j] == before[j];
      assert before[j] in rs[..i];
    }
    FirstIndexOfAt(queued, rs[i], k);
  }

  /** The pending list holds a pending request at its rank, after the pending requests before it. */
  lemma SelectAtRank(rs: seq<Request>, i: nat)
    requires i < |rs| && rs[i].status == Pending
    ensures PendingRank(rs, i) < |Select(rs, IsPending)|
    ensures Select(rs, IsPending)[PendingRank(rs, i)] == rs[i]
    ensures Select(rs, IsPending)[..PendingRank(rs, i)] == Select(rs[..i], IsPending)
  {
    var queued := Select(rs, IsPending);
    var before := Select(rs[..i], IsPending);
    var k := PendingRank(rs, i);
    var upto := Select(rs[..i + 1], IsPending);
    SelectSnoc(rs, i, IsPending);
    assert upto == before + [rs[i]];
    assert PendingRank(rs, i + 1) == k + 1;
    SelectPrefix(rs, i + 1);
    assert queued[..k + 1] == upto;
    assert queued[k] == upto[k];
    assert queued[..k] == upto[..k];
  }

  /** The rank grows by one at each pending request and stays put elsewhere. */
  lemma RankStep(rs: seq<Request>, i: nat)
    requires i < |rs|
    ensures PendingRank(rs, i + 1) == PendingRank(rs, i) + (if rs[i].status == Pending then 1 else 0)
  {
    SelectSnoc(rs, i, IsPending);
  }

  /** Ranks never decrease along the list. */
  lemma {:induction false} RankMonotone(rs: seq<Request>, i: nat, j: nat)
    requires i <= j <= |rs|
    ensures PendingRank(rs, i) <= PendingRank(rs, j)
    ensures i < j && rs[i].status == Pending ==> PendingRank(rs, i) < PendingRank(rs, j)
    decreases j - i
  {
    if i < j {
      RankMonotone(rs, i + 1, j);
      RankStep(rs, i);
    }
  }

  /**
   * Queue positions run 1..k without repeats: pending requests get
   * increasing positions in list order, each at most the number k of pending
   * requests, and the pending list holds each pending request at its rank
   * (`RankReached` shows that every position is taken).
   */
  lemma {:induction false} QueuePositions(rs: seq<Request>)
    ensures PendingRank(rs, |rs|) == |Select(rs, IsPending)|
    ensures forall i, j :: 0 <= i < j < |rs| && rs[i].status == Pending && rs[j].status == Pending ==>
      PendingRank(rs, i) + 1 < PendingRank(rs, j) + 1
    ensures forall i :: 0 <= i < |rs| && rs[i].status == Pending ==> 1 <= PendingRank(rs, i) + 1 <= PendingRank(rs, |rs|)
    ensures forall i :: 0 <= i < |rs| && rs[i].status == Pending ==> Select(rs, IsPending)[PendingRank(rs, i)] == rs[i]
  {
    assert rs[..|rs|] == rs;
    forall i, j | 0 <= i < j < |rs| && rs[i].status == Pending && rs[j].status == Pending
      ensures PendingRank(rs, i) + 1 < PendingRank(rs, j) + 1
    {
      RankMonotone(rs, i, j);
    }
    forall i | 0 <= i < |rs| && rs[i].status == Pending
      ensures 1 <= PendingRank(rs, i) + 1 <= PendingRank(rs, |rs|)
      ensures Select(rs, IsPending)[PendingRank(rs, i)] == rs[i]
    {
      RankMonotone(rs, i, |rs|);
      SelectAtRank(rs, i);
    }
  }

  /** Every rank below the rank at `n` is held by some pending request before `n`. */
  lemma {:induction false} RankReached(rs: seq<Request>, q: nat, n: nat) returns (i: nat)
    requires n <= |rs| && q < PendingRank(rs, n)
    ensures i < n && rs[i].status == Pending && PendingRank(rs, i) == q
    decreases n
  {
    RankStep(rs, n - 1);
    if q < PendingRank(rs, n - 1) {
      i := RankReached(rs, q, n - 1);
    } else {
      i := n - 1;
    }
  }

  /** Summing one more remaining time. */
  lemma SumRemainingSnoc(est: Estimation.Buckets, rs: seq<Request>, i: nat, now: real)
    requires Estimation.NoEmptyBucket(est) && i < |rs|
    ensures SumRemaining(est, rs[..i + 1], now) == SumRemaining(est, rs[..i], now) + RemainingTime(est, rs[i], now)
  {
    assert rs[..i + 1][..i] == rs[..i];
  }

  /** Summing the remaining times of a list split in two. */
  lemma {:induction false} SumRemainingAppend(est: Estimation.Buckets, a: seq<Request>, b: seq<Request>, now: real)
    requires Estimation.NoEmptyBucket(est)
    ensures SumRemaining(est, a + b, now) == SumRemaining(est, a, now) + SumRemaining(est, b, now)
    decreases |b|
  {
    if |b| == 0 {
      assert a + b == a;
    } else {
      var b' := b[..|b| - 1];
      assert (a + b)[..|a + b| - 1] == a + b';
      SumRemainingAppend(est, a, b', now);
    }
  }

  /** The remaining time summed over a selection, one request at a time from the end. */
  lemma SumSelectSnoc(est: Estimation.Buckets, rs: seq<Request>, p: Status -> bool, now: real)
    requires Estimation.NoEmptyBucket(est) && |rs| > 0
    ensures SumRemaining(est, Select(rs, p), now)
         == SumRemaining(est, Select(rs[..|rs| - 1], p), now) + (if p(rs[|rs| - 1].status) then RemainingTime(est, rs[|rs| - 1], now) else 0.0)
  {
    var init := Select(rs[..|rs| - 1], p);
    var last := rs[|rs| - 1];
    if p(last.status) {
      assert Select(rs, p) == init + [last];
      assert (init + [last])[..|init|] == init;
    } else {
      assert Select(rs, p) == init;
    }
  }

  /**
   * The two loops of the queue estimate add up the remaining time of every
   * active request exactly once: pending and in-progress are disjoint, and
   * finished requests count for nothing.
   */
  lemma {:induction false} QueueTotalIsActiveSum(est: Estimation.Buckets, rs: seq<Request>, now: real)
    requires Estimation.NoEmptyBucket(est)
    ensures QueueTotal(est, rs, now) == SumRemaining(est, Select(rs, Active), now)
    decreases |rs|
  {
    if |rs| > 0 {
      var init := rs[..|rs| - 1];
      QueueTotalIsActiveSum(est, init, now);
      SumSelectSnoc(est, rs, IsPending, now);
      SumSelectSnoc(est, rs, InProgress, now);
      SumSelectSnoc(est, rs, Active, now);
    }
  }

  /** A finished request added to the table does not change the queue estimate. */
  lemma FinishedNotCounted(est: Estimation.Buckets, rs: seq<Request>, r: Request, now: real)
    requires Estimation.NoEmptyBucket(est) && (r.status == Completed || r.status == Failed)
    ensures QueueTotal(est, rs + [r], now) == QueueTotal(est, rs, now)
  {
    assert (rs + [r])[..|rs + [r]| - 1] == rs;
    SumSelectSnoc(est, rs + [r], IsPending, now);
    SumSelectSnoc(est, rs + [r], InProgress, now);
  }

  /** In progress, a request's remaining time is never below -1. */
  lemma RemainingAtLeastMinusOne(est: Estimation.Buckets, r: Request, now: real)
    requires Estimation.NoEmptyBucket(est) && r.status != Pending
    ensures RemainingTime(est, r, now) >= -1.0
  {
  }

  /** Once a COMPLETED request has been polled and removed, polling its id again finds nothing. */
  lemma RemovedNotFound(rs: seq<Request>, i: nat)
    requires UniqueIds(rs) && i < |rs|
    ensures IndexOf(rs[..i] + rs[i + 1..], rs[i].id).None?
  {
    var after := rs[..i] + rs[i + 1..];
    forall j | 0 <= j < |after|
      ensures after[j].id != rs[i].id
    {
      assert after[j] == rs[if j < i then j else j + 1];
    }
  }

  /** Removing one request keeps the ids unique. */
  lemma UniqueAfterRemoval(rs: seq<Request>, i: nat)
    requires UniqueIds(rs) && i < |rs|
    ensures UniqueIds(rs[..i] + rs[i + 1..])
  {
    var after := rs[..i] + rs[i + 1..];
    forall a, b | 0 <= a < b < |after|
      ensures after[a].id != after[b].id
    {
      assert after[a] == rs[if a < i then a else a + 1];
      assert after[b] == rs[if b < i then b else b + 1];
    }
  }

  /** Replacing a request by one with the same id keeps the ids unique. */
  lemma UniqueAfterUpdate(rs: seq<Request>, i: nat, u: Request)
    requires UniqueIds(rs) && i < |rs| && u.id == rs[i].id
    ensures UniqueIds(rs[i := u])
  {
    assert forall a :: 0 <= a < |rs| ==> rs[i := u][a].id == rs[a].id;
  }

  /** Appending a request whose id no request holds keeps the ids unique. */
  lemma UniqueAfterAppend(rs: seq<Request>, u: Request)
    requires UniqueIds(rs) && IndexOf(rs, u.id).None?
    ensures UniqueIds(rs + [u])
  {
    forall a, b | 0 <= a < b < |rs + [u]|
      ensures (rs + [u])[a].id != (rs + [u])[b].id
    {
      assert (rs + [u])[a] == rs[a];
    }
  }
}
