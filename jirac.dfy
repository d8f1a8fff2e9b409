/**
 * The Jira client (`jirac.py`): `worklog_ids`, which pages through
 * GET /rest/api/3/worklog/updated by sending each page's `until` as the next
 * `since`. The reply to the k-th request, sent with `since` = s, is
 * `replies[k](s)`.
 */
module Jira {
  import opened Outcomes
  import opened Transport

  /** One entry of a page's `values`. */
  datatype UpdatedWorklog = UpdatedWorklog(worklogId: int)

  /** A decoded page: `values`, `until` (ms), `lastPage`. */
  datatype UpdatedPage = UpdatedPage(values: seq<UpdatedWorklog>, until: int, lastPage: bool)

  /** A response: its status code and its decoded body. */
  datatype JiraReply = JiraReply(status: int, body: UpdatedPage)

  /** `[wl['worklogId'] for wl in data['values']]` */
  function PageIds(page: UpdatedPage): (ids: seq<int>)
    ensures |ids| == |page.values| && forall i :: 0 <= i < |ids| ==> ids[i] == page.values[i].worklogId
  {
    seq(|page.values|, i requires 0 <= i < |page.values| => page.values[i].worklogId)
  }

  /** `stop = limit_reached or bool(data['lastPage'])` after a page. */
  predicate Stops(page: UpdatedPage, until: Option<int>) {
    page.lastPage || (until.Some? && page.until > until.value)
  }

  /** Without a watermark only `lastPage` ends the loop. */
  lemma StopsWithoutWatermark(page: UpdatedPage)
    ensures Stops(page, None) <==> page.lastPage
  {
  }

  /** `ids` in front of the outcome of the rest of the loop. */
  function Prepend(ids: seq<int>, rest: Outcome<seq<int>>): Outcome<seq<int>> {
    match rest
    case Done(more) => Done(ids + more)
    case Raised(e) => Raised(e)
  }

  /**
   * The ids the loop still collects once `data` is the last successful page
   * and k requests have been sent: none if `data` stops it; otherwise it asks
   * again with `since` = `data.until`, ignores a non-2xx answer, and carries
   * on from a 2xx one.
   */
  function Continue(data: UpdatedPage, until: Option<int>, replies: seq<int -> JiraReply>, k: nat): Outcome<seq<int>>
    decreases |replies| - k
  {
    if Stops(data, until) then Done([])
    else if k >= |replies| then Raised(RepliesExhausted)
    else
      var resp := replies[k](data.until);
      if !IsSuccess(resp.status) then Continue(data, until, replies, k + 1)
      else Prepend(PageIds(resp.body), Continue(resp.body, until, replies, k + 1))
  }

  /** `worklog_ids(since, until)`: None when the first answer is not 2xx, else the ids of every successful page. */
  function UpdatedWorklogIds(since: int, until: Option<int>, replies: seq<int -> JiraReply>): Outcome<Option<seq<int>>> {
    if |replies| == 0 then Raised(RepliesExhausted)
    else if !IsSuccess(replies[0](since).status) then Done(None)
    else
      var data := replies[0](since).body;
      match Prepend(PageIds(data), Continue(data, until, replies, 1))
      case Raised(e) => Raised(e)
      case Done(ids) => Done(Some(ids))
  }

  /** `worklog_ids(since, until)` as the loop the source runs. */
  method WorklogIds(since: int, until: Option<int>, replies: seq<int -> JiraReply>) returns (r: Outcome<Option<seq<int>>>)
    ensures r == UpdatedWorklogIds(since, until, replies)
  {
    if |replies| == 0 {
      return Raised(RepliesExhausted);
    }
    var resp := replies[0](since);
    if resp.status < 200 || resp.status >= 300 {
      return Done(None);
    }
    var data := resp.body;
    var result := PageIds(data);
    var limitReached := until.Some? && data.until > until.value;
    var stop := limitReached || data.lastPage;
    var k := 1;
    while !stop
      invariant 1 <= k <= |replies|
      invariant stop == Stops(data, until)
      invariant UpdatedWorklogIds(since, until, replies)
             == match Prepend(result, Continue(data, until, replies, k))
                case Raised(e) => Raised(e)
                case Done(ids) => Done(Some(ids))
      decreases |replies| - k
    {
      if k >= |replies| {
        return Raised(RepliesExhausted);
      }
      resp := replies[k](data.until);
      k := k + 1;
      if resp.status < 200 || resp.status >= 300 {
        continue;
      }
      PrependAssoc(result, PageIds(resp.body), Continue(resp.body, until, replies, k));
      data := resp.body;
      result := result + PageIds(data);
      limitReached := until.Some? && data.until > until.value;
      stop := limitReached || data.lastPage;
    }
    assert result + [] == result;
    return Done(Some(result));
  }

  lemma PrependAssoc(a: seq<int>, b: seq<int>, rest: Outcome<seq<int>>)
    ensures Prepend(a, Prepend(b, rest)) == Prepend(a + b, rest)
  {
    match rest
    case Done(more) => assert a + (b + more) == a + b + more;
    case Raised(e) =>
  }

  /** The first request, from k on, that a 2xx answer meets when sent with `since`. */
  function FirstSuccess(since: int, replies: seq<int -> JiraReply>, k: nat): (j: Option<nat>)
    decreases |replies| - k
    ensures j.Some? ==>
      && k <= j.value < |replies|
      && IsSuccess(replies[j.value](since).status)
      && forall m :: k <= m < j.value ==> !IsSuccess(replies[m](since).status)
    ensures j.None? ==> forall m :: k <= m < |replies| ==> !IsSuccess(replies[m](since).status)
  {
    if k >= |replies| then None
    else if IsSuccess(replies[k](since).status) then Some(k)
    else FirstSuccess(since, replies, k + 1)
  }

  /**
   * After a page that does not stop the loop, failed requests are re-sent
   * with the same `since` (that page's `until`) and add nothing; the first
   * 2xx answer is the next page. If none comes, the loop never ends: here the
   * replies run out.
   */
  lemma {:induction false} ContinueSkipsFailures(data: UpdatedPage, until: Option<int>, replies: seq<int -> JiraReply>, k: nat)
    requires !Stops(data, until)
    ensures Continue(data, until, replies, k) ==
      match FirstSuccess(data.until, replies, k)
      case None => Raised(RepliesExhausted)
      case Some(j) =>
        Prepend(PageIds(replies[j](data.until).body), Continue(replies[j](data.until).body, until, replies, j + 1))
    decreases |replies| - k
  {
    if k < |replies| && !IsSuccess(replies[k](data.until).status) {
      ContinueSkipsFailures(data, until, replies, k + 1);
    }
  }

  /**
   * The result is None exactly when the first answer is not 2xx; later
   * failures never make it None.
   */
  lemma UpdatedWorklogIdsNone(since: int, until: Option<int>, replies: seq<int -> JiraReply>)
    ensures UpdatedWorklogIds(since, until, replies) == Done(None) <==>
      |replies| > 0 && !IsSuccess(replies[0](since).status)
  {
  }

  /**
   * A first page that stops the loop is the whole answer: no further
   * request, and its ids in order.
   */
  lemma UpdatedWorklogIdsSinglePage(since: int, until: Option<int>, replies: seq<int -> JiraReply>)
    requires |replies| > 0 && IsSuccess(replies[0](since).status)
    requires Stops(replies[0](since).body, until)
    ensures UpdatedWorklogIds(since, until, replies) == Done(Some(PageIds(replies[0](since).body)))
  {
    assert PageIds(replies[0](since).body) + [] == PageIds(replies[0](since).body);
  }
}
