/**
 * Cursor pagination: fetch a first page, then follow `metadata.next` until
 * it is absent. `Walk` is the reference definition of the pages one such
 * loop fetches; the loops in `Tempo` are proved against it.
 */
module Paging {
  import opened Outcomes
  import opened Transport

  datatype Page<+T> = Page(results: seq<T>, metadata: Metadata)

  /** A continuation request: same verb and payload, the parsed cursor as endpoint. */
  function Follow(req: Request, next: string): Request {
    req.(endpoint := next)
  }

  /** Puts the pages already fetched in front of the outcome of the rest of the walk. */
  function PrependAll<T>(pages: seq<Page<T>>, rest: Outcome<seq<Page<T>>>): Outcome<seq<Page<T>>> {
    match rest
    case Done(more) => Done(pages + more)
    case Raised(e) => Raised(e)
  }

  /**
   * The pages a cursor loop fetches when its first request is `req`, answered
   * by `replies[k]`: stop after a page without a parsed `next`, raise as soon
   * as a call raises.
   */
  function Walk<T>(req: Request, replies: seq<Request -> Reply<Page<T>>>, k: nat): Outcome<seq<Page<T>>>
    decreases |replies| - k
  {
    match CheckedCall(req, replies, k)
    case Raised(e) => Raised(e)
    case Done(page) =>
      match ParseNext(page.metadata)
      case None => Done([page])
      case Some(next) => PrependAll([page], Walk(Follow(req, next), replies, k + 1))
  }

  /** The i-th request of a walk that fetched `pages`: the first request, then the parsed cursor of the page before. */
  function RequestAt<T>(first: Request, pages: seq<Page<T>>, i: nat): Request
    requires i <= |pages|
  {
    if i == 0 then first else Follow(first, Cursor(pages[i - 1]))
  }

  /** The parsed `next` of a page that has one. */
  function Cursor<T>(page: Page<T>): string {
    match ParseNext(page.metadata)
    case Some(next) => next
    case None => ""
  }

  /**
   * `pages` is what a walk fetches: request i is answered by page i, every page
   * but the last has a `next`, and the last has none.
   */
  ghost predicate IsWalk<T>(first: Request, replies: seq<Request -> Reply<Page<T>>>, k: nat, pages: seq<Page<T>>) {
    && |pages| >= 1
    && (forall i :: 0 <= i < |pages| ==> Answered(first, replies, k, pages, i))
    && (forall i :: 0 <= i < |pages| - 1 ==> ParseNext(pages[i].metadata).Some?)
    && ParseNext(pages[|pages| - 1].metadata).None?
  }

  /** Request i of the walk, sent as the (k + i)-th call, is answered by page i. */
  ghost predicate Answered<T>(first: Request, replies: seq<Request -> Reply<Page<T>>>, k: nat, pages: seq<Page<T>>, i: nat)
    requires i < |pages|
  {
    CheckedCall(RequestAt(first, pages, i), replies, k + i) == Done(pages[i])
  }

  /**
   * A walk ends with `pages` exactly when `pages` is the chain of answers to the
   * requests the loop sends: one further request per page that has a `next`,
   * with the parsed cursor as endpoint and the same payload.
   */
  lemma {:induction false} WalkIff<T>(first: Request, replies: seq<Request -> Reply<Page<T>>>, k: nat, pages: seq<Page<T>>)
    ensures Walk(first, replies, k) == Done(pages) <==> IsWalk(first, replies, k, pages)
    decreases |replies| - k
  {
    IsWalkHead(first, replies, k, pages);
    match CheckedCall(first, replies, k)
    case Raised(e) =>
    case Done(page) =>
      WalkUnfold(first, replies, k, page);
      if |pages| >= 1 && pages[0] == page {
        match ParseNext(page.metadata)
        case None =>
          if |pages| == 1 {
            assert pages == [page];
            assert Answered(first, replies, k, pages, 0);
            assert IsWalk(first, replies, k, pages);
          } else {
            assert !IsWalk(first, replies, k, pages) by {
              assert ParseNext(pages[0].metadata).None?;
            }
          }
        case Some(next) =>
          var more := pages[1..];
          assert pages == [page] + more;
          WalkIff(Follow(first, next), replies, k + 1, more);
          IsWalkCons(first, replies, k, page, next, more);
      }
  }

  /** The first page of a chain answers the first request. */
  lemma IsWalkHead<T>(first: Request, replies: seq<Request -> Reply<Page<T>>>, k: nat, pages: seq<Page<T>>)
    ensures IsWalk(first, replies, k, pages) ==> CheckedCall(first, replies, k) == Done(pages[0])
  {
    if IsWalk(first, replies, k, pages) {
      assert Answered(first, replies, k, pages, 0);
    }
  }

  /** A chain that starts with a page that has a `next` is that page followed by the chain from the parsed cursor. */
  lemma IsWalkCons<T>(first: Request, replies: seq<Request -> Reply<Page<T>>>, k: nat, page: Page<T>, next: string, more: seq<Page<T>>)
    requires CheckedCall(first, replies, k) == Done(page)
    requires ParseNext(page.metadata) == Some(next)
    ensures IsWalk(Follow(first, next), replies, k + 1, more) <==> IsWalk(first, replies, k, [page] + more)
  {
    if IsWalk(Follow(first, next), replies, k + 1, more) {
      IsWalkConsIn(first, replies, k, page, next, more);
    }
    if IsWalk(first, replies, k, [page] + more) {
      IsWalkConsOut(first, replies, k, page, next, more);
    }
  }

  /** Page i + 1 of the longer chain answers exactly the request page i of the shorter one answers. */
  lemma AnsweredShift<T>(first: Request, replies: seq<Request -> Reply<Page<T>>>, k: nat, page: Page<T>, next: string,
                         more: seq<Page<T>>, i: nat)
    requires ParseNext(page.metadata) == Some(next)
    requires i < |more|
    ensures Answered(Follow(first, next), replies, k + 1, more, i) <==> Answered(first, replies, k, [page] + more, i + 1)
  {
  }

  /** The chain conditions on cursors hold for `[page] + more` exactly when they hold for `more`, given that `page` has a cursor. */
  lemma LinkedShift<T>(page: Page<T>, more: seq<Page<T>>)
    requires ParseNext(page.metadata).Some? && |more| >= 1
    ensures (forall i :: 0 <= i < |[page] + more| - 1 ==> ParseNext(([page] + more)[i].metadata).Some?)
        <==> (forall i :: 0 <= i < |more| - 1 ==> ParseNext(more[i].metadata).Some?)
    ensures ([page] + more)[|[page] + more| - 1] == more[|more| - 1]
  {
    var pages := [page] + more;
    if forall i :: 0 <= i < |more| - 1 ==> ParseNext(more[i].metadata).Some? {
      forall i | 0 <= i < |pages| - 1
        ensures ParseNext(pages[i].metadata).Some?
      {
        if i > 0 { assert pages[i] == more[i - 1]; }
      }
    }
    if forall i :: 0 <= i < |pages| - 1 ==> ParseNext(pages[i].metadata).Some? {
      forall i | 0 <= i < |more| - 1
        ensures ParseNext(more[i].metadata).Some?
      {
        assert more[i] == pages[i + 1];
      }
    }
  }

  lemma IsWalkConsIn<T>(first: Request, replies: seq<Request -> Reply<Page<T>>>, k: nat, page: Page<T>, next: string, more: seq<Page<T>>)
    requires CheckedCall(first, replies, k) == Done(page)
    requires ParseNext(page.metadata) == Some(next)
    requires IsWalk(Follow(first, next), replies, k + 1, more)
    ensures IsWalk(first, replies, k, [page] + more)
  {
    var pages := [page] + more;
    forall i | 0 <= i < |pages|
      ensures Answered(first, replies, k, pages, i)
    {
      if i > 0 {
        AnsweredShift(first, replies, k, page, next, more, i - 1);
      }
    }
    LinkedShift(page, more);
  }

  lemma IsWalkConsOut<T>(first: Request, replies: seq<Request -> Reply<Page<T>>>, k: nat, page: Page<T>, next: string, more: seq<Page<T>>)
    requires CheckedCall(first, replies, k) == Done(page)
    requires ParseNext(page.metadata) == Some(next)
    requires IsWalk(first, replies, k, [page] + more)
    ensures IsWalk(Follow(first, next), replies, k + 1, more)
  {
    var pages := [page] + more;
    var sub, k' := Follow(first, next), k + 1;
    assert ParseNext(pages[|pages| - 1].metadata).None?;
    assert ParseNext(pages[0].metadata).Some?;
    assert |more| >= 1;
    forall i | 0 <= i < |more|
      ensures Answered(sub, replies, k', more, i)
    {
      AnsweredShift(first, replies, k, page, next, more, i);
    }
    LinkedShift(page, more);
  }

  // The state of a cursor loop after fetching `pages`, with `next` the last parsed
  // cursor and k requests sent: the whole walk is `pages` followed by the rest.

  function Rest<T>(first: Request, next: Option<string>, replies: seq<Request -> Reply<Page<T>>>, k: nat): Outcome<seq<Page<T>>> {
    match next
    case None => Done([])
    case Some(n) => Walk(Follow(first, n), replies, k)
  }

  ghost predicate Walking<T>(first: Request, replies: seq<Request -> Reply<Page<T>>>, pages: seq<Page<T>>, next: Option<string>, k: nat) {
    && 1 <= k <= |replies|
    && Walk(first, replies, 0) == PrependAll(pages, Rest(first, next, replies, k))
  }

  /** One step of a walk whose call succeeded: that page, then the rest. */
  lemma WalkUnfold<T>(req: Request, replies: seq<Request -> Reply<Page<T>>>, k: nat, page: Page<T>)
    requires CheckedCall(req, replies, k) == Done(page)
    ensures Walk(req, replies, k) == PrependAll([page], Rest(req, ParseNext(page.metadata), replies, k + 1))
  {
    if ParseNext(page.metadata).None? {
      assert [page] + [] == [page];
    }
  }

  lemma PrependAllAssoc<T>(a: seq<Page<T>>, b: seq<Page<T>>, rest: Outcome<seq<Page<T>>>)
    ensures PrependAll(a, PrependAll(b, rest)) == PrependAll(a + b, rest)
  {
    match rest
    case Done(more) => assert a + (b + more) == a + b + more;
    case Raised(e) =>
  }

  lemma RestFollow<T>(first: Request, cursor: string, next: Option<string>, replies: seq<Request -> Reply<Page<T>>>, k: nat)
    ensures Rest(Follow(first, cursor), next, replies, k) == Rest(first, next, replies, k)
  {
  }

  lemma WalkingStart<T>(first: Request, replies: seq<Request -> Reply<Page<T>>>, page: Page<T>)
    requires CheckedCall(first, replies, 0) == Done(page)
    ensures Walking(first, replies, [page], ParseNext(page.metadata), 1)
  {
    WalkUnfold(first, replies, 0, page);
  }

  lemma WalkingAdvance<T>(first: Request, replies: seq<Request -> Reply<Page<T>>>, pages: seq<Page<T>>, next: Option<string>, k: nat,
                          page: Page<T>)
    requires Walking(first, replies, pages, next, k) && next.Some?
    requires CheckedCall(Follow(first, next.value), replies, k) == Done(page)
    ensures Walking(first, replies, pages + [page], ParseNext(page.metadata), k + 1)
  {
    var req := Follow(first, next.value);
    WalkUnfold(req, replies, k, page);
    RestFollow(first, next.value, ParseNext(page.metadata), replies, k + 1);
    PrependAllAssoc(pages, [page], Rest(first, ParseNext(page.metadata), replies, k + 1));
  }

  lemma WalkingRaised<T>(first: Request, replies: seq<Request -> Reply<Page<T>>>, pages: seq<Page<T>>, next: Option<string>, k: nat,
                         e: Error)
    requires Walking(first, replies, pages, next, k) && next.Some?
    requires CheckedCall(Follow(first, next.value), replies, k) == Raised(e)
    ensures Walk(first, replies, 0) == Raised(e)
  {
  }

  lemma WalkingFinished<T>(first: Request, replies: seq<Request -> Reply<Page<T>>>, pages: seq<Page<T>>, next: Option<string>, k: nat)
    requires Walking(first, replies, pages, next, k) && next.None?
    ensures Walk(first, replies, 0) == Done(pages)
  {
    assert pages + [] == pages;
  }

  /** The results of all pages, in page order. */
  function Flatten<T>(pages: seq<Page<T>>): seq<T> {
    if pages == [] then [] else Flatten(pages[..|pages| - 1]) + pages[|pages| - 1].results
  }

  /** Every result of every page, each passed through `f`, in page order. */
  function FlatMap<T, R>(pages: seq<Page<T>>, f: T -> R): seq<R> {
    if pages == [] then [] else FlatMap(pages[..|pages| - 1], f) + MapAll(pages[|pages| - 1].results, f)
  }

  function MapAll<T, R>(s: seq<T>, f: T -> R): (r: seq<R>)
    ensures |r| == |s| && forall i :: 0 <= i < |s| ==> r[i] == f(s[i])
  {
    seq(|s|, i requires 0 <= i < |s| => f(s[i]))
  }

  /** The results of a walk's pages, or the exception it raised. */
  function Collect<T>(walk: Outcome<seq<Page<T>>>): Outcome<seq<T>> {
    match walk
    case Done(pages) => Done(Flatten(pages))
    case Raised(e) => Raised(e)
  }

  /** The total number of results on `pages`. */
  function Count<T>(pages: seq<Page<T>>): nat {
    if pages == [] then 0 else Count(pages[..|pages| - 1]) + |pages[|pages| - 1].results|
  }

  /** Flattening splits at any page boundary: the results of earlier pages come first. */
  lemma {:induction false} FlattenAppend<T>(a: seq<Page<T>>, b: seq<Page<T>>)
    ensures Flatten(a + b) == Flatten(a) + Flatten(b)
    decreases |b|
  {
    if b == [] {
      assert a + b == a;
    } else {
      var n := |b| - 1;
      assert (a + b)[..|a + b| - 1] == a + b[..n];
      FlattenAppend(a, b[..n]);
    }
  }

  /** The results of two runs of pages number the sum of their counts. */
  lemma CountAppend<T>(a: seq<Page<T>>, b: seq<Page<T>>)
    ensures |Flatten(a + b)| == Count(a + b) == Count(a) + Count(b)
  {
    FlattenAppend(a, b);
    FlattenCount(a);
    FlattenCount(b);
    FlattenCount(a + b);
  }

  lemma {:induction false} FlattenCount<T>(pages: seq<Page<T>>)
    ensures |Flatten(pages)| == Count(pages)
    decreases |pages|
  {
    if pages != [] {
      FlattenCount(pages[..|pages| - 1]);
    }
  }

  /** Mapping while flattening is mapping the flattened results: one mapped item per result, in page order. */
  lemma {:induction false} FlatMapIsMap<T, R>(pages: seq<Page<T>>, f: T -> R)
    ensures FlatMap(pages, f) == MapAll(Flatten(pages), f)
    decreases |pages|
  {
    if pages != [] {
      var init := pages[..|pages| - 1];
      FlatMapIsMap(init, f);
      var last := pages[|pages| - 1].results;
      assert Flatten(pages) == Flatten(init) + last;
      assert MapAll(Flatten(init) + last, f) == MapAll(Flatten(init), f) + MapAll(last, f);
    }
  }

  /** The results of a walk's pages, each passed through `f`, or the exception it raised. */
  function CollectMap<T, R>(walk: Outcome<seq<Page<T>>>, f: T -> R): Outcome<seq<R>> {
    match walk
    case Done(pages) => Done(FlatMap(pages, f))
    case Raised(e) => Raised(e)
  }

  /** One more page appends its results. */
  lemma FlattenSnoc<T>(pages: seq<Page<T>>, page: Page<T>)
    ensures Flatten(pages + [page]) == Flatten(pages) + page.results
  {
  }

  /** One more page appends its mapped results. */
  lemma FlatMapSnoc<T, R>(pages: seq<Page<T>>, page: Page<T>, f: T -> R)
    ensures FlatMap(pages + [page], f) == FlatMap(pages, f) + MapAll(page.results, f)
  {
  }

  /** Without a mapper the results pass through unchanged: mapping by the identity is collecting. */
  lemma CollectMapIdentity<T>(walk: Outcome<seq<Page<T>>>)
    ensures CollectMap(walk, (x: T) => x) == Collect(walk)
  {
    if walk.Done? {
      var id := (x: T) => x;
      FlatMapIsMap(walk.value, id);
      assert MapAll(Flatten(walk.value), id) == Flatten(walk.value);
    }
  }
}
