/** Reading a contract's event log through a paged RPC.

    The log is append-only and kept as it will finally be; a server that answers while the
    log still grows returns stretches of that final log.  Which stretch, and what its cursor
    means, is all that is assumed of a server. */
module EventPaging {
  import opened Wrappers

  /** Event ids and paging cursors share one format: a TOID (ledger, transaction, operation packed
      into one number) and the event's index below it. */
  datatype Cursor = Cursor(toid: nat, index: nat)

  const LEDGER_SHIFT := 0x1_0000_0000

  /** `toid >> 32` */
  function LedgerOf(c: Cursor): nat
  {
    c.toid / LEDGER_SHIFT
  }

  predicate Before(a: Cursor, b: Cursor)
  {
    a.toid < b.toid || (a.toid == b.toid && a.index < b.index)
  }

  datatype Event<+T> = Event(id: Cursor, closedAt: nat, txHash: int, payload: T) {
    function Ledger(): nat
    {
      LedgerOf(id)
    }
  }

  datatype Request = FromLedger(startLedger: nat) | FromCursor(cursor: Cursor)

  /** An error may name the oldest ledger the server still retains. */
  datatype Response<+T> =
    | RpcError(oldestRetained: Option<nat>)
    | Page(events: seq<Event<T>>, cursor: Option<Cursor>, latestLedger: nat)

  /** A server, for the length of one sync: its answer to the n-th request. */
  type Rpc<!T> = (nat, Request) -> Response<T>

  datatype SyncError = EventsFailed | PaginationFailed | PageBudgetExceeded

  const AGE_OUT_ATTEMPTS := 6
  const AGE_OUT_MARGIN := 16
  const PAGE_BUDGET := 1024

  predicate Drained<T>(page: Response<T>, latest: nat)
    requires page.Page?
  {
    page.cursor.None? || LedgerOf(page.cursor.value) >= latest
  }

  datatype Opening<+T> = Opening(askedFrom: nat, requests: nat, response: Response<T>)

  /** The first page: on an age-out error, ask again from a margin above the oldest retained ledger. */
  function OpenFrom<T>(rpc: Rpc<T>, start: nat, attempt: nat): Opening<T>
    requires attempt <= AGE_OUT_ATTEMPTS
    decreases AGE_OUT_ATTEMPTS - attempt, start
  {
    var response := rpc(attempt, FromLedger(start));
    if response.RpcError? && response.oldestRetained.Some? && attempt < AGE_OUT_ATTEMPTS then
      OpenFrom(rpc, response.oldestRetained.value + AGE_OUT_MARGIN, attempt + 1)
    else
      Opening(start, attempt + 1, response)
  }

  /** What paging on from `page` gathers, on top of `all`. */
  function Drain<T>(rpc: Rpc<T>, requests: nat, page: Response<T>, latest: nat, budget: nat, all: seq<Event<T>>)
    : Result<seq<Event<T>>, SyncError>
    requires page.Page?
    decreases budget, all
  {
    if Drained(page, latest) then Success(all)
    else if budget == 0 then Failure(PageBudgetExceeded)
    else
      var next := rpc(requests, FromCursor(page.cursor.value));
      if next.RpcError? then Failure(PaginationFailed)
      else Drain(rpc, requests + 1, next, latest, budget - 1, all + next.events)
  }

  function DrainOpening<T>(rpc: Rpc<T>, opening: Opening<T>): Result<seq<Event<T>>, SyncError>
    requires opening.response.Page?
  {
    Drain(rpc, opening.requests, opening.response, opening.response.latestLedger, PAGE_BUDGET, opening.response.events)
  }

  function Collected<T>(rpc: Rpc<T>, start: nat): Result<seq<Event<T>>, SyncError>
  {
    var opening := OpenFrom(rpc, start, 0);
    if opening.response.RpcError? then Failure(EventsFailed)
    else DrainOpening(rpc, opening)
  }

  /** The ledger that request `k` for a first page asks from: the one wanted at first, and after an age-out
      error a margin above the oldest ledger it named. */
  function AskedFrom<T>(rpc: Rpc<T>, start: nat, k: nat): nat
    decreases k
  {
    if k == 0 then start
    else
      var before := AskedFrom(rpc, start, k - 1);
      var answer := rpc(k - 1, FromLedger(before));
      if AgedOut(answer) then answer.oldestRetained.value + AGE_OUT_MARGIN else before
  }

  /** The answer to request `k`. */
  function FirstAnswer<T>(rpc: Rpc<T>, start: nat, k: nat): Response<T>
  {
    rpc(k, FromLedger(AskedFrom(rpc, start, k)))
  }

  /** Request `k` is the last: all before it aged out, and it did not, or the attempts are used up. */
  ghost predicate LastAsked<T>(rpc: Rpc<T>, start: nat, k: nat)
  {
    && k <= AGE_OUT_ATTEMPTS && (k < AGE_OUT_ATTEMPTS ==> !AgedOut(FirstAnswer(rpc, start, k)))
    && forall j: nat {:trigger FirstAnswer(rpc, start, j)} :: j < k ==> AgedOut(FirstAnswer(rpc, start, j))
  }

  /** What is taken for the first page is the answer to that request, and no other. */
  lemma {:induction false} OpensWithLast<T>(rpc: Rpc<T>, start: nat, k: nat)
    requires LastAsked(rpc, start, k)
    ensures OpenFrom(rpc, start, 0) == Opening(AskedFrom(rpc, start, k), k + 1, FirstAnswer(rpc, start, k))
  {
    OpensFrom(rpc, start, 0, k);
  }

  lemma {:induction false} OpensFrom<T>(rpc: Rpc<T>, start: nat, attempt: nat, k: nat)
    requires attempt <= k && LastAsked(rpc, start, k)
    ensures OpenFrom(rpc, AskedFrom(rpc, start, attempt), attempt)
            == Opening(AskedFrom(rpc, start, k), k + 1, FirstAnswer(rpc, start, k))
    decreases k - attempt
  {
    if attempt == k {
    } else {
      assert AgedOut(FirstAnswer(rpc, start, attempt));
      OpensFrom(rpc, start, attempt + 1, k);
    }
  }

  /** Six times at most, each time from sixteen ledgers above the oldest one named. */
  lemma {:induction false} AsksAgain<T>(rpc: Rpc<T>, start: nat, k: nat)
    requires k < 6 && AgedOut(FirstAnswer(rpc, start, k))
    requires forall j: nat {:trigger FirstAnswer(rpc, start, j)} :: j <= k ==> AgedOut(FirstAnswer(rpc, start, j))
    ensures AskedFrom(rpc, start, k + 1) == FirstAnswer(rpc, start, k).oldestRetained.value + 16
    ensures OpenFrom(rpc, start, 0).requests > k + 1
    ensures k == 5 || !AgedOut(FirstAnswer(rpc, start, k + 1)) ==>
              OpenFrom(rpc, start, 0)
              == Opening(AskedFrom(rpc, start, k + 1), k + 2, FirstAnswer(rpc, start, k + 1))
  {
    OpenedAfter(rpc, start, 0, k);
    if k == 5 || !AgedOut(FirstAnswer(rpc, start, k + 1)) { OpensWithLast(rpc, start, k + 1); }
  }

  lemma {:induction false} OpenedAfter<T>(rpc: Rpc<T>, start: nat, attempt: nat, k: nat)
    requires attempt <= k < 6
    requires forall j: nat {:trigger FirstAnswer(rpc, start, j)} :: j <= k ==> AgedOut(FirstAnswer(rpc, start, j))
    ensures OpenFrom(rpc, AskedFrom(rpc, start, attempt), attempt).requests > k + 1
    decreases k - attempt
  {
    assert AgedOut(FirstAnswer(rpc, start, attempt));
    var next := AskedFrom(rpc, start, attempt + 1);
    if attempt == k {
      OpeningFacts(rpc, next, attempt + 1);
    } else {
      OpenedAfter(rpc, start, attempt + 1, k);
    }
  }

  method OpenEvents<T>(rpc: Rpc<T>, start: nat) returns (r: Opening<T>)
    ensures r == OpenFrom(rpc, start, 0)
    ensures r.requests > 0 && LastAsked(rpc, start, r.requests - 1)
    ensures r.askedFrom == AskedFrom(rpc, start, r.requests - 1)
    ensures r.response == FirstAnswer(rpc, start, r.requests - 1)
  {
    var json := rpc(0, FromLedger(start));
    var attempt: nat, asked: nat := 0, start;
    while attempt < AGE_OUT_ATTEMPTS && json.RpcError? && json.oldestRetained.Some?
      invariant attempt <= AGE_OUT_ATTEMPTS && json == rpc(attempt, FromLedger(asked))
      invariant OpenFrom(rpc, asked, attempt) == OpenFrom(rpc, start, 0)
      invariant asked == AskedFrom(rpc, start, attempt)
      invariant forall j: nat {:trigger FirstAnswer(rpc, start, j)} ::
                  j < attempt ==> AgedOut(FirstAnswer(rpc, start, j))
    {
      asked := json.oldestRetained.value + AGE_OUT_MARGIN;
      attempt := attempt + 1;
      json := rpc(attempt, FromLedger(asked));
    }
    r := Opening(asked, attempt + 1, json);
  }

  /** Collect all events from `start` on, page by page; an incomplete set is never returned as a success. */
  method CollectEvents<T>(rpc: Rpc<T>, start: nat) returns (r: Result<seq<Event<T>>, SyncError>)
    ensures r == Collected(rpc, start)
  {
    var opening := OpenEvents(rpc, start);
    if opening.response.RpcError? {
      return Failure(EventsFailed);
    }
    var all, page, latest := opening.response.events, opening.response, opening.response.latestLedger;
    var drained := Drained(page, latest);
    var guard := 0;
    while guard < PAGE_BUDGET && !drained
      invariant guard <= PAGE_BUDGET && page.Page? && drained == Drained(page, latest)
      invariant Collected(rpc, start) == Drain(rpc, opening.requests + guard, page, latest, PAGE_BUDGET - guard, all)
    {
      var next := rpc(opening.requests + guard, FromCursor(page.cursor.value));
      if next.RpcError? {
        return Failure(PaginationFailed);
      }
      page := next;
      all := all + page.events;
      drained := Drained(page, latest);
      guard := guard + 1;
    }
    r := if drained then Success(all) else Failure(PageBudgetExceeded);
  }

  // ----- page by page -----

  /** A page that reaches the ledger `latest` has no cursor, or one in that ledger or later. */
  predicate Reaches<T>(page: Response<T>, latest: nat)
  {
    page.Page? && (page.cursor.None? || page.cursor.value.toid / 0x1_0000_0000 >= latest)
  }

  /** Page `k` of a collection: the first answer, and then the answers to the cursors. */
  function PageAt<T>(rpc: Rpc<T>, first: Opening<T>, k: nat): Option<Response<T>>
    decreases k
  {
    if k == 0 then Some(first.response)
    else
      match PageAt(rpc, first, k - 1)
      case Some(Page(_, Some(cursor), _)) => Some(rpc(first.requests + k - 1, FromCursor(cursor)))
      case _ => None
  }

  /** All pages before page `k` have come, and none reaches the latest ledger. */
  ghost predicate PagesOn<T>(rpc: Rpc<T>, first: Opening<T>, k: nat)
    requires first.response.Page?
  {
    forall j: nat {:trigger PageAt(rpc, first, j)} :: j < k ==>
      match PageAt(rpc, first, j)
      case Some(page) => page.Page? && !Reaches(page, first.response.latestLedger)
      case None => false
  }

  /** The events of the first `k` pages. */
  function EventsBefore<T>(rpc: Rpc<T>, first: Opening<T>, k: nat): seq<Event<T>>
    decreases k
  {
    if k == 0 then []
    else
      match PageAt(rpc, first, k - 1)
      case Some(Page(events, _, _)) => EventsBefore(rpc, first, k - 1) + events
      case _ => EventsBefore(rpc, first, k - 1)
  }

  /** The first page that reaches the latest ledger ends a collection, with the events of all pages so far;
      so does an error, without any; and after 1024 pages behind the first there is no further request. */
  lemma {:induction false} CollectionEndsAt<T>(rpc: Rpc<T>, start: nat, k: nat)
    requires OpenFrom(rpc, start, 0).response.Page? && PagesOn(rpc, OpenFrom(rpc, start, 0), k)
    ensures var first := OpenFrom(rpc, start, 0);
            && PageAt(rpc, first, k).Some?
            && var page := PageAt(rpc, first, k).value;
               && (k <= 1024 && Reaches(page, first.response.latestLedger) ==>
                     Collected(rpc, start) == Success(EventsBefore(rpc, first, k + 1)))
               && (0 < k <= 1024 && page.RpcError? ==> Collected(rpc, start) == Failure(PaginationFailed))
               && (k == 1024 && page.Page? && !Reaches(page, first.response.latestLedger) ==>
                     Collected(rpc, start) == Failure(PageBudgetExceeded))
  {
    var first := OpenFrom(rpc, start, 0);
    var latest := first.response.latestLedger;
    if k > 0 {
      assert PageAt(rpc, first, k - 1).Some?;
    }
    var page := PageAt(rpc, first, k).value;
    if k <= 1024 {
      DrainsTo(rpc, start, k);
    }
  }

  /** After `k` pages the collection goes on from page `k`. */
  lemma {:induction false} DrainsTo<T>(rpc: Rpc<T>, start: nat, k: nat)
    requires OpenFrom(rpc, start, 0).response.Page? && PagesOn(rpc, OpenFrom(rpc, start, 0), k) && k <= 1024
    ensures var first := OpenFrom(rpc, start, 0);
            && PageAt(rpc, first, k).Some?
            && var page := PageAt(rpc, first, k).value;
               && (page.RpcError? ==> k > 0 && Collected(rpc, start) == Failure(PaginationFailed))
               && (page.Page? ==>
                     Collected(rpc, start) == Drain(rpc, first.requests + k, page, first.response.latestLedger,
                       1024 - k, EventsBefore(rpc, first, k + 1)))
    decreases k
  {
    var first := OpenFrom(rpc, start, 0);
    if k == 0 {
      assert EventsBefore(rpc, first, 1) == [] + first.response.events == first.response.events;
    } else {
      DrainsTo(rpc, start, k - 1);
      assert PageAt(rpc, first, k - 1).Some? && !Reaches(PageAt(rpc, first, k - 1).value, first.response.latestLedger);
    }
  }

  // ----- honest servers -----

  ghost predicate SortedLog<T>(log: seq<Event<T>>)
  {
    forall i, j :: 0 <= i < j < |log| ==> Before(log[i].id, log[j].id)
  }

  predicate InScope<T>(e: Event<T>, req: Request)
  {
    match req
    case FromLedger(start) => e.Ledger() >= start
    case FromCursor(c) => Before(c, e.id)
  }

  /** A page answers a request: it returns log[i..j], where everything in scope starts at i; a cursor
      separates what was returned from what was not, and a page without one left out only
      events of the latest ledger or later. */
  ghost predicate Answers<T>(log: seq<Event<T>>, req: Request, page: Response<T>, i: nat, j: nat)
    requires page.Page?
  {
    && i <= j <= |log| && page.events == log[i..j]
    && (forall k {:trigger log[k]} :: 0 <= k < |log| ==> (InScope(log[k], req) <==> k >= i))
    && match page.cursor
       case Some(c) => forall k {:trigger log[k]} :: 0 <= k < |log| ==> (Before(c, log[k].id) <==> k >= j)
       case None => ClosedFrom(log, j, page.latestLedger)
  }

  /** Nothing from position `j` on is older than `ledger`. */
  ghost predicate ClosedFrom<T>(log: seq<Event<T>>, j: nat, ledger: nat)
  {
    forall k {:trigger log[k]} :: j <= k < |log| ==> log[k].Ledger() >= ledger
  }

  ghost predicate HonestAnswer<T(!new)>(log: seq<Event<T>>, req: Request, response: Response<T>)
  {
    response.Page? ==> exists i: nat, j: nat :: Answers(log, req, response, i, j)
  }

  ghost predicate Honest<T(!new)>(log: seq<Event<T>>, rpc: Rpc<T>)
  {
    && (forall n: nat, req {:trigger rpc(n, req)} :: HonestAnswer(log, req, rpc(n, req)))
    && (forall m: nat, n: nat, a, b {:trigger rpc(m, a), rpc(n, b)} ::
          m <= n && rpc(m, a).Page? && rpc(n, b).Page? ==> rpc(m, a).latestLedger <= rpc(n, b).latestLedger)
  }

  /** `events` is log[i..j], where i is the first event of ledger `start` or later and everything
      below `latest` comes before j. */
  ghost predicate Fetches<T>(log: seq<Event<T>>, start: nat, latest: nat, events: seq<Event<T>>, i: nat, j: nat)
  {
    && i <= j <= |log| && events == log[i..j]
    && (forall k {:trigger log[k]} :: 0 <= k < |log| ==> (log[k].Ledger() >= start <==> k >= i))
    && ClosedFrom(log, j, latest)
  }

  /** A page on from a cursor continues exactly where the last one ended. */
  lemma {:induction false} NextPageContinues<T(!new)>(
      log: seq<Event<T>>, page: Response<T>, next: Response<T>, req: Request, i: nat, j: nat)
    returns (k: nat)
    requires page.Page? && page.cursor.Some? && Answers(log, req, page, i, j)
    requires next.Page? && HonestAnswer(log, FromCursor(page.cursor.value), next)
    ensures Answers(log, FromCursor(page.cursor.value), next, j, k)
  {
    var c := page.cursor.value;
    var i': nat, j': nat :| Answers(log, FromCursor(c), next, i', j');
    assert i' < |log| ==> (InScope(log[i'], FromCursor(c)) <==> i' >= j);
    assert j < |log| ==> (InScope(log[j], FromCursor(c)) <==> j >= i');
    k := j';
  }

  /** Paging to the end gathers one uninterrupted stretch of the log, complete below `latest`. */
  lemma {:induction false} DrainIsAStretch<T(!new)>(
      log: seq<Event<T>>, rpc: Rpc<T>, requests: nat, page: Response<T>, req: Request, latest: nat, budget: nat,
      all: seq<Event<T>>, i: nat, j: nat, from: nat)
    returns (end: nat)
    requires SortedLog(log) && Honest(log, rpc) && page.Page? && Answers(log, req, page, i, j)
    requires requests > 0 && rpc(requests - 1, req) == page && latest <= page.latestLedger
    requires from <= j && all == log[from..j] && Drain(rpc, requests, page, latest, budget, all).Success?
    ensures j <= end <= |log| && ClosedFrom(log, end, latest)
    ensures Drain(rpc, requests, page, latest, budget, all).value == log[from..end]
    decreases budget
  {
    if Drained(page, latest) {
      end := j;
    } else {
      var next := rpc(requests, FromCursor(page.cursor.value));
      var j' := NextPageContinues(log, page, next, req, i, j);
      assert log[from..j] + log[j..j'] == log[from..j'];
      assert rpc(requests - 1, req).latestLedger <= next.latestLedger;
      end := DrainIsAStretch(log, rpc, requests + 1, next, FromCursor(page.cursor.value), latest, budget - 1,
        all + next.events, j, j', from);
    }
  }

  /** The ledger the answer to a sync is complete below: the latest ledger of its first page. */
  function LatestSeen<T>(rpc: Rpc<T>, start: nat): (latest: nat)
    requires Collected(rpc, start).Success?
  {
    OpenFrom(rpc, start, 0).response.latestLedger
  }

  /** A successful collection is one uninterrupted stretch of the log: it starts at the first
      event of the ledger that was finally asked for and misses nothing below the latest ledger. */
  lemma {:induction false} CollectionIsComplete<T(!new)>(log: seq<Event<T>>, rpc: Rpc<T>, start: nat)
    returns (i: nat, j: nat)
    requires SortedLog(log) && Honest(log, rpc) && Collected(rpc, start).Success?
    ensures Fetches(log, OpenFrom(rpc, start, 0).askedFrom, LatestSeen(rpc, start), Collected(rpc, start).value, i, j)
  {
    var opening := OpenFrom(rpc, start, 0);
    OpeningFacts(rpc, start, 0);
    var req := FromLedger(opening.askedFrom);
    var first := rpc(opening.requests - 1, req);
    var i': nat, j': nat :| Answers(log, req, first, i', j');
    i := i';
    j := DrainIsAStretch(log, rpc, opening.requests, first, req, first.latestLedger, PAGE_BUDGET, first.events,
      i', j', i');
    forall k | 0 <= k < |log| ensures log[k].Ledger() >= opening.askedFrom <==> k >= i {
      assert InScope(log[k], req) <==> k >= i;
    }
  }

  lemma {:induction false} OpeningFacts<T>(rpc: Rpc<T>, start: nat, attempt: nat)
    requires attempt <= AGE_OUT_ATTEMPTS
    ensures var o := OpenFrom(rpc, start, attempt);
            && o.requests > attempt && o.response == rpc(o.requests - 1, FromLedger(o.askedFrom))
            && (!AgedOut(rpc(attempt, FromLedger(start))) ==> o.askedFrom == start && o.requests == attempt + 1)
    decreases AGE_OUT_ATTEMPTS - attempt
  {
    var response := rpc(attempt, FromLedger(start));
    if !AgedOut(response) || attempt == AGE_OUT_ATTEMPTS {
    } else {
      OpeningFacts(rpc, response.oldestRetained.value + AGE_OUT_MARGIN, attempt + 1);
    }
  }

  predicate AgedOut<T>(response: Response<T>)
  {
    response.RpcError? && response.oldestRetained.Some?
  }

  /** A server that never errs, and puts at least `size` events on every page that does not yet reach
      the latest ledger. */
  ghost predicate Progresses<T(!new)>(rpc: Rpc<T>, size: nat)
  {
    forall n: nat, req {:trigger rpc(n, req)} ::
      var page := rpc(n, req);
      page.Page? && (!Drained(page, page.latestLedger) ==> |page.events| >= size)
  }

  /** Against such a server a collection succeeds for every log with fewer events from the start
      ledger on than one page more than the budget can hold. */
  lemma {:induction false} CollectionSucceeds<T(!new)>(log: seq<Event<T>>, rpc: Rpc<T>, start: nat, size: nat, i: nat)
    requires SortedLog(log) && Honest(log, rpc) && Progresses(rpc, size)
    requires i <= |log| && forall k {:trigger log[k]} :: 0 <= k < |log| ==> (log[k].Ledger() >= start <==> k >= i)
    requires |log| - i < size * 1025
    ensures Collected(rpc, start).Success?
  {
    var req := FromLedger(start);
    var first := rpc(0, req);
    OpeningFacts(rpc, start, 0);
    var i': nat, j: nat :| Answers(log, req, first, i', j);
    assert i' < |log| ==> (InScope(log[i'], req) <==> i' >= i);
    assert i < |log| ==> (InScope(log[i], req) <==> i >= i');
    DrainSucceeds(log, rpc, 1, first, req, first.latestLedger, PAGE_BUDGET, first.events, i', j, size);
  }

  lemma {:induction false} DrainSucceeds<T(!new)>(
      log: seq<Event<T>>, rpc: Rpc<T>, requests: nat, page: Response<T>, req: Request, latest: nat, budget: nat,
      all: seq<Event<T>>, i: nat, j: nat, size: nat)
    requires SortedLog(log) && Honest(log, rpc) && Progresses(rpc, size)
    requires page.Page? && Answers(log, req, page, i, j) && |log| - i < size * (budget + 1)
    requires requests > 0 && rpc(requests - 1, req) == page && latest <= page.latestLedger
    ensures Drain(rpc, requests, page, latest, budget, all).Success?
    decreases budget
  {
    if Drained(page, latest) {
    } else {
      assert !Drained(page, page.latestLedger);
      assert |page.events| == j - i >= size;
      OnePageLess(size, budget);
      var next := rpc(requests, FromCursor(page.cursor.value));
      var j' := NextPageContinues(log, page, next, req, i, j);
      assert rpc(requests - 1, req).latestLedger <= next.latestLedger;
      DrainSucceeds(log, rpc, requests + 1, next, FromCursor(page.cursor.value), latest, budget - 1, all + next.events,
                    j, j', size);
    }
  }

  lemma {:induction false} OnePageLess(size: nat, budget: nat)
    ensures size * (budget + 1) == size * budget + size
    ensures budget == 0 ==> size * budget == 0
  {
  }

  // ----- resuming -----

  /** The server still has the whole log. */
  ghost predicate Retains<T(!new)>(rpc: Rpc<T>)
  {
    forall start {:trigger rpc(0, FromLedger(start))} :: !AgedOut(rpc(0, FromLedger(start)))
  }

  /** However a log goes on after `n` events, nothing that follows is older than the last of them. */
  lemma {:induction false} LaterIsNoOlder<T(!new)>(log: seq<Event<T>>, n: nat, s: nat)
    requires SortedLog(log) && 0 < n <= |log| && s <= log[n - 1].Ledger()
    ensures ClosedFrom(log, n, s)
  {
    forall k | n <= k < |log| ensures log[k].Ledger() >= s {
      assert Before(log[n - 1].id, log[k].id);
    }
  }

  /** The log may go on with one more event of the very ledger it has come to. */
  function NextInLedger<T>(last: Event<T>, payload: T): Event<T>
  {
    Event(Cursor(last.id.toid, last.id.index + 1), 0, 0, payload)
  }

  lemma {:induction false} LedgerMayGoOn<T(!new)>(log: seq<Event<T>>, n: nat, s: nat, payload: T)
    requires SortedLog(log) && 0 < n <= |log| && s > log[n - 1].Ledger()
    ensures var grown := log[..n] + [NextInLedger(log[n - 1], payload)];
            SortedLog(grown) && grown[n].Ledger() == log[n - 1].Ledger() && !ClosedFrom(grown, n, s)
  {
    var last := log[n - 1];
    var next := NextInLedger(last, payload);
    var grown := log[..n] + [next];
    forall k | 0 <= k < n ensures Before(grown[k].id, next.id) {
      assert k == n - 1 || Before(log[k].id, last.id);
    }
    assert grown[n] == next && next.Ledger() < s;
  }

  /** A server with one event a page, for a log of two events. */
  function OneAtATime<T>(first: Event<T>, second: Event<T>): Rpc<T>
  {
    (n: nat, req: Request) => OneEventPage(first, second, req)
  }

  function OneEventPage<T>(first: Event<T>, second: Event<T>, req: Request): Response<T>
  {
    if InScope(first, req) then Page([first], Some(first.id), first.Ledger())
    else if InScope(second, req) then Page([second], Some(second.id), first.Ledger())
    else Page([], None, first.Ledger())
  }

  lemma {:induction false} OneEventPageAnswers<T(!new)>(first: Event<T>, second: Event<T>, req: Request)
    requires Before(first.id, second.id) && first.Ledger() == second.Ledger()
    ensures HonestAnswer([first, second], req, OneEventPage(first, second, req))
  {
    var log := [first, second];
    var page := OneEventPage(first, second, req);
    if InScope(log[0], req) {
      assert Answers(log, req, page, 0, 1);
    } else if InScope(log[1], req) {
      assert Answers(log, req, page, 1, 2);
    } else {
      assert Answers(log, req, page, 2, 2);
    }
  }

  /** Two events of one ledger.  An honest server can end a collection between them, and whatever
      server answers next, resuming past that ledger never brings the second. */
  lemma {:induction false} ResumingPastTheCursorLosesEvents<T(!new)>(first: Event<T>, second: Event<T>)
    requires Before(first.id, second.id) && first.Ledger() == second.Ledger() >= 1
    ensures var log := [first, second]; var rpc := OneAtATime(first, second);
            && SortedLog(log) && Honest(log, rpc) && Retains(rpc) && Collected(rpc, 1) == Success([first])
    ensures forall later: Rpc<T> {:trigger Honest([first, second], later)} ::
              Honest([first, second], later) && Retains(later) ==>
                var resumed := Collected(later, first.Ledger() + 1);
                resumed.Success? ==> resumed.value == []
  {
    var log, rpc := [first, second], OneAtATime(first, second);
    forall n: nat, req ensures HonestAnswer(log, req, rpc(n, req)) {
      OneEventPageAnswers(first, second, req);
    }
    assert Drained(OneEventPage(first, second, FromLedger(1)), first.Ledger());
    forall later: Rpc<T> | Honest(log, later) && Retains(later) && Collected(later, first.Ledger() + 1).Success?
      ensures Collected(later, first.Ledger() + 1).value == []
    {
      assert !AgedOut(later(0, FromLedger(first.Ledger() + 1)));
      OpeningFacts(later, first.Ledger() + 1, 0);
      var i, j := CollectionIsComplete(log, later, first.Ledger() + 1);
      assert log[0].Ledger() > first.Ledger() <==> 0 >= i;
      assert log[1].Ledger() > first.Ledger() <==> 1 >= i;
    }
  }
}
