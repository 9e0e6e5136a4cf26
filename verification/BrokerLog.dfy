/** The broker's transaction log, and the two ways the history client requests it. */
module BrokerLog {
  import opened IdOrder
  import opened Transactions

  /** Ids increase along the log, times never go back, and ids fit their padded key. */
  ghost predicate WellFormed(log: seq<Transaction>) {
    (forall i, j :: 0 <= i < j < |log| ==> log[i].id < log[j].id && log[i].time <= log[j].time) &&
    (forall i :: 0 <= i < |log| ==> log[i].id < Pow10(KEY_WIDTH))
  }

  function LastId(log: seq<Transaction>): nat {
    if log == [] then 0 else log[|log| - 1].id
  }

  /** The requested transactions with an id past the given one. */
  function Since(log: seq<Transaction>, id: nat): seq<Transaction> {
    if log == [] then []
    else
      var tx := log[|log| - 1];
      Since(log[..|log| - 1], id) + (if tx.Requested() && tx.id > id then [tx] else [])
  }

  /** Whether the broker counts the end of a window as inside is up to the broker. */
  predicate InWindow(tx: Transaction, start: int, end: int, closedEnd: bool) {
    tx.Requested() && start <= tx.time && (tx.time < end || (closedEnd && tx.time == end))
  }

  /** The requested transactions of a time window. */
  function Window(log: seq<Transaction>, start: int, end: int, closedEnd: bool): seq<Transaction> {
    if log == [] then []
    else
      var tx := log[|log| - 1];
      var before := Window(log[..|log| - 1], start, end, closedEnd);
      if InWindow(tx, start, end, closedEnd) then before + [tx] else before
  }

  /** One request for a window, with the log as it was then. */
  datatype Request = Request(log: seq<Transaction>, start: int, end: int, closedEnd: bool)
  {
    function Answer(): seq<Transaction> {
      Window(log, start, end, closedEnd)
    }
  }

  /** Everything a series of requests returns, in order. */
  function Answers(requests: seq<Request>): seq<Transaction> {
    if requests == [] then [] else Answers(requests[..|requests| - 1]) + requests[|requests| - 1].Answer()
  }

  /** The log the broker has in the end contains what it had at each request. */
  ghost predicate RequestedFrom(log: seq<Transaction>, requests: seq<Request>) {
    forall r <- requests :: r.log <= log
  }

  lemma {:induction false} AnswersMember(requests: seq<Request>, tx: Transaction)
    ensures tx in Answers(requests) <==> exists i :: 0 <= i < |requests| && tx in requests[i].Answer()
  {
    if requests != [] {
      var n := |requests| - 1;
      AnswersMember(requests[..n], tx);
      if i :| 0 <= i < |requests| && tx in requests[i].Answer() {
        assert i < n ==> requests[..n][i] == requests[i];
      }
      if i :| 0 <= i < n && tx in requests[..n][i].Answer() {
        assert requests[..n][i] == requests[i];
      }
    }
  }

  lemma {:induction false} AnswersOfConcat(requests: seq<Request>, more: seq<Request>)
    ensures Answers(requests + more) == Answers(requests) + Answers(more)
  {
    if more == [] {
      assert requests + more == requests;
    } else {
      var n := |more| - 1;
      AnswersOfConcat(requests, more[..n]);
      assert (requests + more)[..|requests + more| - 1] == requests + more[..n];
      var a, b, c := Answers(requests), Answers(more[..n]), more[n].Answer();
      assert (a + b) + c == a + (b + c);
    }
  }

  lemma AnswersStayInTheLog(log: seq<Transaction>, requests: seq<Request>)
    requires RequestedFrom(log, requests)
    ensures forall tx <- Answers(requests) :: tx in log
  {
    forall tx | tx in Answers(requests) ensures tx in log {
      AnswersMember(requests, tx);
      var i :| 0 <= i < |requests| && tx in requests[i].Answer();
      assert requests[i] in requests;
      AnswerStaysInTheLog(log, requests[i]);
    }
  }

  lemma AnswerStaysInTheLog(log: seq<Transaction>, r: Request)
    requires r.log <= log
    ensures forall tx <- r.Answer() :: tx in log
  {
    WindowMembers(r.log, r.start, r.end, r.closedEnd);
  }

  lemma {:induction false} SinceMembers(log: seq<Transaction>, id: nat)
    ensures forall tx :: tx in Since(log, id) <==> tx in log && tx.Requested() && tx.id > id
  {
    if log != [] {
      var n := |log| - 1;
      SinceMembers(log[..n], id);
      assert log == log[..n] + [log[n]];
    }
  }

  lemma {:induction false} WindowMembers(log: seq<Transaction>, start: int, end: int, closedEnd: bool)
    ensures forall tx :: tx in Window(log, start, end, closedEnd) <==> tx in log && InWindow(tx, start, end, closedEnd)
  {
    if log != [] {
      var n := |log| - 1;
      WindowMembers(log[..n], start, end, closedEnd);
      assert log == log[..n] + [log[n]];
    }
  }

  /** Adjacent windows put together hold what one window holds, under either reading of a
      window's end. */
  lemma WindowsJoin(log: seq<Transaction>, start: int, mid: int, end: int, closedEnd: bool)
    requires start <= mid <= end
    ensures forall tx :: tx in Window(log, start, end, closedEnd) <==>
                         tx in Window(log, start, mid, closedEnd) || tx in Window(log, mid, end, closedEnd)
  {
    WindowMembers(log, start, end, closedEnd);
    WindowMembers(log, start, mid, closedEnd);
    WindowMembers(log, mid, end, closedEnd);
  }

  /** When the end is outside they even read the log in the same order, without repeats. */
  lemma {:induction false} OpenWindowsJoin(log: seq<Transaction>, start: int, mid: int, end: int)
    requires WellFormed(log) && start <= mid <= end
    ensures Window(log, start, end, false) == Window(log, start, mid, false) + Window(log, mid, end, false)
  {
    if log != [] {
      var n, tx := |log| - 1, log[|log| - 1];
      OpenWindowsJoin(log[..n], start, mid, end);
      if tx.time < mid {
        NothingAfter(log, n, mid, end);
      }
      var a, b := Window(log[..n], start, mid, false), Window(log[..n], mid, end, false);
      assert b == [] ==> (a + b) + [tx] == (a + [tx]) + b;
      assert (a + b) + [tx] == a + (b + [tx]);
    }
  }

  lemma {:induction false} NothingAfter(log: seq<Transaction>, n: nat, mid: int, end: int)
    requires WellFormed(log) && n < |log| && log[n].time < mid
    ensures Window(log[..n], mid, end, false) == []
  {
    if n > 0 {
      assert log[n - 1].time <= log[n].time;
      NothingAfter(log, n - 1, mid, end);
      assert log[..n][..n - 1] == log[..n - 1];
    }
  }

  lemma IdsAreUnique(log: seq<Transaction>, a: Transaction, b: Transaction)
    requires WellFormed(log) && a in log && b in log && a.id == b.id
    ensures a == b
  {
    var i :| 0 <= i < |log| && log[i] == a;
    var j :| 0 <= j < |log| && log[j] == b;
    assert i == j;
  }

  lemma LastIdIsLargest(log: seq<Transaction>, tx: Transaction)
    requires WellFormed(log) && tx in log
    ensures tx.id <= LastId(log)
  {
  }
}
