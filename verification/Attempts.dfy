/**
 Grading attempts and the queue of those waiting to be graded, after app/modules/grading/service.py. Times are
 in microseconds.
 */
module Attempts {
  import opened Common

  datatype Status = Pending | Running | Completed | Failed

  datatype Verdict =
    | Accepted | WrongAnswer | SyntaxError | RuntimeError | Timeout | OutputLimit | MemoryLimit
    | SystemError

  datatype Context = Learning | Daily(attendanceTask: int) | Battle(roomTask: int)

  /** What the request hash covers; the hash is taken to be injective. */
  datatype Submission = Submission(
    task: int, context: Context, presentation: Option<int>, code: Option<string>, option: Option<string>,
    usedHint: bool)

  datatype Attempt = Attempt(
    request: int, user: int, submission: Submission, attemptedAt: int,
    status: Status, correct: Option<bool>, detail: Option<Verdict>, coins: nat,
    startedAt: Option<int>, token: Option<nat>)

  /** The right to persist one result: an attempt, by its row id, and the token it was leased with. */
  datatype Lease = Lease(id: nat, token: nat)

  function NewAttempt(request: int, user: int, submission: Submission, now: int): Attempt {
    Attempt(request, user, submission, now, Pending, None, None, 0, None, None)
  }

  predicate Terminal(a: Attempt) {
    a.status == Completed || a.status == Failed
  }

  /** Pending, or running with a lease that ran out. */
  predicate Claimable(a: Attempt, now: int, leaseTime: nat) {
    a.status == Pending || (a.status == Running && (a.startedAt.None? || a.startedAt.value < now - leaseTime))
  }

  predicate Current(attempts: seq<Attempt>, lease: Lease) {
    lease.id < |attempts| && attempts[lease.id].status == Running && attempts[lease.id].token == Some(lease.token)
  }

  /** The oldest claimable attempt that no other transaction has locked; row ids break ties. */
  function Oldest(attempts: seq<Attempt>, now: int, leaseTime: nat, locked: set<nat>): (r: Option<nat>)
    ensures r.Some? ==> r.value < |attempts|
  {
    if attempts == [] then None
    else
      var n := |attempts| - 1;
      var before := Oldest(attempts[..n], now, leaseTime, locked);
      if Claimable(attempts[n], now, leaseTime) && n !in locked
         && (before.None? || attempts[before.value].attemptedAt > attempts[n].attemptedAt)
      then Some(n)
      else before
  }

  function Leased(a: Attempt, now: int, token: nat): Attempt {
    a.(status := Running, startedAt := Some(now), token := Some(token))
  }

  predicate Before(attempts: seq<Attempt>, i: nat, j: nat)
    requires i < |attempts| && j < |attempts|
  {
    attempts[i].attemptedAt < attempts[j].attemptedAt || (attempts[i].attemptedAt == attempts[j].attemptedAt && i <= j)
  }

  /**
   The claim takes the least (attempted_at, id) among the claimable, unlocked attempts, and none exactly when
   there is none.
   */
  lemma {:induction false} OldestIsLeast(attempts: seq<Attempt>, now: int, leaseTime: nat, locked: set<nat>)
    ensures var r := Oldest(attempts, now, leaseTime, locked);
            if r.Some? then
              && Claimable(attempts[r.value], now, leaseTime) && r.value !in locked
              && forall i :: 0 <= i < |attempts| && Claimable(attempts[i], now, leaseTime) && i !in locked ==>
                Before(attempts, r.value, i)
            else forall i :: 0 <= i < |attempts| && Claimable(attempts[i], now, leaseTime) ==> i in locked
  {
    hide Claimable;
    if attempts != [] {
      var n := |attempts| - 1;
      OldestIsLeast(attempts[..n], now, leaseTime, locked);
    }
  }

  /** Nothing that is not yet graded is lost: it can be claimed now, or once its lease time has passed. */
  lemma {:induction false} NothingIsLost(a: Attempt, now: int, leaseTime: nat)
    ensures !Terminal(a) <==> (Claimable(a, now, leaseTime)
            || (a.status == Running && a.startedAt.Some? && now <= a.startedAt.value + leaseTime))
    ensures !Terminal(a) ==> forall later :: (a.startedAt.None? || later > a.startedAt.value + leaseTime) ==>
            Claimable(a, later, leaseTime)
  {
  }

  /** How many attempts are still to be graded. */
  function Unfinished(attempts: seq<Attempt>): nat {
    if attempts == [] then 0
    else Unfinished(attempts[..|attempts| - 1]) + if Terminal(attempts[|attempts| - 1]) then 0 else 1
  }

  lemma {:induction false} UnfinishedUpdate(attempts: seq<Attempt>, i: nat, a: Attempt)
    requires i < |attempts|
    ensures Unfinished(attempts[i := a])
            == Unfinished(attempts) - (if Terminal(attempts[i]) then 0 else 1) + (if Terminal(a) then 0 else 1)
  {
    var n := |attempts| - 1;
    if i == n {
      assert attempts[i := a][..n] == attempts[..n];
    } else {
      assert attempts[i := a][..n] == attempts[..n][i := a];
      UnfinishedUpdate(attempts[..n], i, a);
    }
  }

  lemma {:induction false} UnfinishedZero(attempts: seq<Attempt>)
    ensures Unfinished(attempts) == 0 <==> forall i :: 0 <= i < |attempts| ==> Terminal(attempts[i])
  {
    if attempts != [] {
      UnfinishedZero(attempts[..|attempts| - 1]);
    }
  }
}
