/** The custom-id poller of src/utils/index.ts (waitForCustomId). The GET requests it
    makes are an oracle: respond(k) is how the (k+1)-th GET settles. The sleeps it takes
    are recorded, with the GETs, in a trace. */
module Utils {
  import opened Wrappers
  import opened Types
  import opened Api

  const DefaultMaxAttempts := 4
  const DefaultDelayMs := 5000

  /** The path of one task. */
  function TaskPath(taskId: string): string {
    "/api/v2/task/" + taskId
  }

  datatype PollEvent = Get(path: string) | Sleep(ms: int)

  /** `task.custom_id` is truthy. */
  predicate HasCustomId(task: ClickUpTask) {
    Present(task.custom_id)
  }

  /** Whether attempt number k + 1 leaves the loop: it fetched a task with a custom id,
      or it failed and was the last attempt allowed. */
  predicate Stops(respond: nat -> Outcome<ClickUpTask>, k: nat, maxAttempts: int) {
    match respond(k)
    case Resolved(task) => HasCustomId(task)
    case Rejected(_) => k + 1 == maxAttempts
  }

  /** The first attempt at or after `from` (0-based) that leaves the loop early, if any. */
  function FirstStop(respond: nat -> Outcome<ClickUpTask>, maxAttempts: int, from: nat): (r: Option<nat>)
    ensures r.Some? ==> from <= r.value < maxAttempts && Stops(respond, r.value, maxAttempts)
    ensures r.Some? ==> forall k :: from <= k < r.value ==> !Stops(respond, k, maxAttempts)
    ensures r.None? ==> forall k :: from <= k < maxAttempts ==> !Stops(respond, k, maxAttempts)
    decreases maxAttempts - from
  {
    if from >= maxAttempts then None
    else if Stops(respond, from, maxAttempts) then Some(from)
    else FirstStop(respond, maxAttempts, from + 1)
  }

  /** An attempt that stops the loop after none before it has is the first stop. */
  lemma {:induction false} FirstStopIsLeast(respond: nat -> Outcome<ClickUpTask>, maxAttempts: int, from: nat, j: nat)
    requires from <= j < maxAttempts && Stops(respond, j, maxAttempts)
    requires forall k :: from <= k < j ==> !Stops(respond, k, maxAttempts)
    ensures FirstStop(respond, maxAttempts, from) == Some(j)
    decreases j - from
  {
    if from < j {
      FirstStopIsLeast(respond, maxAttempts, from + 1, j);
    }
  }

  /** With no attempt stopping the loop there is no first stop. */
  lemma {:induction false} FirstStopNone(respond: nat -> Outcome<ClickUpTask>, maxAttempts: int, from: nat)
    requires forall k :: from <= k < maxAttempts ==> !Stops(respond, k, maxAttempts)
    ensures FirstStop(respond, maxAttempts, from) == None
    decreases maxAttempts - from
  {
    if from < maxAttempts {
      FirstStopNone(respond, maxAttempts, from + 1);
    }
  }

  /** n GETs of path with one sleep between each two of them. */
  function Rounds(path: string, delayMs: int, n: nat): seq<PollEvent> {
    if n == 0 then []
    else if n == 1 then [Get(path)]
    else Rounds(path, delayMs, n - 1) + [Sleep(delayMs), Get(path)]
  }

  function Max0(n: int): nat {
    if n > 0 then n else 0
  }

  /** What waitForCustomId returns and does: up to the first attempt that stops the loop,
      that attempt's outcome after as many GETs; otherwise, after every allowed attempt, the
      outcome of one more GET, made straight after the last attempt. */
  function PollSpec(taskId: string, respond: nat -> Outcome<ClickUpTask>, maxAttempts: int, delayMs: int)
    : (Outcome<ClickUpTask>, seq<PollEvent>)
  {
    var path := TaskPath(taskId);
    match FirstStop(respond, maxAttempts, 0)
    case Some(k) => (respond(k), Rounds(path, delayMs, k + 1))
    case None => (respond(Max0(maxAttempts)), Rounds(path, delayMs, Max0(maxAttempts)) + [Get(path)])
  }

  /** waitForCustomId(taskId, maxAttempts, delayMs). */
  method WaitForCustomId(
    taskId: string, respond: nat -> Outcome<ClickUpTask>,
    maxAttempts: int := DefaultMaxAttempts, delayMs: int := DefaultDelayMs)
    returns (result: Outcome<ClickUpTask>, trace: seq<PollEvent>)
    ensures (result, trace) == PollSpec(taskId, respond, maxAttempts, delayMs)
  {
    var path := TaskPath(taskId);
    var attempts := 0;
    trace := [];
    while attempts < maxAttempts
      invariant 0 <= attempts <= Max0(maxAttempts)
      invariant forall k :: 0 <= k < attempts ==> !Stops(respond, k, maxAttempts)
      invariant trace == Rounds(path, delayMs, attempts) + (if 0 < attempts < maxAttempts then [Sleep(delayMs)] else [])
    {
      attempts := attempts + 1;
      trace := trace + [Get(path)];
      assert trace == Rounds(path, delayMs, attempts);
      var response := respond(attempts - 1);
      match response {
        case Resolved(task) =>
          if HasCustomId(task) {
            FirstStopIsLeast(respond, maxAttempts, 0, attempts - 1);
            return response, trace;
          }
          if attempts < maxAttempts {
            trace := trace + [Sleep(delayMs)];
          }
        case Rejected(error) =>
          if attempts == maxAttempts {
            FirstStopIsLeast(respond, maxAttempts, 0, attempts - 1);
            return response, trace;
          }
          if attempts < maxAttempts {
            trace := trace + [Sleep(delayMs)];
          }
      }
    }
    assert attempts == Max0(maxAttempts);
    assert trace == Rounds(path, delayMs, attempts);
    FirstStopNone(respond, maxAttempts, 0);
    trace := trace + [Get(path)];
    result := respond(attempts);
  }
}

module UtilsProperties {
  import opened Wrappers
  import opened Types
  import opened Api
  import opened Utils

  function GetCount(trace: seq<PollEvent>): nat {
    if trace == [] then 0 else GetCount(trace[..|trace| - 1]) + (if trace[|trace| - 1].Get? then 1 else 0)
  }

  function SleepCount(trace: seq<PollEvent>): nat {
    if trace == [] then 0 else SleepCount(trace[..|trace| - 1]) + (if trace[|trace| - 1].Sleep? then 1 else 0)
  }

  /** Every sleep stands between two GETs. */
  predicate SleepsBetweenGets(trace: seq<PollEvent>) {
    forall i :: 0 <= i < |trace| && trace[i].Sleep? ==> 0 < i < |trace| - 1 && trace[i - 1].Get? && trace[i + 1].Get?
  }

  /** Rounds alternates GET and sleep, starting and ending with a GET. */
  lemma {:induction false} RoundsShape(path: string, delayMs: int, n: nat)
    ensures |Rounds(path, delayMs, n)| == (if n == 0 then 0 else 2 * n - 1)
    ensures forall i :: 0 <= i < |Rounds(path, delayMs, n)| ==>
      Rounds(path, delayMs, n)[i] == if i % 2 == 0 then Get(path) else Sleep(delayMs)
  {
    if n > 1 {
      RoundsShape(path, delayMs, n - 1);
    }
  }

  lemma {:induction false} RoundsCounts(path: string, delayMs: int, n: nat)
    ensures GetCount(Rounds(path, delayMs, n)) == n
    ensures SleepCount(Rounds(path, delayMs, n)) == Max0(n - 1)
  {
    if n == 1 {
      assert Rounds(path, delayMs, 1)[..0] == [];
    } else if n > 1 {
      var r := Rounds(path, delayMs, n - 1);
      var t := Rounds(path, delayMs, n);
      assert t[..|t| - 1] == r + [Sleep(delayMs)];
      assert (r + [Sleep(delayMs)])[..|r|] == r;
      RoundsCounts(path, delayMs, n - 1);
    }
  }

  /** The shape of a trace: at least one GET, fewer sleeps than GETs, each sleep between
      two GETs, and a GET at the end. */
  predicate WellShaped(trace: seq<PollEvent>) {
    && 1 <= GetCount(trace)
    && SleepCount(trace) < GetCount(trace)
    && trace[|trace| - 1].Get?
    && SleepsBetweenGets(trace)
  }

  lemma RoundsWellShaped(path: string, delayMs: int, n: nat)
    requires n >= 1
    ensures WellShaped(Rounds(path, delayMs, n))
    ensures GetCount(Rounds(path, delayMs, n)) == n && SleepCount(Rounds(path, delayMs, n)) == n - 1
  {
    RoundsCounts(path, delayMs, n);
    RoundsShape(path, delayMs, n);
  }

  lemma FinalGetWellShaped(path: string, delayMs: int, n: nat)
    ensures WellShaped(Rounds(path, delayMs, n) + [Get(path)])
    ensures GetCount(Rounds(path, delayMs, n) + [Get(path)]) == n + 1
    ensures SleepCount(Rounds(path, delayMs, n) + [Get(path)]) == Max0(n - 1)
  {
    var r := Rounds(path, delayMs, n);
    var trace := r + [Get(path)];
    RoundsCounts(path, delayMs, n);
    RoundsShape(path, delayMs, n);
    assert trace[..|trace| - 1] == r;
    forall i | 0 <= i < |trace| && trace[i].Sleep?
      ensures 0 < i < |trace| - 1 && trace[i - 1].Get? && trace[i + 1].Get?
    {
      assert i < |r| && r[i] == trace[i];
      if i + 1 < |r| {
        assert trace[i + 1] == r[i + 1];
      }
    }
  }

  /** The poller makes at least one and at most maxAttempts + 1 GETs, sleeps at most
      maxAttempts - 1 times, only between two GETs, and ends on a GET. */
  lemma PollBounds(taskId: string, respond: nat -> Outcome<ClickUpTask>, maxAttempts: int, delayMs: int)
    ensures var trace := PollSpec(taskId, respond, maxAttempts, delayMs).1;
      && WellShaped(trace)
      && GetCount(trace) <= Max0(maxAttempts) + 1
      && SleepCount(trace) <= Max0(maxAttempts - 1)
  {
    var path := TaskPath(taskId);
    match FirstStop(respond, maxAttempts, 0)
    case Some(k) =>
      RoundsWellShaped(path, delayMs, k + 1);
    case None =>
      FinalGetWellShaped(path, delayMs, Max0(maxAttempts));
  }

  /** `task.custom_id` is truthy in the k-th response. */
  predicate FoundAt(respond: nat -> Outcome<ClickUpTask>, k: nat) {
    respond(k).Resolved? && HasCustomId(respond(k).value)
  }

  /** The first task fetched with a custom id is returned at once: no GET and no sleep
      follows the attempt that fetched it. */
  lemma ReturnsFirstCustomId(taskId: string, respond: nat -> Outcome<ClickUpTask>, maxAttempts: int, delayMs: int, i: nat)
    requires i < maxAttempts && FoundAt(respond, i)
    requires forall k :: 0 <= k < i ==> !FoundAt(respond, k)
    ensures PollSpec(taskId, respond, maxAttempts, delayMs) == (respond(i), Rounds(TaskPath(taskId), delayMs, i + 1))
    ensures GetCount(PollSpec(taskId, respond, maxAttempts, delayMs).1) == i + 1
    ensures SleepCount(PollSpec(taskId, respond, maxAttempts, delayMs).1) == i
  {
    forall k | 0 <= k < i ensures !Stops(respond, k, maxAttempts) {
      assert !FoundAt(respond, k);
    }
    FirstStopIsLeast(respond, maxAttempts, 0, i);
    RoundsCounts(TaskPath(taskId), delayMs, i + 1);
  }

  /** A failure on the last allowed attempt is passed on unchanged, after exactly
      maxAttempts GETs: no final GET is made on this path. */
  lemma RethrowsLastAttemptError(taskId: string, respond: nat -> Outcome<ClickUpTask>, maxAttempts: int, delayMs: int)
    requires maxAttempts >= 1 && respond(maxAttempts - 1).Rejected?
    requires forall k :: 0 <= k < maxAttempts - 1 ==> !FoundAt(respond, k)
    ensures PollSpec(taskId, respond, maxAttempts, delayMs).0 == Rejected(respond(maxAttempts - 1).error)
    ensures PollSpec(taskId, respond, maxAttempts, delayMs).1 == Rounds(TaskPath(taskId), delayMs, maxAttempts)
    ensures GetCount(PollSpec(taskId, respond, maxAttempts, delayMs).1) == maxAttempts
  {
    forall k | 0 <= k < maxAttempts - 1 ensures !Stops(respond, k, maxAttempts) {
      assert !FoundAt(respond, k);
    }
    FirstStopIsLeast(respond, maxAttempts, 0, maxAttempts - 1);
    RoundsCounts(TaskPath(taskId), delayMs, maxAttempts);
  }

  /** A failure on an earlier attempt is absorbed: that attempt's GET is followed by
      exactly one sleep and then the next attempt's GET. */
  lemma AbsorbsEarlierError(taskId: string, respond: nat -> Outcome<ClickUpTask>, maxAttempts: int, delayMs: int, k: nat)
    requires k + 1 < maxAttempts && respond(k).Rejected?
    requires forall j :: 0 <= j < k ==> !FoundAt(respond, j)
    ensures var trace := PollSpec(taskId, respond, maxAttempts, delayMs).1;
      && 2 * k + 2 < |trace|
      && trace[2 * k] == Get(TaskPath(taskId))
      && trace[2 * k + 1] == Sleep(delayMs)
      && trace[2 * k + 2] == Get(TaskPath(taskId))
  {
    var path := TaskPath(taskId);
    forall j | 0 <= j <= k ensures !Stops(respond, j, maxAttempts) {
      assert j < k ==> !FoundAt(respond, j);
    }
    match FirstStop(respond, maxAttempts, 0)
    case Some(s) =>
      assert s > k;
      RoundsShape(path, delayMs, s + 1);
    case None =>
      var m := Max0(maxAttempts);
      RoundsShape(path, delayMs, m);
      assert 2 * k + 2 < |Rounds(path, delayMs, m)|;
  }

  /** When no attempt finds the custom id and the last attempt does not fail, one more GET
      follows the last attempt and its outcome is returned unchecked: maxAttempts + 1 GETs
      in all. With maxAttempts <= 0 this is a single GET. */
  lemma ExhaustionMakesFinalGet(taskId: string, respond: nat -> Outcome<ClickUpTask>, maxAttempts: int, delayMs: int)
    requires forall k :: 0 <= k < maxAttempts ==> !FoundAt(respond, k)
    requires maxAttempts >= 1 ==> respond(maxAttempts - 1).Resolved?
    ensures PollSpec(taskId, respond, maxAttempts, delayMs).0 == respond(Max0(maxAttempts))
    ensures PollSpec(taskId, respond, maxAttempts, delayMs).1
      == Rounds(TaskPath(taskId), delayMs, Max0(maxAttempts)) + [Get(TaskPath(taskId))]
    ensures GetCount(PollSpec(taskId, respond, maxAttempts, delayMs).1) == Max0(maxAttempts) + 1
  {
    forall k | 0 <= k < maxAttempts ensures !Stops(respond, k, maxAttempts) {
      assert !FoundAt(respond, k);
    }
    FirstStopNone(respond, maxAttempts, 0);
    FinalGetWellShaped(TaskPath(taskId), delayMs, Max0(maxAttempts));
  }

  /** With the defaults (4 attempts, 5000 ms) and a custom id that never appears, the
      poller makes 5 GETs and sleeps 3 times, 15000 ms in all, and returns the 5th GET. */
  lemma DefaultBudget(taskId: string, respond: nat -> Outcome<ClickUpTask>)
    requires forall k :: 0 <= k < 4 ==> respond(k).Resolved? && !HasCustomId(respond(k).value)
    ensures PollSpec(taskId, respond, DefaultMaxAttempts, DefaultDelayMs).0 == respond(4)
    ensures GetCount(PollSpec(taskId, respond, DefaultMaxAttempts, DefaultDelayMs).1) == 5
    ensures SleepCount(PollSpec(taskId, respond, DefaultMaxAttempts, DefaultDelayMs).1) == 3
  {
    ExhaustionMakesFinalGet(taskId, respond, DefaultMaxAttempts, DefaultDelayMs);
    FinalGetWellShaped(TaskPath(taskId), DefaultDelayMs, 4);
  }
}
