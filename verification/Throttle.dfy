/**
 * What a throttled channel promises, apart from any particular code: arrivals are coalesced into
 * batches, batches keep their distance, and none of them comes late.
 */
module Throttle {
  import opened JsString

  /** One thing that happened on a channel. */
  datatype Mark = Arrived(id: string, at: int) | Served(ids: seq<string>, at: int)

  type Log = seq<Mark>

  function Last(log: Log): Mark
    requires log != []
  {
    log[|log| - 1]
  }

  function Front(log: Log): Log
    requires log != []
  {
    log[..|log| - 1]
  }

  /** The arrivals after the last batch. */
  function Waiting(log: Log): (w: Log)
    ensures forall m :: m in w ==> m.Arrived? && m in log
  {
    if log == [] || Last(log).Served? then []
    else Waiting(Front(log)) + [Last(log)]
  }

  function LastServed(log: Log): Option<int> {
    if log == [] then None
    else if Last(log).Served? then Some(Last(log).at)
    else LastServed(Front(log))
  }

  /** The ids of some arrivals, each once, in order of first arrival. */
  function Distinct(marks: Log): (ids: seq<string>)
    requires forall m :: m in marks ==> m.Arrived?
    ensures forall i, j :: 0 <= i < j < |ids| ==> ids[i] != ids[j]
    ensures forall m :: m in marks ==> m.id in ids
    ensures forall id :: id in ids ==> exists m :: m in marks && m.id == id
    ensures marks != [] ==> ids != []
  {
    if marks == [] then []
    else
      var earlier := Distinct(Front(marks));
      assert forall m :: m in marks ==> m in Front(marks) || m == Last(marks);
      assert forall m :: m in Front(marks) ==> m in marks;
      assert Last(marks) in marks;
      if Last(marks).id in earlier then earlier else earlier + [Last(marks).id]
  }

  ghost predicate Ordered(log: Log, clock: int) {
    && (forall i, j :: 0 <= i < j < |log| ==> log[i].at <= log[j].at)
    && (forall i :: 0 <= i < |log| ==> log[i].at <= clock)
  }

  /** Every batch consists of exactly the ids that arrived since the one before, is not empty, and
      keeps its distance from the one before. */
  ghost predicate WellBatched(log: Log, throttle: nat) {
    log == [] ||
    (WellBatched(Front(log), throttle) &&
     (Last(log).Served? ==>
        && Waiting(Front(log)) != []
        && Last(log).ids == Distinct(Waiting(Front(log)))
        && (LastServed(Front(log)).Some? ==> Last(log).at - LastServed(Front(log)).value >= throttle)))
  }

  /** Every batch serves its arrivals within `limit`. */
  ghost predicate Prompt(log: Log, limit: int) {
    log == [] ||
    (Prompt(Front(log), limit) &&
     (Last(log).Served? ==> forall m :: m in Waiting(Front(log)) ==> Last(log).at <= m.at + limit))
  }

  /** A channel with its timer; `timer` is the time the armed timer is due. */
  ghost predicate Channel(log: Log, last: Option<int>, timer: Option<int>, throttle: nat, clock: int) {
    && Ordered(log, clock) && WellBatched(log, throttle)
    && last == LastServed(log)
    && (timer.Some? <==> Waiting(log) != [])
    && (timer.Some? ==> last.Some? && timer.value == last.value + throttle)
  }

  // ---------- the four moves ----------

  lemma Appended(log: Log, m: Mark)
    ensures Front(log + [m]) == log && Last(log + [m]) == m
  {
  }

  lemma LogOrdered(log: Log, clock: int, m: Mark)
    requires Ordered(log, clock) && clock <= m.at
    ensures Ordered(log + [m], m.at)
  {
  }

  lemma {:induction false} LastServedWasLogged(log: Log, clock: int)
    requires Ordered(log, clock) && LastServed(log).Some?
    ensures LastServed(log).value <= clock
    ensures forall m :: m in Waiting(log) ==> LastServed(log).value <= m.at
  {
    if Last(log).Arrived? {
      LastServedWasLogged(Front(log), Last(log).at);
    }
  }

  /** An arrival that has to wait. */
  lemma Waits(log: Log, last: Option<int>, timer: Option<int>, throttle: nat, clock: int, id: string, now: int,
              timer': Option<int>)
    requires Channel(log, last, timer, throttle, clock) && clock <= now
    requires last.Some? && now - last.value < throttle
    requires timer' == if timer.Some? then timer else Some(now + (throttle - (now - last.value)))
    ensures Channel(log + [Arrived(id, now)], last, timer', throttle, now)
    ensures Waiting(log + [Arrived(id, now)]) == Waiting(log) + [Arrived(id, now)]
  {
    Appended(log, Arrived(id, now));
    LogOrdered(log, clock, Arrived(id, now));
  }

  /** A batch: everything that waits is served, and the timer is off. */
  lemma Serves(log: Log, throttle: nat, clock: int, now: int)
    requires Ordered(log, clock) && WellBatched(log, throttle) && clock <= now && Waiting(log) != []
    requires LastServed(log).Some? ==> now - LastServed(log).value >= throttle
    ensures Channel(log + [Served(Distinct(Waiting(log)), now)], Some(now), None, throttle, now)
    ensures Waiting(log + [Served(Distinct(Waiting(log)), now)]) == []
  {
    Appended(log, Served(Distinct(Waiting(log)), now));
    LogOrdered(log, clock, Served(Distinct(Waiting(log)), now));
  }

  /** An arrival that is served at once, together with everything that still waits. */
  lemma ArrivesAndServes(log: Log, last: Option<int>, timer: Option<int>, throttle: nat, clock: int, id: string,
                         now: int)
    requires Channel(log, last, timer, throttle, clock) && clock <= now
    requires last.Some? ==> now - last.value >= throttle
    ensures var log' := log + [Arrived(id, now)];
      && Waiting(log') == Waiting(log) + [Arrived(id, now)] && Ordered(log', now) && WellBatched(log', throttle)
      && Channel(log' + [Served(Distinct(Waiting(log')), now)], Some(now), None, throttle, now)
      && Waiting(log' + [Served(Distinct(Waiting(log')), now)]) == []
  {
    Appended(log, Arrived(id, now));
    LogOrdered(log, clock, Arrived(id, now));
    Serves(log + [Arrived(id, now)], throttle, now, now);
  }

  // ---------- what follows for every log ----------

  lemma {:induction false} BatchAt(log: Log, throttle: nat, k: nat)
    requires WellBatched(log, throttle) && k < |log| && log[k].Served?
    ensures WellBatched(log[..k], throttle) && log[k].ids == Distinct(Waiting(log[..k]))
    ensures LastServed(log[..k]).Some? ==> log[k].at - LastServed(log[..k]).value >= throttle
  {
    if k < |log| - 1 {
      BatchAt(Front(log), throttle, k);
      assert Front(log)[..k] == log[..k];
    }
  }

  lemma {:induction false} WaitingAre(log: Log, i: nat)
    requires i < |log| && log[i].Arrived? && forall k :: i < k < |log| ==> log[k].Arrived?
    ensures log[i] in Waiting(log)
  {
    if i < |log| - 1 {
      WaitingAre(Front(log), i);
    }
  }

  lemma {:induction false} WaitingCameFrom(log: Log, m: Mark) returns (i: nat)
    requires m in Waiting(log)
    ensures i < |log| && log[i] == m && forall k :: i < k < |log| ==> log[k].Arrived?
  {
    if m == Last(log) {
      i := |log| - 1;
    } else {
      i := WaitingCameFrom(Front(log), m);
    }
  }

  /** The first batch after position `i`, or the end of the log. */
  lemma {:induction false} NextBatch(log: Log, i: nat) returns (k: nat)
    requires i < |log|
    ensures i < k <= |log| && (k < |log| ==> log[k].Served?) && forall j :: i < j < k ==> log[j].Arrived?
  {
    k := i + 1;
    while k < |log| && log[k].Arrived?
      invariant i < k <= |log| && forall j :: i < j < k ==> log[j].Arrived?
    {
      k := k + 1;
    }
  }

  lemma {:induction false} PromptAt(log: Log, limit: int, k: nat)
    requires Prompt(log, limit) && k < |log| && log[k].Served?
    ensures forall m :: m in Waiting(log[..k]) ==> log[k].at <= m.at + limit
  {
    if k < |log| - 1 {
      PromptAt(Front(log), limit, k);
      assert Front(log)[..k] == log[..k];
    }
  }

  /** No arrival is lost: it still waits, or a later batch contains it; and a batch contains it in time. */
  lemma NoneLost(log: Log, throttle: nat, limit: int, i: nat)
    requires WellBatched(log, throttle) && i < |log| && log[i].Arrived?
    ensures log[i] in Waiting(log) || exists k :: i < k < |log| && log[k].Served? && log[i].id in log[k].ids
    ensures Prompt(log, limit) && log[i] !in Waiting(log) ==>
              exists k :: i < k < |log| && log[k].Served? && log[i].id in log[k].ids && log[k].at <= log[i].at + limit
  {
    var k := NextBatch(log, i);
    assert log[..k][i] == log[i];
    WaitingAre(log[..k], i);
    if k < |log| {
      BatchAt(log, throttle, k);
      if Prompt(log, limit) {
        PromptAt(log, limit, k);
      }
    } else {
      assert log[..k] == log;
    }
  }

  /** Nothing is served that did not arrive, and nothing twice: between the arrival and the batch there is no other
      batch. */
  lemma NoneInvented(log: Log, throttle: nat, k: nat, id: string)
    requires WellBatched(log, throttle) && k < |log| && log[k].Served? && id in log[k].ids
    ensures exists i :: 0 <= i < k && log[i].Arrived? && log[i].id == id && forall j :: i < j < k ==> log[j].Arrived?
  {
    hide WellBatched, Waiting, Distinct, LastServed;
    BatchAt(log, throttle, k);
    var m :| m in Waiting(log[..k]) && m.id == id;
    var i := WaitingCameFrom(log[..k], m);
    assert log[i] == m;
  }

  /** The last batch of a log. */
  lemma {:induction false} LastBatch(log: Log) returns (k: nat)
    requires LastServed(log).Some?
    ensures k < |log| && log[k].Served? && log[k].at == LastServed(log).value
    ensures forall j :: k < j < |log| ==> log[j].Arrived?
  {
    if Last(log).Served? {
      k := |log| - 1;
    } else {
      k := LastBatch(Front(log));
    }
  }

  lemma {:induction false} NoBatch(log: Log)
    ensures LastServed(log).None? <==> forall k :: 0 <= k < |log| ==> log[k].Arrived?
  {
    if log != [] {
      NoBatch(Front(log));
      assert Front(log) + [Last(log)] == log;
    }
  }

  /** Whether the last batch is long enough ago says the same of all of them. */
  lemma QuietExactly(log: Log, throttle: nat, clock: int, now: int)
    requires Ordered(log, clock)
    ensures (LastServed(log).Some? ==> now - LastServed(log).value >= throttle) <==>
            forall k :: 0 <= k < |log| && log[k].Served? ==> now - log[k].at >= throttle
  {
    hide LastServed;
    NoBatch(log);
    if LastServed(log).Some? {
      var k := LastBatch(log);
    }
  }

  lemma {:induction false} LatestServed(log: Log, i: nat)
    requires i < |log| && log[i].Served?
    ensures LastServed(log).Some? && exists k :: i <= k < |log| && log[k].Served? && log[k].at == LastServed(log).value
  {
    if Last(log).Arrived? {
      LatestServed(Front(log), i);
    }
  }

  /** Any two batches are at least the throttle apart. */
  lemma KeepDistance(log: Log, throttle: nat, clock: int, i: nat, k: nat)
    requires WellBatched(log, throttle) && Ordered(log, clock) && i < k < |log| && log[i].Served? && log[k].Served?
    ensures log[k].at - log[i].at >= throttle
  {
    hide WellBatched, Waiting, Distinct, LastServed;
    BatchAt(log, throttle, k);
    assert log[..k][i] == log[i];
    LatestServed(log[..k], i);
  }
}
