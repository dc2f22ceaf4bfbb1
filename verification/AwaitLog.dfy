/** Waiting for a line in a growing log (`wait` of scripts/await_log_line.py).
    What each read of the log finds and what the clock shows after it are
    inputs: the n-th of each belongs to the n-th time round the loop. */
module AwaitLog {

  datatype Reason = Arrived | AtCap | NoOutput

  type Log = nat -> string
  type Clock = nat -> real

  predicate HasAt(data: string, needle: string, i: nat) {
    i + |needle| <= |data| && data[i..i + |needle|] == needle
  }

  /** `needle in data` */
  predicate Contains(data: string, needle: string) {
    exists i | 0 <= i <= |data| :: HasAt(data, needle, i)
  }

  /** Text before, the needle, text after. */
  lemma {:induction false} ContainsIff(data: string, needle: string)
    ensures Contains(data, needle) <==> exists before, after :: data == before + needle + after
  {
    if i: nat :| i <= |data| && HasAt(data, needle, i) {
      assert data == data[..i] + needle + data[i + |needle|..];
    }
    if before, after :| data == before + needle + after {
      assert HasAt(data, needle, |before|);
    }
  }

  /** Each turn of the loop takes at least a step. */
  ghost predicate Advances(now: Clock, started: real, step: real) {
    now(0) >= started && forall i: nat, j: nat | i < j :: now(j) >= now(i) + step
  }

  /** The last turn up to n whose read had another length than the one before; the first counts. */
  function LastChange(log: Log, n: nat): (j: nat)
    ensures j <= n && forall k | j <= k <= n :: |log(k)| == |log(n)|
    ensures j > 0 ==> |log(j)| != |log(j - 1)|
  {
    if n == 0 || |log(n)| != |log(n - 1)| then n else LastChange(log, n - 1)
  }

  predicate Quiet(log: Log, now: Clock, quiet: real, n: nat) {
    now(n) >= now(LastChange(log, n)) + quiet
  }

  /** The loop goes round again after turn n. */
  predicate GoesOn(needle: string, quiet: real, cap: real, started: real, log: Log, now: Clock, n: nat) {
    !Contains(log(n), needle) && now(n) < started + cap && !Quiet(log, now, quiet, n)
  }

  ghost predicate WentOn(needle: string, quiet: real, cap: real, started: real, log: Log, now: Clock, last: nat) {
    forall i: nat | i < last :: GoesOn(needle, quiet, cap, started, log, now, i)
  }

  /** The wait ended at this turn for this reason. */
  ghost predicate Ended(needle: string, quiet: real, cap: real, started: real, log: Log, now: Clock,
                        reason: Reason, last: nat)
  {
    && WentOn(needle, quiet, cap, started, log, now, last)
    && (reason == Arrived <==> Contains(log(last), needle))
    && (reason == AtCap <==> !Contains(log(last), needle) && now(last) >= started + cap)
    && (reason == NoOutput ==> Quiet(log, now, quiet, last))
  }

  lemma {:induction false} OneMore(n: nat, step: real)
    ensures (n + 1) as real * step == n as real * step + step
  {
    assert (n + 1) as real == n as real + 1.0;
  }

  lemma {:induction false} Elapsed(now: Clock, started: real, step: real, n: nat)
    requires Advances(now, started, step)
    ensures now(n) >= started + n as real * step
  {
    if n > 0 {
      Elapsed(now, started, step, n - 1);
      OneMore(n - 1, step);
    }
  }

  lemma {:induction false} Scale(a: real, b: real, step: real)
    requires step > 0.0 && a >= b
    ensures a * step >= b * step
  {
  }

  lemma {:induction false} Undivide(cap: real, step: real, q: real)
    requires step > 0.0 && q == cap / step
    ensures q * step == cap
  {
  }

  /** A number of turns that cannot all go on. */
  ghost function Limit(cap: real, step: real): int
    requires step > 0.0
  {
    (cap / step).Floor + 1
  }

  lemma {:induction false} Short(n: nat, cap: real, step: real)
    requires step > 0.0 && n as real * step < cap
    ensures n < Limit(cap, step)
  {
    var q := cap / step;
    Undivide(cap, step, q);
    if n >= Limit(cap, step) {
      assert n as real >= q;
      Scale(n as real, q, step);
    }
  }

  /** A turn no later than the cap allows, one step over. */
  ghost predicate Within(n: nat, cap: real, step: real) {
    n == 0 || n as real * step < cap + step
  }

  /** A turn that goes on comes before the limit. */
  lemma {:induction false} GoingOn(needle: string, quiet: real, cap: real, step: real, started: real, log: Log, now: Clock, n: nat)
    requires step > 0.0 && Advances(now, started, step) && GoesOn(needle, quiet, cap, started, log, now, n)
    ensures n < Limit(cap, step) && Within(n + 1, cap, step)
  {
    Elapsed(now, started, step, n);
    Short(n, cap, step);
    OneMore(n, step);
  }

  /** The size and the deadline kept between turns. */
  ghost predicate Watched(log: Log, now: Clock, quiet: real, n: nat, size: int, until: real) {
    if n == 0 then size == -1 else size == |log(n - 1)| && until == now(LastChange(log, n - 1)) + quiet
  }

  lemma {:induction false} Watch(log: Log, now: Clock, quiet: real, n: nat, size: int, until: real)
    requires Watched(log, now, quiet, n, size, until)
    ensures (if |log(n)| != size then now(n) + quiet else until) == now(LastChange(log, n)) + quiet
    ensures Watched(log, now, quiet, n + 1, |log(n)|, now(LastChange(log, n)) + quiet)
  {
  }

  lemma {:induction false} OnceMore(needle: string, quiet: real, cap: real, started: real, log: Log, now: Clock, n: nat)
    requires WentOn(needle, quiet, cap, started, log, now, n) && GoesOn(needle, quiet, cap, started, log, now, n)
    ensures WentOn(needle, quiet, cap, started, log, now, n + 1)
  {
  }

  lemma {:induction false} EndsHere(needle: string, quiet: real, cap: real, started: real, log: Log, now: Clock,
                                    reason: Reason, last: nat)
    requires WentOn(needle, quiet, cap, started, log, now, last)
    requires match reason
             case Arrived => Contains(log(last), needle)
             case AtCap => !Contains(log(last), needle) && now(last) >= started + cap
             case NoOutput => !Contains(log(last), needle) && now(last) < started + cap && Quiet(log, now, quiet, last)
    ensures Ended(needle, quiet, cap, started, log, now, reason, last)
  {
  }

  /** The wait ends at turn `last`, the first that does not go on. */
  method Wait(needle: string, quiet: real, cap: real, step: real, started: real, log: Log, now: Clock)
    returns (arrived: bool, reason: Reason, last: nat)
    requires step > 0.0 && Advances(now, started, step)
    ensures Ended(needle, quiet, cap, started, log, now, reason, last)
    ensures arrived <==> reason == Arrived
    ensures Within(last, cap, step)
  {
    var size := -1;
    var until := started + quiet;
    last := 0;
    while true
      invariant WentOn(needle, quiet, cap, started, log, now, last)
      invariant Watched(log, now, quiet, last, size, until)
      invariant Within(last, cap, step)
      decreases Limit(cap, step) - last
    {
      var data := log(last);
      if Contains(data, needle) {
        EndsHere(needle, quiet, cap, started, log, now, Arrived, last);
        return true, Arrived, last;
      }
      var t := now(last);
      Watch(log, now, quiet, last, size, until);
      if |data| != size {
        size, until := |data|, t + quiet;
      }
      if t >= started + cap {
        EndsHere(needle, quiet, cap, started, log, now, AtCap, last);
        return false, AtCap, last;
      }
      if t >= until {
        EndsHere(needle, quiet, cap, started, log, now, NoOutput, last);
        return false, NoOutput, last;
      }
      GoingOn(needle, quiet, cap, step, started, log, now, last);
      OnceMore(needle, quiet, cap, started, log, now, last);
      last := last + 1;
    }
  }

  // ----- What the reason means -----

  /** The line arrived exactly when some read made before giving up held it. */
  lemma {:induction false} ArrivedIff(needle: string, quiet: real, cap: real, started: real, log: Log, now: Clock,
                                      reason: Reason, last: nat)
    requires Ended(needle, quiet, cap, started, log, now, reason, last)
    ensures reason == Arrived <==> exists i: nat :: i <= last && Contains(log(i), needle)
  {
    if i: nat :| i <= last && Contains(log(i), needle) {
      assert i == last || GoesOn(needle, quiet, cap, started, log, now, i);
    }
  }

  /** "No output" is said only before the cap, after reads of one length over at least the quiet budget. */
  lemma {:induction false} NoOutputMeansQuiet(needle: string, quiet: real, cap: real, started: real, log: Log, now: Clock, last: nat)
    requires Ended(needle, quiet, cap, started, log, now, NoOutput, last)
    ensures now(last) < started + cap
    ensures exists j: nat :: j <= last && now(last) >= now(j) + quiet && forall k | j <= k <= last :: |log(k)| == |log(last)|
  {
    var j := LastChange(log, last);
    assert now(last) >= now(j) + quiet;
  }

  /** A log that changed length less than the quiet budget ago is never called quiet. */
  lemma {:induction false} GrowingIsNotQuiet(needle: string, quiet: real, cap: real, step: real, started: real, log: Log, now: Clock,
                                             reason: Reason, last: nat, j: nat)
    requires step > 0.0 && Advances(now, started, step) && Ended(needle, quiet, cap, started, log, now, reason, last)
    requires j <= last && (j > 0 ==> |log(j)| != |log(j - 1)|) && now(last) < now(j) + quiet
    ensures reason != NoOutput
  {
    var c := LastChange(log, last);
    assert j <= c;
    assert j < c ==> now(c) >= now(j) + step;
  }

  /** The log changed less than the quiet budget before the last turn that went on. */
  ghost predicate Printed(log: Log, now: Clock, quiet: real, last: nat) {
    exists j: nat :: 0 < j < last && |log(j)| != |log(j - 1)| && now(last - 1) < now(j) + quiet
  }

  /** The first turn at or after the cap. */
  ghost predicate MeetsCap(now: Clock, started: real, cap: real, last: nat) {
    now(last) >= started + cap && forall i: nat | i < last :: now(i) < started + cap
  }

  lemma {:induction false} CapAfterChange(needle: string, quiet: real, cap: real, started: real, log: Log, now: Clock, last: nat)
    requires Ended(needle, quiet, cap, started, log, now, AtCap, last) && last > 0 && now(last - 1) >= now(0) + quiet
    ensures Printed(log, now, quiet, last)
  {
    assert GoesOn(needle, quiet, cap, started, log, now, last - 1);
    var j := LastChange(log, last - 1);
    assert now(last - 1) < now(j) + quiet;
  }

  function Silence(): Log {
    (n: nat) => ""
  }

  lemma {:induction false} SilenceUnchanged(n: nat)
    ensures LastChange(Silence(), n) == 0
  {
    if n > 0 {
      SilenceUnchanged(n - 1);
    }
  }

  /** A log that never prints is waited for up to the cap, if the quiet deadline does not come first. */
  lemma {:induction false} SilenceMeetsCap(needle: string, quiet: real, cap: real, step: real, started: real, now: Clock, last: nat)
    requires step > 0.0 && Advances(now, started, step) && needle != "" && MeetsCap(now, started, cap, last)
    requires last > 0 ==> now(last - 1) < now(0) + quiet
    ensures Ended(needle, quiet, cap, started, Silence(), now, AtCap, last) && !Printed(Silence(), now, quiet, last)
  {
    forall i: nat | i < last
      ensures GoesOn(needle, quiet, cap, started, Silence(), now, i)
    {
      SilenceUnchanged(i);
      assert i < last - 1 ==> now(last - 1) >= now(i) + step;
    }
  }

  /** "Still printing" is true of every log exactly when the quiet deadline of
      the first read comes before the last turn under the cap. */
  lemma {:induction false} CapMeansPrintingIff(needle: string, quiet: real, cap: real, step: real, started: real, now: Clock, last: nat)
    requires step > 0.0 && Advances(now, started, step) && needle != "" && MeetsCap(now, started, cap, last)
    ensures (forall log | Ended(needle, quiet, cap, started, log, now, AtCap, last) :: Printed(log, now, quiet, last))
            <==> last > 0 && now(last - 1) >= now(0) + quiet
  {
    if last > 0 && now(last - 1) >= now(0) + quiet {
      forall log | Ended(needle, quiet, cap, started, log, now, AtCap, last)
        ensures Printed(log, now, quiet, last)
      {
        CapAfterChange(needle, quiet, cap, started, log, now, last);
      }
    } else {
      SilenceMeetsCap(needle, quiet, cap, step, started, now, last);
    }
  }

  /** An input: `--quiet 200 --cap 180`, one turn a second, and a log that never prints. */
  lemma {:induction false} SilenceStillPrinting(needle: string)
    requires needle != ""
    ensures Ended(needle, 200.0, 180.0, 0.0, Silence(), (n: nat) => n as real, AtCap, 180)
  {
    var now: Clock := (n: nat) => n as real;
    assert Advances(now, 0.0, 1.0);
    SilenceMeetsCap(needle, 200.0, 180.0, 1.0, 0.0, now, 180);
  }
}
