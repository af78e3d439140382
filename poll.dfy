/** The convergence loops of `assertPod`, `assertService` and `assertRc`:
    re-run the listing command while the elapsed time is at most `timeout`,
    stop as soon as one listing satisfies the assertion, and raise an
    AssertionError when time runs out. */
module Poll {
  import opened Common
  import opened Records
  import opened Snapshot

  /** What one run of a listing command gives: it exits non-zero
      (CalledProcessError, the object is not found) or prints lines. */
  datatype Fetch = Failed | Output(lines: seq<string>)

  /** The world one assertion call sees. `clock[i]` is the elapsed time the
      loop condition reads before attempt `i` (so `clock[|fetches|]` is the
      reading that ends the loop); `fetches[i]` is what attempt `i`'s
      listing gives. */
  datatype Env = Env(clock: seq<int>, fetches: seq<Fetch>)

  /** The elapsed-time readings are non-negative and never go back, and
      the last one is past `timeout`: real time always runs out. */
  predicate Covers(env: Env, timeout: int) {
    && |env.clock| == |env.fetches| + 1
    && env.clock[|env.fetches|] > timeout
    && (forall i :: 0 <= i < |env.clock| ==> env.clock[i] >= 0)
    && (forall i, j :: 0 <= i <= j < |env.clock| ==> env.clock[i] <= env.clock[j])
  }

  /** The two providers that poll a cluster. They list the same resources,
      OpenShift with `oc` inside `docker exec -i origin` where Kubernetes
      runs `kubectl`, and their loops differ in `assertPod` only (see
      ScanPods). */
  datatype Flavor = Kubernetes | OpenShift

  /** Which assertion is polling: `assertPod(name, exists, status)`, or
      `assertService`/`assertRc(name, exists)`, whose loops are the same. */
  datatype Probe =
    | PodProbe(flavor: Flavor, present: bool, status: Option<string>)
    | ListingProbe(present: bool)

  /** What one attempt decides: return True, go round again, or raise. */
  datatype Verdict = Satisfied | Retry | Crash(error: Error)

  /** `status is None or pod['status'] == status`: exact, case-sensitive. */
  predicate StatusMatches(p: Pod, status: Option<string>) {
    status.None? || p.status == status.value
  }

  /** The line loop of `assertPod` over the non-header lines. Kubernetes
      parses each line before it looks at `exists`; OpenShift skips the
      line first when waiting for absence, and so never parses it. The only
      exception a scan raises is the ValueError of a line that does not
      unpack into the five pod columns. */
  function ScanPods(flavor: Flavor, rows: seq<string>, present: bool, status: Option<string>): (v: Verdict)
    ensures v.Crash? ==> v.error.Unpack? && v.error.expected == 5
    decreases |rows|
  {
    if |rows| == 0 then Retry
    else if flavor == OpenShift && !present then ScanPods(flavor, rows[1..], present, status)
    else
      match ParsePod(rows[0])
      case Err(e) => Crash(e)
      case Ok(p) =>
        if present && StatusMatches(p, status) then Satisfied
        else ScanPods(flavor, rows[1..], present, status)
  }

  /** One pass of the `while` body: a failed listing satisfies a wait for
      absence and is retried otherwise; a listing is then scanned line by
      line (pods) or satisfies a wait for presence when it has any line
      after the header (services, rcs). A failed listing never raises: it
      satisfies a wait for absence and is retried by a wait for presence; and
      service and rc listings are never parsed, so only a pod line can. */
  function Step(probe: Probe, f: Fetch): (v: Verdict)
    ensures f.Failed? ==> v == (if probe.present then Retry else Satisfied)
    ensures v.Crash? ==> f.Output? && probe.PodProbe? && v.error.Unpack?
  {
    match f
    case Failed => if !probe.present then Satisfied else Retry
    case Output(lines) =>
      match probe
      case PodProbe(flavor, present, status) => ScanPods(flavor, Body(lines), present, status)
      case ListingProbe(present) => if present && |Body(lines)| > 0 then Satisfied else Retry
  }

  /** The first attempt at or after `i` whose clock reading is past `timeout`. */
  function AttemptsFrom(env: Env, timeout: int, i: nat): (n: nat)
    requires Covers(env, timeout) && i <= |env.fetches|
    ensures i <= n <= |env.fetches|
    ensures env.clock[n] > timeout
    ensures forall j :: i <= j < n ==> env.clock[j] <= timeout
    decreases |env.fetches| - i
  {
    if env.clock[i] > timeout then i else AttemptsFrom(env, timeout, i + 1)
  }

  /** How many listings the loop may run before time is up. */
  function Attempts(env: Env, timeout: int): nat
    requires Covers(env, timeout)
  {
    AttemptsFrom(env, timeout, 0)
  }

  /** The `while` loop from attempt `i` on: true when an attempt is
      satisfied, false when time runs out, the error when an attempt raises. */
  function PollFrom(probe: Probe, env: Env, timeout: int, i: nat): (r: Result<bool>)
    requires Covers(env, timeout) && i <= |env.fetches|
    decreases |env.fetches| - i
  {
    if env.clock[i] > timeout then Ok(false)
    else
      match Step(probe, env.fetches[i])
      case Satisfied => Ok(true)
      case Crash(e) => Err(e)
      case Retry => PollFrom(probe, env, timeout, i + 1)
  }

  /** What the assertion reports once its loop is over. */
  function Conclude(res: Result<bool>, message: string): Outcome {
    match res
    case Ok(true) => Pass
    case Ok(false) => Fail(AssertionFailed(message))
    case Err(e) => Fail(e)
  }

  function PodMessage(name: string, present: bool, status: Option<string>): string {
    if present then
      "Pod: " + name + " does not exist" + (if status.Some? then " with status: " + status.value else "")
    else "Pod: " + name + " exists."
  }

  /** `title` is "Service" or "RC". */
  function ListingMessage(title: string, name: string, present: bool): string {
    if present then title + ": " + name + " does not exist" else title + ": " + name + " exists."
  }

  function PodAssertion(flavor: Flavor, name: string, present: bool, status: Option<string>, timeout: int, env: Env): Outcome
    requires Covers(env, timeout)
  {
    Conclude(PollFrom(PodProbe(flavor, present, status), env, timeout, 0), PodMessage(name, present, status))
  }

  function ListingAssertion(title: string, name: string, present: bool, timeout: int, env: Env): Outcome
    requires Covers(env, timeout)
  {
    Conclude(PollFrom(ListingProbe(present), env, timeout, 0), ListingMessage(title, name, present))
  }

  // ---------------------------------------------------------------------
  // The clock
  // ---------------------------------------------------------------------

  /** Attempt `j` runs exactly when the clock read before it is at most
      `timeout`: equality is the last permitted attempt. */
  lemma AttemptsExactly(env: Env, timeout: int)
    requires Covers(env, timeout)
    ensures Attempts(env, timeout) <= |env.fetches|
    ensures forall j :: 0 <= j < |env.fetches| ==>
      (j < Attempts(env, timeout) <==> env.clock[j] <= timeout)
  {
    var n := Attempts(env, timeout);
    forall j | n <= j < |env.fetches| ensures env.clock[j] > timeout {
      assert env.clock[n] <= env.clock[j];
    }
  }

  /** A negative timeout runs no listing at all and the assertion fails. */
  lemma NegativeTimeoutNoFetch(probe: Probe, env: Env, timeout: int)
    requires Covers(env, timeout) && timeout < 0
    ensures Attempts(env, timeout) == 0
    ensures PollFrom(probe, env, timeout, 0) == Ok(false)
  {
    assert env.clock[0] >= 0;
  }

  // ---------------------------------------------------------------------
  // The loop
  // ---------------------------------------------------------------------

  /** Every attempt from `i` up to (not including) `j` went round again. */
  ghost predicate RetriedBetween(probe: Probe, env: Env, i: nat, j: nat)
    requires j <= |env.fetches|
  {
    forall k :: i <= k < j ==> Step(probe, env.fetches[k]) == Retry
  }

  /** An attempt that went round again is skipped over: the attempts from
      `i` to `j` all retried exactly when those from `i + 1` to `j` did. */
  lemma RetriedShift(probe: Probe, env: Env, i: nat, j: nat)
    requires i < j <= |env.fetches| && Step(probe, env.fetches[i]) == Retry
    ensures RetriedBetween(probe, env, i, j) <==> RetriedBetween(probe, env, i + 1, j)
  {
  }

  /** From attempt `i` on, the loop times out exactly when every permitted
      attempt went round again. */
  lemma {:induction false} PollFromTimesOut(probe: Probe, env: Env, timeout: int, i: nat)
    requires Covers(env, timeout) && i <= |env.fetches|
    ensures PollFrom(probe, env, timeout, i) == Ok(false) <==>
      RetriedBetween(probe, env, i, AttemptsFrom(env, timeout, i))
    decreases |env.fetches| - i
  {
    var n := AttemptsFrom(env, timeout, i);
    if env.clock[i] <= timeout {
      assert i < n && n == AttemptsFrom(env, timeout, i + 1);
      PollFromTimesOut(probe, env, timeout, i + 1);
      if Step(probe, env.fetches[i]) == Retry {
        RetriedShift(probe, env, i, n);
      } else {
        assert !RetriedBetween(probe, env, i, n);
      }
    }
  }

  /** From attempt `i` on, the loop is satisfied exactly when some permitted
      attempt is satisfied after every earlier one went round again. */
  lemma {:induction false} PollFromSatisfied(probe: Probe, env: Env, timeout: int, i: nat)
    requires Covers(env, timeout) && i <= |env.fetches|
    ensures PollFrom(probe, env, timeout, i) == Ok(true) <==>
      exists j :: i <= j < AttemptsFrom(env, timeout, i) && Step(probe, env.fetches[j]) == Satisfied
        && RetriedBetween(probe, env, i, j)
    decreases |env.fetches| - i
  {
    var n := AttemptsFrom(env, timeout, i);
    if env.clock[i] <= timeout {
      assert i < n && n == AttemptsFrom(env, timeout, i + 1);
      PollFromSatisfied(probe, env, timeout, i + 1);
      if Step(probe, env.fetches[i]) == Retry {
        forall j | i + 1 <= j <= n
          ensures RetriedBetween(probe, env, i, j) <==> RetriedBetween(probe, env, i + 1, j)
        {
          RetriedShift(probe, env, i, j);
        }
        if PollFrom(probe, env, timeout, i) == Ok(true) {
          var j :| i + 1 <= j < n && Step(probe, env.fetches[j]) == Satisfied && RetriedBetween(probe, env, i + 1, j);
          assert RetriedBetween(probe, env, i, j);
        }
      } else {
        assert RetriedBetween(probe, env, i, i);
        forall j | i < j < n ensures !RetriedBetween(probe, env, i, j) {
          assert Step(probe, env.fetches[i]) != Retry;
        }
      }
    }
  }

  /** From attempt `i` on, the loop raises only the error of a permitted
      attempt that raised after every earlier one went round again. */
  lemma {:induction false} PollFromRaises(probe: Probe, env: Env, timeout: int, i: nat)
    requires Covers(env, timeout) && i <= |env.fetches|
    ensures PollFrom(probe, env, timeout, i).Err? ==>
      exists j :: i <= j < AttemptsFrom(env, timeout, i)
        && Step(probe, env.fetches[j]) == Crash(PollFrom(probe, env, timeout, i).error)
        && RetriedBetween(probe, env, i, j)
    decreases |env.fetches| - i
  {
    var n := AttemptsFrom(env, timeout, i);
    if env.clock[i] <= timeout {
      assert i < n && n == AttemptsFrom(env, timeout, i + 1);
      PollFromRaises(probe, env, timeout, i + 1);
      if Step(probe, env.fetches[i]) == Retry && PollFrom(probe, env, timeout, i).Err? {
        var j :| i + 1 <= j < n && Step(probe, env.fetches[j]) == Crash(PollFrom(probe, env, timeout, i).error)
          && RetriedBetween(probe, env, i + 1, j);
        RetriedShift(probe, env, i, j);
      } else if PollFrom(probe, env, timeout, i).Err? {
        assert RetriedBetween(probe, env, i, i);
      }
    }
  }

  lemma PollFromSpec(probe: Probe, env: Env, timeout: int, i: nat)
    requires Covers(env, timeout) && i <= |env.fetches|
    ensures var n := AttemptsFrom(env, timeout, i);
      && (PollFrom(probe, env, timeout, i) == Ok(false) <==> RetriedBetween(probe, env, i, n))
      && (PollFrom(probe, env, timeout, i) == Ok(true) <==>
          exists j :: i <= j < n && Step(probe, env.fetches[j]) == Satisfied && RetriedBetween(probe, env, i, j))
      && (PollFrom(probe, env, timeout, i).Err? ==>
          exists j :: i <= j < n && Step(probe, env.fetches[j]) == Crash(PollFrom(probe, env, timeout, i).error)
            && RetriedBetween(probe, env, i, j))
  {
    PollFromTimesOut(probe, env, timeout, i);
    PollFromSatisfied(probe, env, timeout, i);
    PollFromRaises(probe, env, timeout, i);
  }

  /** The loop raises only the ValueError of a malformed pod line: a failed
      listing is caught, and service and rc listings are never parsed. */
  lemma {:induction false} PollRaisesOnlyUnpack(probe: Probe, env: Env, timeout: int, i: nat)
    requires Covers(env, timeout) && i <= |env.fetches|
    ensures PollFrom(probe, env, timeout, i).Err? ==>
      probe.PodProbe? && PollFrom(probe, env, timeout, i).error.Unpack?
    decreases |env.fetches| - i
  {
    if env.clock[i] <= timeout && Step(probe, env.fetches[i]) == Retry {
      PollRaisesOnlyUnpack(probe, env, timeout, i + 1);
    }
  }

  /** The assertion is satisfied exactly when some permitted attempt is
      satisfied and every attempt before it went round again; it times out
      exactly when every permitted attempt went round again; when it raises,
      it raises the error of the first attempt that did not go round. */
  lemma PollSpec(probe: Probe, env: Env, timeout: int)
    requires Covers(env, timeout)
    ensures PollFrom(probe, env, timeout, 0) == Ok(true) <==>
      exists j :: 0 <= j < Attempts(env, timeout) && Step(probe, env.fetches[j]) == Satisfied
        && RetriedBetween(probe, env, 0, j)
    ensures PollFrom(probe, env, timeout, 0) == Ok(false) <==>
      RetriedBetween(probe, env, 0, Attempts(env, timeout))
    ensures PollFrom(probe, env, timeout, 0).Err? ==>
      exists j :: 0 <= j < Attempts(env, timeout)
        && Step(probe, env.fetches[j]) == Crash(PollFrom(probe, env, timeout, 0).error)
        && RetriedBetween(probe, env, 0, j)
  {
    PollFromSpec(probe, env, timeout, 0);
  }

  /** Immediate convergence: a satisfying first listing read in time passes. */
  lemma ImmediateConvergence(probe: Probe, env: Env, timeout: int)
    requires Covers(env, timeout)
    requires env.clock[0] <= timeout && Step(probe, env.fetches[0]) == Satisfied
    ensures PollFrom(probe, env, timeout, 0) == Ok(true)
  {
  }

  // ---------------------------------------------------------------------
  // One attempt
  // ---------------------------------------------------------------------

  /** While waiting for absence, no line of a listing satisfies assertPod. */
  lemma {:induction false} ScanPodsNeverSatisfiedWhenAbsent(flavor: Flavor, rows: seq<string>, status: Option<string>)
    ensures ScanPods(flavor, rows, false, status) != Satisfied
    decreases |rows|
  {
    if |rows| > 0 {
      ScanPodsNeverSatisfiedWhenAbsent(flavor, rows[1..], status);
    }
  }

  /** Waiting for absence: only a failed listing satisfies an attempt; a
      listing that succeeds never does, even one with no lines at all. */
  lemma AbsenceOnlyOnFailedFetch(probe: Probe, f: Fetch)
    requires !probe.present
    ensures Step(probe, f) == Satisfied <==> f.Failed?
  {
    if f.Output? && probe.PodProbe? {
      ScanPodsNeverSatisfiedWhenAbsent(probe.flavor, Body(f.lines), probe.status);
    }
  }

  /** OpenShift's assertPod, waiting for absence, never parses a line. */
  lemma {:induction false} OpenShiftAbsentScanRetries(rows: seq<string>, status: Option<string>)
    ensures ScanPods(OpenShift, rows, false, status) == Retry
    decreases |rows|
  {
    if |rows| > 0 {
      OpenShiftAbsentScanRetries(rows[1..], status);
    }
  }

  /** Kubernetes' assertPod, waiting for absence, still parses every line:
      it goes round again exactly when every line is a well-formed pod
      line, and otherwise raises the first malformed line's error. */
  lemma {:induction false} KubernetesAbsentScanParses(rows: seq<string>, status: Option<string>)
    ensures ScanPods(Kubernetes, rows, false, status) == Retry <==>
      forall i :: 0 <= i < |rows| ==> ParsePod(rows[i]).Ok?
    ensures ScanPods(Kubernetes, rows, false, status).Crash? ==>
      exists i :: 0 <= i < |rows| && ParsePod(rows[i]) == Err(ScanPods(Kubernetes, rows, false, status).error)
        && forall j :: 0 <= j < i ==> ParsePod(rows[j]).Ok?
    decreases |rows|
  {
    if |rows| > 0 {
      KubernetesAbsentScanParses(rows[1..], status);
      assert forall i :: 1 <= i < |rows| ==> rows[1..][i - 1] == rows[i];
      ScanPodsNeverSatisfiedWhenAbsent(Kubernetes, rows, status);
      if ScanPods(Kubernetes, rows, false, status).Crash? && ParsePod(rows[0]).Ok? {
        var i :| 0 <= i < |rows[1..]| && ParsePod(rows[1..][i]) == Err(ScanPods(Kubernetes, rows, false, status).error)
          && forall j :: 0 <= j < i ==> ParsePod(rows[1..][j]).Ok?;
        assert ParsePod(rows[i + 1]) == Err(ScanPods(Kubernetes, rows, false, status).error);
      }
    }
  }

  /** Waiting for presence, the two providers scan alike. */
  lemma {:induction false} PresentScanFlavorFree(rows: seq<string>, status: Option<string>)
    ensures ScanPods(Kubernetes, rows, true, status) == ScanPods(OpenShift, rows, true, status)
    decreases |rows|
  {
    if |rows| > 0 {
      PresentScanFlavorFree(rows[1..], status);
    }
  }

  /** Line `i` is a pod whose status matches, and every line before it
      parses. */
  predicate MatchAt(rows: seq<string>, i: nat, status: Option<string>)
    requires i < |rows|
  {
    && ParsePod(rows[i]).Ok? && StatusMatches(ParsePod(rows[i]).value, status)
    && forall j :: 0 <= j < i ==> ParsePod(rows[j]).Ok?
  }

  lemma MatchAtShift(rows: seq<string>, i: nat, status: Option<string>)
    requires 1 <= i < |rows| && ParsePod(rows[0]).Ok?
    ensures MatchAt(rows, i, status) <==> MatchAt(rows[1..], i - 1, status)
  {
    assert forall j :: 1 <= j < |rows| ==> rows[1..][j - 1] == rows[j];
    if MatchAt(rows[1..], i - 1, status) {
      forall j | 0 <= j < i ensures ParsePod(rows[j]).Ok? {
        if j > 0 {
          assert ParsePod(rows[1..][j - 1]).Ok?;
        }
      }
    }
  }

  /** Waiting for presence, the scan is satisfied exactly when some line is
      a pod whose status matches and every line before it parses. */
  lemma {:induction false} PresentScanSpec(rows: seq<string>, status: Option<string>)
    ensures ScanPods(Kubernetes, rows, true, status) == Satisfied <==>
      exists i :: 0 <= i < |rows| && MatchAt(rows, i, status)
    decreases |rows|
  {
    if |rows| > 0 && ParsePod(rows[0]).Ok? && !StatusMatches(ParsePod(rows[0]).value, status) {
      PresentScanSpec(rows[1..], status);
      if exists i :: 0 <= i < |rows| && MatchAt(rows, i, status) {
        var i :| 0 <= i < |rows| && MatchAt(rows, i, status);
        MatchAtShift(rows, i, status);
      }
      if exists i :: 0 <= i < |rows[1..]| && MatchAt(rows[1..], i, status) {
        var i :| 0 <= i < |rows[1..]| && MatchAt(rows[1..], i, status);
        MatchAtShift(rows, i + 1, status);
      }
    } else if |rows| > 0 && ParsePod(rows[0]).Ok? {
      assert MatchAt(rows, 0, status);
    } else if |rows| > 0 {
      forall i | 0 <= i < |rows| ensures !MatchAt(rows, i, status) {
        if i > 0 {
          assert !ParsePod(rows[0]).Ok?;
        }
      }
    }
  }

  /** The first `n` lines are pods, none of whose status matches. */
  predicate NoMatchBefore(rows: seq<string>, n: nat, status: Option<string>)
    requires n <= |rows|
  {
    forall j :: 0 <= j < n ==> ParsePod(rows[j]).Ok? && !StatusMatches(ParsePod(rows[j]).value, status)
  }

  /** Line `i` does not unpack into a pod, and no line before it matched. */
  predicate BadAt(rows: seq<string>, i: nat, status: Option<string>)
    requires i < |rows|
  {
    ParsePod(rows[i]).Err? && NoMatchBefore(rows, i, status)
  }

  lemma NoMatchShift(rows: seq<string>, n: nat, status: Option<string>)
    requires 1 <= n <= |rows|
    requires ParsePod(rows[0]).Ok? && !StatusMatches(ParsePod(rows[0]).value, status)
    ensures NoMatchBefore(rows, n, status) <==> NoMatchBefore(rows[1..], n - 1, status)
  {
    assert forall j :: 1 <= j < |rows| ==> rows[1..][j - 1] == rows[j];
    if NoMatchBefore(rows[1..], n - 1, status) {
      forall j | 0 <= j < n
        ensures ParsePod(rows[j]).Ok? && !StatusMatches(ParsePod(rows[j]).value, status)
      {
        if j > 0 {
          assert rows[j] == rows[1..][j - 1];
        }
      }
    }
  }

  /** Waiting for presence, the scan raises exactly when some line does not
      unpack into five columns and every line before it is a pod whose
      status does not match; it raises that line's error. */
  lemma {:induction false} PresentScanRaises(rows: seq<string>, status: Option<string>)
    ensures ScanPods(Kubernetes, rows, true, status).Crash? <==>
      exists i :: 0 <= i < |rows| && BadAt(rows, i, status)
    ensures ScanPods(Kubernetes, rows, true, status).Crash? ==>
      exists i :: 0 <= i < |rows| && BadAt(rows, i, status)
        && ParsePod(rows[i]) == Err(ScanPods(Kubernetes, rows, true, status).error)
    decreases |rows|
  {
    if |rows| > 0 && ParsePod(rows[0]).Ok? && !StatusMatches(ParsePod(rows[0]).value, status) {
      var v := ScanPods(Kubernetes, rows, true, status);
      PresentScanRaises(rows[1..], status);
      if exists i :: 0 <= i < |rows| && BadAt(rows, i, status) {
        var i :| 0 <= i < |rows| && BadAt(rows, i, status);
        NoMatchShift(rows, i, status);
        assert BadAt(rows[1..], i - 1, status);
      }
      if v.Crash? {
        var i :| 0 <= i < |rows[1..]| && BadAt(rows[1..], i, status)
          && ParsePod(rows[1..][i]) == Err(v.error);
        NoMatchShift(rows, i + 1, status);
        assert BadAt(rows, i + 1, status);
      }
    } else if |rows| > 0 && ParsePod(rows[0]).Ok? {
      forall i | 0 <= i < |rows| ensures !BadAt(rows, i, status) {
        if i > 0 {
          assert StatusMatches(ParsePod(rows[0]).value, status);
        }
      }
    } else if |rows| > 0 {
      assert BadAt(rows, 0, status);
    }
  }

  /** Waiting for presence, the scan goes round again exactly when every
      line is a pod and none has a matching status. */
  lemma {:induction false} PresentScanRetries(rows: seq<string>, status: Option<string>)
    ensures ScanPods(Kubernetes, rows, true, status) == Retry <==> NoMatchBefore(rows, |rows|, status)
    decreases |rows|
  {
    if |rows| > 0 && ParsePod(rows[0]).Ok? && !StatusMatches(ParsePod(rows[0]).value, status) {
      PresentScanRetries(rows[1..], status);
      NoMatchShift(rows, |rows|, status);
    }
  }

  // ---------------------------------------------------------------------
  // Whole assertions
  // ---------------------------------------------------------------------

  /** assertService/assertRc(exists=False), and OpenShift's assertPod with
      exists=False: pass exactly when a listing fails within the time
      allowed; they never raise anything but the timeout. */
  lemma AbsenceSpec(probe: Probe, env: Env, timeout: int)
    requires Covers(env, timeout)
    requires !probe.present
    requires probe.ListingProbe? || probe.flavor == OpenShift
    ensures PollFrom(probe, env, timeout, 0) == Ok(true) <==>
      exists j :: 0 <= j < Attempts(env, timeout) && env.fetches[j].Failed?
    ensures PollFrom(probe, env, timeout, 0).Ok?
  {
    var n := Attempts(env, timeout);
    forall j | 0 <= j < n ensures Step(probe, env.fetches[j]) == (if env.fetches[j].Failed? then Satisfied else Retry) {
      if env.fetches[j].Output? && probe.PodProbe? {
        OpenShiftAbsentScanRetries(Body(env.fetches[j].lines), probe.status);
      }
    }
    PollSpec(probe, env, timeout);
    if exists j :: 0 <= j < n && env.fetches[j].Failed? {
      var j := FirstFailed(env.fetches, n);
      assert RetriedBetween(probe, env, 0, j);
    }
  }

  /** The index of the first failed listing among the first `n`. */
  function FirstFailed(fetches: seq<Fetch>, n: nat): (j: nat)
    requires n <= |fetches| && exists j :: 0 <= j < n && fetches[j].Failed?
    ensures j < n && fetches[j].Failed? && forall k :: 0 <= k < j ==> fetches[k].Output?
    decreases n
  {
    if fetches[n - 1].Failed? && forall k :: 0 <= k < n - 1 ==> fetches[k].Output? then n - 1
    else FirstFailed(fetches, n - 1)
  }

  /** A listing whose every line after the header unpacks into a pod. */
  predicate ListingParses(f: Fetch) {
    f.Output? && forall i :: 0 <= i < |Body(f.lines)| ==> ParsePod(Body(f.lines)[i]).Ok?
  }

  /** One attempt of Kubernetes' assertPod(exists=False): a failed listing
      satisfies it, a listing whose lines all parse sends it round again,
      and any other listing makes it raise. */
  lemma KubernetesAbsentStep(status: Option<string>, f: Fetch)
    ensures Step(PodProbe(Kubernetes, false, status), f) == Satisfied <==> f.Failed?
    ensures Step(PodProbe(Kubernetes, false, status), f) == Retry <==> ListingParses(f)
  {
    AbsenceOnlyOnFailedFetch(PodProbe(Kubernetes, false, status), f);
    if f.Output? {
      KubernetesAbsentScanParses(Body(f.lines), status);
    }
  }

  /** Every listing before attempt `j` printed only lines that parse. */
  predicate ParsedBefore(env: Env, j: nat)
    requires j <= |env.fetches|
  {
    forall k :: 0 <= k < j ==> ListingParses(env.fetches[k])
  }

  /** For Kubernetes' assertPod(exists=False), going round again up to
      attempt `j` means every listing before it parsed. */
  lemma KubernetesAbsentRetried(status: Option<string>, env: Env, j: nat)
    requires j <= |env.fetches|
    ensures RetriedBetween(PodProbe(Kubernetes, false, status), env, 0, j) <==> ParsedBefore(env, j)
  {
    forall k | 0 <= k < j
      ensures Step(PodProbe(Kubernetes, false, status), env.fetches[k]) == Retry <==> ListingParses(env.fetches[k])
    {
      KubernetesAbsentStep(status, env.fetches[k]);
    }
  }

  lemma KubernetesAbsencePasses(status: Option<string>, env: Env, timeout: int)
    requires Covers(env, timeout)
    ensures PollFrom(PodProbe(Kubernetes, false, status), env, timeout, 0) == Ok(true) <==>
      FailsFirst(env, Attempts(env, timeout))
  {
    var probe := PodProbe(Kubernetes, false, status);
    PollFromSatisfied(probe, env, timeout, 0);
    forall j | 0 <= j < Attempts(env, timeout)
      ensures (Step(probe, env.fetches[j]) == Satisfied && RetriedBetween(probe, env, 0, j))
        <==> (env.fetches[j].Failed? && ParsedBefore(env, j))
    {
      KubernetesAbsentStep(status, env.fetches[j]);
      KubernetesAbsentRetried(status, env, j);
    }
  }

  lemma KubernetesAbsenceTimesOut(status: Option<string>, env: Env, timeout: int)
    requires Covers(env, timeout)
    ensures PollFrom(PodProbe(Kubernetes, false, status), env, timeout, 0) == Ok(false) <==>
      ParsedBefore(env, Attempts(env, timeout))
  {
    PollFromTimesOut(PodProbe(Kubernetes, false, status), env, timeout, 0);
    KubernetesAbsentRetried(status, env, Attempts(env, timeout));
  }

  /** The first listing before attempt `n` that did not parse. */
  function FirstUnparsed(env: Env, n: nat): (j: nat)
    requires n <= |env.fetches| && !ParsedBefore(env, n)
    ensures j < n && !ListingParses(env.fetches[j]) && ParsedBefore(env, j)
    decreases n
  {
    if ParsedBefore(env, n - 1) then n - 1 else FirstUnparsed(env, n - 1)
  }

  /** Among the first `n` listings, one fails after only listings that
      parsed. */
  ghost predicate FailsFirst(env: Env, n: nat)
    requires n <= |env.fetches|
  {
    exists j :: 0 <= j < n && env.fetches[j].Failed? && ParsedBefore(env, j)
  }

  /** Among the first `n` listings, one has a malformed line after only
      listings that parsed. */
  ghost predicate MalformedFirst(env: Env, n: nat)
    requires n <= |env.fetches|
  {
    exists j :: 0 <= j < n && env.fetches[j].Output? && !ListingParses(env.fetches[j]) && ParsedBefore(env, j)
  }

  /** Exactly one of the three holds of the first `n` listings: one fails
      first, all parse, or one is malformed first. */
  lemma FirstStopCases(env: Env, n: nat)
    requires n <= |env.fetches|
    ensures MalformedFirst(env, n) <==> !FailsFirst(env, n) && !ParsedBefore(env, n)
  {
    if !MalformedFirst(env, n) && !ParsedBefore(env, n) {
      var j := FirstUnparsed(env, n);
      assert env.fetches[j].Failed?;
    }
  }

  /** A boolean result that is True exactly when `passes` and False exactly
      when `timesOut` is an exception exactly when `raises`, provided
      `raises` holds exactly when neither of the others does. */
  lemma RaisedOtherwise(r: Result<bool>, passes: bool, timesOut: bool, raises: bool)
    requires r == Ok(true) <==> passes
    requires r == Ok(false) <==> timesOut
    requires raises <==> !passes && !timesOut
    ensures r.Err? <==> raises
  {
    match r
    case Ok(b) =>
      assert b ==> r == Ok(true);
      assert !b ==> r == Ok(false);
    case Err(_) =>
  }

  lemma KubernetesAbsenceRaises(status: Option<string>, env: Env, timeout: int)
    requires Covers(env, timeout)
    ensures PollFrom(PodProbe(Kubernetes, false, status), env, timeout, 0).Err? <==>
      MalformedFirst(env, Attempts(env, timeout))
  {
    var n := Attempts(env, timeout);
    KubernetesAbsencePasses(status, env, timeout);
    KubernetesAbsenceTimesOut(status, env, timeout);
    FirstStopCases(env, n);
    RaisedOtherwise(PollFrom(PodProbe(Kubernetes, false, status), env, timeout, 0),
      FailsFirst(env, n), ParsedBefore(env, n), MalformedFirst(env, n));
  }

  /** Kubernetes' assertPod(exists=False) returns True exactly when some
      listing within the time allowed fails and every listing before it
      parsed; it times out exactly when every such listing parsed; and it
      raises exactly when some such listing has a malformed line and every
      listing before it parsed. */
  lemma KubernetesPodAbsenceSpec(status: Option<string>, env: Env, timeout: int)
    requires Covers(env, timeout)
    ensures PollFrom(PodProbe(Kubernetes, false, status), env, timeout, 0) == Ok(true) <==>
      FailsFirst(env, Attempts(env, timeout))
    ensures PollFrom(PodProbe(Kubernetes, false, status), env, timeout, 0) == Ok(false) <==>
      ParsedBefore(env, Attempts(env, timeout))
    ensures PollFrom(PodProbe(Kubernetes, false, status), env, timeout, 0).Err? <==>
      MalformedFirst(env, Attempts(env, timeout))
  {
    KubernetesAbsencePasses(status, env, timeout);
    KubernetesAbsenceTimesOut(status, env, timeout);
    KubernetesAbsenceRaises(status, env, timeout);
  }

  /** assertService/assertRc(exists=True): pass exactly when some listing
      within the time allowed succeeds with a line after the header. */
  lemma ListingPresenceSpec(env: Env, timeout: int)
    requires Covers(env, timeout)
    ensures PollFrom(ListingProbe(true), env, timeout, 0) == Ok(true) <==>
      exists j :: 0 <= j < Attempts(env, timeout) && env.fetches[j].Output? && |Body(env.fetches[j].lines)| > 0
    ensures PollFrom(ListingProbe(true), env, timeout, 0).Ok?
  {
    var probe := ListingProbe(true);
    PollSpec(probe, env, timeout);
    if exists j :: 0 <= j < Attempts(env, timeout) && env.fetches[j].Output? && |Body(env.fetches[j].lines)| > 0 {
      var j :| 0 <= j < Attempts(env, timeout) && env.fetches[j].Output? && |Body(env.fetches[j].lines)| > 0;
      while j > 0 && !RetriedBetween(probe, env, 0, j)
        invariant 0 <= j < Attempts(env, timeout) && Step(probe, env.fetches[j]) == Satisfied
        decreases j
      {
        var k :| 0 <= k < j && Step(probe, env.fetches[k]) != Retry;
        j := k;
      }
    }
  }

  /** A listing in which `assertPod(exists=True)` finds its pod: some line
      is a pod with a matching status, and every line before it parses. */
  ghost predicate PodFound(f: Fetch, status: Option<string>) {
    f.Output? && exists i :: 0 <= i < |Body(f.lines)| && MatchAt(Body(f.lines), i, status)
  }

  /** A listing that sends `assertPod(exists=True)` round again: the
      command failed, or every line is a pod without a matching status. */
  predicate PodNotFound(f: Fetch, status: Option<string>) {
    f.Failed? || NoMatchBefore(Body(f.lines), |Body(f.lines)|, status)
  }

  /** A listing that makes `assertPod(exists=True)` raise: a line that does
      not unpack comes before any match. */
  ghost predicate PodLineBad(f: Fetch, status: Option<string>) {
    f.Output? && exists i :: 0 <= i < |Body(f.lines)| && BadAt(Body(f.lines), i, status)
  }

  /** One attempt of `assertPod(exists=True)`, for either provider. */
  lemma PresentStep(flavor: Flavor, status: Option<string>, f: Fetch)
    ensures Step(PodProbe(flavor, true, status), f) == Satisfied <==> PodFound(f, status)
    ensures Step(PodProbe(flavor, true, status), f) == Retry <==> PodNotFound(f, status)
    ensures Step(PodProbe(flavor, true, status), f).Crash? <==> PodLineBad(f, status)
  {
    if f.Output? {
      var rows := Body(f.lines);
      PresentScanFlavorFree(rows, status);
      PresentScanSpec(rows, status);
      PresentScanRaises(rows, status);
      PresentScanRetries(rows, status);
    }
  }

  /** `assertPod(exists=True)`, for either provider: it returns True exactly
      when some listing within the time allowed shows the pod with a
      matching status after every earlier listing failed or showed no
      match; it times out exactly when every such listing failed or showed
      no match; and it raises only when a listing has a malformed line
      before any match, every earlier listing having failed or shown no
      match. */
  lemma PodPresenceSpec(flavor: Flavor, status: Option<string>, env: Env, timeout: int)
    requires Covers(env, timeout)
    ensures PollFrom(PodProbe(flavor, true, status), env, timeout, 0) == Ok(true) <==>
      exists j :: 0 <= j < Attempts(env, timeout) && PodFound(env.fetches[j], status)
        && forall k :: 0 <= k < j ==> PodNotFound(env.fetches[k], status)
    ensures PollFrom(PodProbe(flavor, true, status), env, timeout, 0) == Ok(false) <==>
      forall j :: 0 <= j < Attempts(env, timeout) ==> PodNotFound(env.fetches[j], status)
    ensures PollFrom(PodProbe(flavor, true, status), env, timeout, 0).Err? ==>
      exists j :: 0 <= j < Attempts(env, timeout) && PodLineBad(env.fetches[j], status)
        && forall k :: 0 <= k < j ==> PodNotFound(env.fetches[k], status)
  {
    var probe := PodProbe(flavor, true, status);
    forall k | 0 <= k < |env.fetches|
      ensures Step(probe, env.fetches[k]) == Satisfied <==> PodFound(env.fetches[k], status)
      ensures Step(probe, env.fetches[k]) == Retry <==> PodNotFound(env.fetches[k], status)
      ensures Step(probe, env.fetches[k]).Crash? <==> PodLineBad(env.fetches[k], status)
    {
      PresentStep(flavor, status, env.fetches[k]);
    }
    PollSpec(probe, env, timeout);
  }
}
