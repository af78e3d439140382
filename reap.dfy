/** The teardown diff: which objects a test created (present now, absent
    from the baseline), in which order they are deleted, and the record of
    what teardown does to the cluster. */
module Reap {
  import opened Common

  datatype Kind = PodKind | ServiceKind | RcKind

  /** One cluster object, named by its kind and its key. */
  datatype Target = Target(kind: Kind, key: string)

  /** What teardown does to the cluster, in order: a `delete <kind> <key>`
      command, or the start of a wait for that object's absence. */
  datatype Effect = Delete(target: Target) | AwaitAbsent(target: Target, timeout: int)

  /** The timeout teardown gives each absence check. */
  const AbsenceTimeout := 360

  /** `[k for k in current if k not in baseline]`, in current order. */
  function Delta(current: seq<string>, baseline: set<string>): (d: seq<string>)
    ensures |d| <= |current|
    decreases |current|
  {
    if |current| == 0 then []
    else
      var k := current[|current| - 1];
      Delta(current[..|current| - 1], baseline) + (if k in baseline then [] else [k])
  }

  function Tag(kind: Kind, keys: seq<string>): (ts: seq<Target>)
    ensures |ts| == |keys|
  {
    seq(|keys|, i requires 0 <= i < |keys| => Target(kind, keys[i]))
  }

  function Deletions(plan: seq<Target>): (es: seq<Effect>)
    ensures |es| == |plan|
  {
    seq(|plan|, i requires 0 <= i < |plan| => Delete(plan[i]))
  }

  function Awaits(plan: seq<Target>, timeout: int): (es: seq<Effect>)
    ensures |es| == |plan|
  {
    seq(|plan|, i requires 0 <= i < |plan| => AwaitAbsent(plan[i], timeout))
  }

  /** The objects teardown deletes: new pods, then new services, then new
      rcs, each kind in the order of its current snapshot. */
  function Plan(pods: seq<string>, services: seq<string>, rcs: seq<string>,
                basePods: set<string>, baseServices: set<string>, baseRcs: set<string>): seq<Target>
  {
    Tag(PodKind, Delta(pods, basePods)) + Tag(ServiceKind, Delta(services, baseServices))
      + Tag(RcKind, Delta(rcs, baseRcs))
  }

  /** A key is in the delta exactly when it is current and not in the
      baseline. */
  lemma {:induction false} DeltaSpec(current: seq<string>, baseline: set<string>)
    ensures forall k :: k in Delta(current, baseline) <==> k in current && k !in baseline
    decreases |current|
  {
    if |current| > 0 {
      var init := current[..|current| - 1];
      DeltaSpec(init, baseline);
      assert current == init + [current[|current| - 1]];
    }
  }

  /** The delta repeats no key the snapshot does not repeat. */
  lemma {:induction false} DeltaNoDuplicates(current: seq<string>, baseline: set<string>)
    requires NoDuplicates(current)
    ensures NoDuplicates(Delta(current, baseline))
    decreases |current|
  {
    if |current| > 0 {
      var init := current[..|current| - 1];
      var k := current[|current| - 1];
      assert NoDuplicates(init);
      DeltaNoDuplicates(init, baseline);
      DeltaSpec(init, baseline);
      assert k !in init;
    }
  }

  /** A snapshot covered by its baseline has an empty delta. */
  lemma DeltaCovered(current: seq<string>, baseline: set<string>)
    requires forall k :: k in current ==> k in baseline
    ensures Delta(current, baseline) == []
  {
    DeltaSpec(current, baseline);
    if |Delta(current, baseline)| > 0 {
      assert Delta(current, baseline)[0] in Delta(current, baseline);
    }
  }

  /** The delta of a prefix of the snapshot is a prefix of its delta. */
  lemma {:induction false} DeltaPrefix(current: seq<string>, baseline: set<string>, i: nat)
    requires i <= |current|
    ensures Delta(current[..i], baseline) <= Delta(current, baseline)
    decreases |current| - i
  {
    if i < |current| {
      var init := current[..|current| - 1];
      assert init[..i] == current[..i];
      DeltaPrefix(init, baseline, i);
    } else {
      assert current[..i] == current;
    }
  }

  /** Walking the snapshot: the `i`-th key, when new, is the next element of
      the delta after the delta of the first `i` keys. */
  lemma DeltaNext(current: seq<string>, baseline: set<string>, i: nat)
    requires i < |current|
    ensures Delta(current[..i + 1], baseline) ==
      Delta(current[..i], baseline) + (if current[i] in baseline then [] else [current[i]])
    ensures current[i] !in baseline ==>
      |Delta(current[..i], baseline)| < |Delta(current, baseline)| &&
      Delta(current, baseline)[|Delta(current[..i], baseline)|] == current[i]
  {
    assert current[..i + 1][..i] == current[..i];
    DeltaPrefix(current, baseline, i + 1);
  }

  function KindRank(k: Kind): nat {
    match k
    case PodKind => 0
    case ServiceKind => 1
    case RcKind => 2
  }

  lemma TagMember(kind: Kind, keys: seq<string>, t: Target)
    ensures t in Tag(kind, keys) <==> t.kind == kind && t.key in keys
  {
    if t.kind == kind && t.key in keys {
      var i :| 0 <= i < |keys| && keys[i] == t.key;
      assert Tag(kind, keys)[i] == t;
    }
  }

  /** The object was created by the test: listed now under its kind and
      absent from that kind's baseline. */
  predicate IsNew(t: Target, pods: seq<string>, services: seq<string>, rcs: seq<string>,
                  basePods: set<string>, baseServices: set<string>, baseRcs: set<string>) {
    match t.kind
    case PodKind => t.key in pods && t.key !in basePods
    case ServiceKind => t.key in services && t.key !in baseServices
    case RcKind => t.key in rcs && t.key !in baseRcs
  }

  /** Teardown deletes exactly the new objects of each kind and never a
      baseline object. */
  lemma PlanMember(pods: seq<string>, services: seq<string>, rcs: seq<string>,
                   basePods: set<string>, baseServices: set<string>, baseRcs: set<string>, t: Target)
    ensures t in Plan(pods, services, rcs, basePods, baseServices, baseRcs)
      <==> IsNew(t, pods, services, rcs, basePods, baseServices, baseRcs)
  {
    var dp, ds, dr := Delta(pods, basePods), Delta(services, baseServices), Delta(rcs, baseRcs);
    TagMember(PodKind, dp, t);
    TagMember(ServiceKind, ds, t);
    TagMember(RcKind, dr, t);
    match t.kind
    case PodKind => DeltaSpec(pods, basePods);
    case ServiceKind => DeltaSpec(services, baseServices);
    case RcKind => DeltaSpec(rcs, baseRcs);
  }

  /** Where each position of the plan comes from: the pod delta, then the
      service delta, then the rc delta. */
  lemma PlanAt(pods: seq<string>, services: seq<string>, rcs: seq<string>,
               basePods: set<string>, baseServices: set<string>, baseRcs: set<string>, i: nat)
    requires i < |Plan(pods, services, rcs, basePods, baseServices, baseRcs)|
    ensures var plan := Plan(pods, services, rcs, basePods, baseServices, baseRcs);
      var np, ns := |Delta(pods, basePods)|, |Delta(services, baseServices)|;
      if i < np then plan[i] == Target(PodKind, Delta(pods, basePods)[i])
      else if i < np + ns then plan[i] == Target(ServiceKind, Delta(services, baseServices)[i - np])
      else plan[i] == Target(RcKind, Delta(rcs, baseRcs)[i - np - ns])
  {
  }

  /** Each object is deleted at most once, and every pod before every
      service and every service before every rc. */
  lemma {:induction false} PlanOrdered(pods: seq<string>, services: seq<string>, rcs: seq<string>,
                    basePods: set<string>, baseServices: set<string>, baseRcs: set<string>)
    requires NoDuplicates(pods) && NoDuplicates(services) && NoDuplicates(rcs)
    ensures var plan := Plan(pods, services, rcs, basePods, baseServices, baseRcs);
      && NoDuplicates(plan)
      && (forall i, j :: 0 <= i < j < |plan| ==> KindRank(plan[i].kind) <= KindRank(plan[j].kind))
  {
    DeltaSpec(pods, basePods);
    DeltaSpec(services, baseServices);
    DeltaSpec(rcs, baseRcs);
    DeltaNoDuplicates(pods, basePods);
    DeltaNoDuplicates(services, baseServices);
    DeltaNoDuplicates(rcs, baseRcs);
    var plan := Plan(pods, services, rcs, basePods, baseServices, baseRcs);
    forall i, j | 0 <= i < j < |plan|
      ensures plan[i] != plan[j] && KindRank(plan[i].kind) <= KindRank(plan[j].kind)
    {
      PlanAt(pods, services, rcs, basePods, baseServices, baseRcs, i);
      PlanAt(pods, services, rcs, basePods, baseServices, baseRcs, j);
    }
  }

  /** Walking a snapshot one key at a time extends the tagged delta by one. */
  lemma TagSnoc(kind: Kind, keys: seq<string>, k: string)
    ensures Tag(kind, keys + [k]) == Tag(kind, keys) + [Target(kind, k)]
  {
    assert forall i :: 0 <= i < |keys| ==> (keys + [k])[i] == keys[i];
  }

  /** The tags of a prefix are a prefix of the tags. */
  lemma TagPrefix(kind: Kind, keys: seq<string>, more: seq<string>)
    requires keys <= more
    ensures Tag(kind, keys) == Tag(kind, more)[..|keys|]
  {
  }

  /** One step of a cleanup loop over `current`: the tagged delta so far is
      a prefix of the whole one, and key `i` extends it exactly when it is
      not in the baseline. */
  lemma WalkStep(kind: Kind, current: seq<string>, baseline: set<string>, i: nat)
    requires i < |current|
    ensures var d := Tag(kind, Delta(current, baseline));
      var done := Tag(kind, Delta(current[..i], baseline));
      var next := Tag(kind, Delta(current[..i + 1], baseline));
      && |done| <= |d| && d[..|done|] == done
      && (current[i] in baseline ==> next == done)
      && (current[i] !in baseline ==>
            && next == done + [Target(kind, current[i])]
            && |done| < |d| && d[|done|] == Target(kind, current[i]))
  {
    DeltaNext(current, baseline, i);
    DeltaPrefix(current, baseline, i);
    TagPrefix(kind, Delta(current[..i], baseline), Delta(current, baseline));
    if current[i] in baseline {
      assert Delta(current[..i + 1], baseline) == Delta(current[..i], baseline) + [];
    } else {
      TagSnoc(kind, Delta(current[..i], baseline), current[i]);
    }
  }

  lemma AppendAssoc<T>(a: seq<T>, b: seq<T>, c: seq<T>)
    ensures (a + b) + c == a + (b + c)
  {
  }

  /** Appending to a plan appends to its record of deletions and waits. */
  lemma EffectsConcat(p: seq<Target>, q: seq<Target>, timeout: int)
    ensures Deletions(p + q) == Deletions(p) + Deletions(q)
    ensures Awaits(p + q, timeout) == Awaits(p, timeout) + Awaits(q, timeout)
  {
    assert |Deletions(p + q)| == |Deletions(p) + Deletions(q)|;
    assert forall i :: 0 <= i < |p + q| ==> Deletions(p + q)[i] == (Deletions(p) + Deletions(q))[i];
    assert forall i :: 0 <= i < |p + q| ==> Awaits(p + q, timeout)[i] == (Awaits(p, timeout) + Awaits(q, timeout))[i];
  }

  lemma EffectsSnoc(p: seq<Target>, t: Target, timeout: int)
    ensures Deletions(p + [t]) == Deletions(p) + [Delete(t)]
    ensures Awaits(p + [t], timeout) == Awaits(p, timeout) + [AwaitAbsent(t, timeout)]
  {
    EffectsConcat(p, [t], timeout);
    assert Deletions([t]) == [Delete(t)];
    assert Awaits([t], timeout) == [AwaitAbsent(t, timeout)];
  }

  // ---------------------------------------------------------------------
  // The absence checks after the deletions
  // ---------------------------------------------------------------------

  /** The outcome of the check of each object of `ts`. */
  function Outcomes(ts: seq<Target>, check: Target -> Outcome): (os: seq<Outcome>)
    ensures |os| == |ts|
  {
    seq(|ts|, j requires 0 <= j < |ts| => check(ts[j]))
  }

  lemma OutcomesConcat(p: seq<Target>, q: seq<Target>, check: Target -> Outcome)
    ensures Outcomes(p + q, check) == Outcomes(p, check) + Outcomes(q, check)
  {
    assert forall j :: 0 <= j < |p + q| ==>
      Outcomes(p + q, check)[j] == (Outcomes(p, check) + Outcomes(q, check))[j];
  }

  /** How a run of checks ended, and how many checks it started. */
  datatype Run = Run(outcome: Outcome, count: nat)

  /** Checks run in order until one raises: how the run ended, and how
      many checks it started. */
  function FirstFail(os: seq<Outcome>): (run: Run)
    ensures run.count <= |os|
    decreases |os|
  {
    if |os| == 0 then Run(Pass, 0)
    else if os[0].Fail? then Run(os[0], 1)
    else
      var rest := FirstFail(os[1..]);
      Run(rest.outcome, rest.count + 1)
  }

  /** A run passes only after starting every check, all of which passed; a
      failed run ends with the first failing check's error, having started
      every check up to that one. */
  lemma {:induction false} FirstFailSpec(os: seq<Outcome>)
    ensures FirstFail(os).outcome.Pass? ==>
      && FirstFail(os).count == |os|
      && forall j :: 0 <= j < |os| ==> os[j].Pass?
    ensures FirstFail(os).outcome.Fail? ==>
      && 0 < FirstFail(os).count
      && os[FirstFail(os).count - 1] == FirstFail(os).outcome
      && forall j :: 0 <= j < FirstFail(os).count - 1 ==> os[j].Pass?
    decreases |os|
  {
    if |os| > 0 && os[0].Pass? {
      FirstFailSpec(os[1..]);
      assert forall j :: 1 <= j < |os| ==> os[j] == os[1..][j - 1];
    }
  }

  /** Running the checks of `p + q` runs those of `p` and, if they all pass,
      goes on with those of `q`. */
  lemma {:induction false} FirstFailConcat(p: seq<Outcome>, q: seq<Outcome>)
    ensures FirstFail(p + q) ==
      if FirstFail(p).outcome.Fail? then FirstFail(p)
      else Run(FirstFail(q).outcome, |p| + FirstFail(q).count)
    decreases |p|
  {
    if |p| == 0 {
      assert p + q == q;
    } else {
      assert (p + q)[1..] == p[1..] + q;
      FirstFailConcat(p[1..], q);
    }
  }

  /** What teardown reports, and what it did to the cluster. */
  datatype Cleanup = Cleanup(outcome: Outcome, log: seq<Effect>)

  /** Two stages run one after the other: the second runs only when the
      first passes. */
  function Then(a: Cleanup, b: Cleanup): Cleanup {
    if a.outcome.Fail? then a else Cleanup(b.outcome, a.log + b.log)
  }

  /** Absence checks for `ts` in order, stopping at the first that raises:
      how they end, and the waits they start. */
  function Checked(ts: seq<Target>, check: Target -> Outcome): Cleanup {
    var run := FirstFail(Outcomes(ts, check));
    Cleanup(run.outcome, Awaits(ts[..run.count], AbsenceTimeout))
  }

  lemma TakeConcatLeft<T>(p: seq<T>, q: seq<T>, n: nat)
    requires n <= |p|
    ensures (p + q)[..n] == p[..n]
  {
  }

  lemma TakeConcatRight<T>(p: seq<T>, q: seq<T>, m: nat)
    requires m <= |q|
    ensures (p + q)[..|p| + m] == p + q[..m]
  {
  }

  lemma AwaitsConcat(p: seq<Target>, q: seq<Target>)
    ensures Awaits(p + q, AbsenceTimeout) == Awaits(p, AbsenceTimeout) + Awaits(q, AbsenceTimeout)
  {
    EffectsConcat(p, q, AbsenceTimeout);
  }

  /** Checking `p + q` is checking `p`, then, if all passed, checking `q`. */
  lemma CheckedConcat(p: seq<Target>, q: seq<Target>, check: Target -> Outcome)
    ensures Checked(p + q, check) == Then(Checked(p, check), Checked(q, check))
  {
    var op, oq := Outcomes(p, check), Outcomes(q, check);
    OutcomesConcat(p, q, check);
    FirstFailConcat(op, oq);
    var rp, rq := FirstFail(op), FirstFail(oq);
    FirstFailSpec(op);
    if rp.outcome.Fail? {
      TakeConcatLeft(p, q, rp.count);
    } else {
      TakeConcatRight(p, q, rq.count);
      assert p[..|p|] == p;
      AwaitsConcat(p, q[..rq.count]);
    }
  }

  /** Checking one more object after `p`. */
  lemma CheckedSnoc(p: seq<Target>, t: Target, check: Target -> Outcome)
    ensures Checked(p + [t], check) == Then(Checked(p, check), Cleanup(check(t), [AwaitAbsent(t, AbsenceTimeout)]))
  {
    CheckedConcat(p, [t], check);
    assert Outcomes([t], check) == [check(t)];
    assert [check(t)][1..] == [];
    assert FirstFail([check(t)]) == Run(check(t), 1);
    assert [t][..1] == [t];
    assert Awaits([t], AbsenceTimeout) == [AwaitAbsent(t, AbsenceTimeout)];
  }

  /** The absence loop of one kind in `tearDown`: each key of `current` not
      in the baseline starts a wait for its absence, and a check that raises
      ends the loop. */
  function AwaitRun(kind: Kind, current: seq<string>, baseline: set<string>, check: Target -> Outcome): Cleanup
    decreases |current|
  {
    if |current| == 0 then Cleanup(Pass, [])
    else
      var prev := AwaitRun(kind, current[..|current| - 1], baseline, check);
      var t := Target(kind, current[|current| - 1]);
      if prev.outcome.Fail? || t.key in baseline then prev
      else Cleanup(check(t), prev.log + [AwaitAbsent(t, AbsenceTimeout)])
  }

  /** One more key of the absence loop. */
  lemma AwaitRunNext(kind: Kind, current: seq<string>, baseline: set<string>, check: Target -> Outcome, i: nat)
    requires i < |current|
    ensures var prev := AwaitRun(kind, current[..i], baseline, check);
      var t := Target(kind, current[i]);
      AwaitRun(kind, current[..i + 1], baseline, check) ==
        if prev.outcome.Fail? || t.key in baseline then prev
        else Cleanup(check(t), prev.log + [AwaitAbsent(t, AbsenceTimeout)])
  {
    assert current[..i + 1][..i] == current[..i];
  }

  /** Once a check of the loop raises, later keys change nothing. */
  lemma {:induction false} AwaitRunSticky(kind: Kind, current: seq<string>, baseline: set<string>,
                                          check: Target -> Outcome, n: nat)
    requires n <= |current|
    requires AwaitRun(kind, current[..n], baseline, check).outcome.Fail?
    ensures AwaitRun(kind, current, baseline, check) == AwaitRun(kind, current[..n], baseline, check)
    decreases |current| - n
  {
    if n == |current| {
      assert current[..n] == current;
    } else {
      var init := current[..|current| - 1];
      assert init[..n] == current[..n];
      AwaitRunSticky(kind, init, baseline, check, n);
    }
  }

  /** The loop checks exactly the kind's new objects, in snapshot order,
      until the first check that raises. */
  lemma {:induction false} AwaitRunSpec(kind: Kind, current: seq<string>, baseline: set<string>, check: Target -> Outcome)
    ensures AwaitRun(kind, current, baseline, check) == Checked(Tag(kind, Delta(current, baseline)), check)
    decreases |current|
  {
    if |current| > 0 {
      var n := |current| - 1;
      var init := current[..n];
      AwaitRunSpec(kind, init, baseline, check);
      var di := Tag(kind, Delta(init, baseline));
      var t := Target(kind, current[n]);
      if t.key in baseline {
        assert Delta(current, baseline) == Delta(init, baseline) + [];
        assert Delta(current, baseline) == Delta(init, baseline);
      } else {
        TagSnoc(kind, Delta(init, baseline), t.key);
        CheckedSnoc(di, t, check);
      }
    }
  }

  /** Delete every object of the plan, then check each one's absence in
      plan order, stopping at the first check that raises. */
  function ReapPlan(plan: seq<Target>, check: Target -> Outcome): Cleanup {
    var checked := Checked(plan, check);
    Cleanup(checked.outcome, Deletions(plan) + checked.log)
  }

  /** Teardown's three absence loops, run one after the other, check the
      plan in order. */
  lemma ReapChain(pods: seq<string>, services: seq<string>, rcs: seq<string>,
                  basePods: set<string>, baseServices: set<string>, baseRcs: set<string>, check: Target -> Outcome)
    ensures Checked(Plan(pods, services, rcs, basePods, baseServices, baseRcs), check) ==
      Then(Then(AwaitRun(PodKind, pods, basePods, check),
                AwaitRun(ServiceKind, services, baseServices, check)),
           AwaitRun(RcKind, rcs, baseRcs, check))
  {
    var a := Tag(PodKind, Delta(pods, basePods));
    var b := Tag(ServiceKind, Delta(services, baseServices));
    var e := Tag(RcKind, Delta(rcs, baseRcs));
    AwaitRunSpec(PodKind, pods, basePods, check);
    AwaitRunSpec(ServiceKind, services, baseServices, check);
    AwaitRunSpec(RcKind, rcs, baseRcs, check);
    CheckedConcat(a, b, check);
    CheckedConcat(a + b, e, check);
  }

  /** Reaping a plan deletes every planned object first, in plan order;
      it passes only when every planned object's check passed, after one
      wait per object; otherwise it fails with the error of the first
      check that raised, every earlier check having passed, and waits for
      no object after that one. */
  lemma ReapPlanSpec(plan: seq<Target>, check: Target -> Outcome)
    ensures var r := ReapPlan(plan, check);
      && |Deletions(plan)| <= |r.log|
      && r.log[..|plan|] == Deletions(plan)
    ensures var r := ReapPlan(plan, check);
      r.outcome.Pass? ==>
        && r.log == Deletions(plan) + Awaits(plan, AbsenceTimeout)
        && forall i :: 0 <= i < |plan| ==> check(plan[i]) == Pass
    ensures var r := ReapPlan(plan, check);
      r.outcome.Fail? ==> exists n ::
        && 0 < n <= |plan|
        && r.log == Deletions(plan) + Awaits(plan[..n], AbsenceTimeout)
        && check(plan[n - 1]) == r.outcome
        && forall i :: 0 <= i < n - 1 ==> check(plan[i]) == Pass
  {
    var os := Outcomes(plan, check);
    assert forall i :: 0 <= i < |plan| ==> os[i] == check(plan[i]);
    FirstFailSpec(os);
    var run := FirstFail(os);
    var r := ReapPlan(plan, check);
    assert r.log == Deletions(plan) + Awaits(plan[..run.count], AbsenceTimeout);
    assert r.log[..|plan|] == Deletions(plan);
    if run.outcome.Pass? {
      assert plan[..run.count] == plan;
    } else {
      assert check(plan[run.count - 1]) == r.outcome;
    }
  }

  /** A teardown with nothing new deletes nothing, waits for nothing and
      passes. */
  lemma NothingNewNothingDone(pods: seq<string>, services: seq<string>, rcs: seq<string>,
                              basePods: set<string>, baseServices: set<string>, baseRcs: set<string>,
                              check: Target -> Outcome)
    requires forall k :: k in pods ==> k in basePods
    requires forall k :: k in services ==> k in baseServices
    requires forall k :: k in rcs ==> k in baseRcs
    ensures ReapPlan(Plan(pods, services, rcs, basePods, baseServices, baseRcs), check) == Cleanup(Pass, [])
  {
    DeltaCovered(pods, basePods);
    DeltaCovered(services, baseServices);
    DeltaCovered(rcs, baseRcs);
    var plan := Plan(pods, services, rcs, basePods, baseServices, baseRcs);
    assert plan == [];
    assert Outcomes(plan, check) == [];
  }

  /** Reaping deletes exactly the planned objects. */
  lemma ReapDeletesPlanned(plan: seq<Target>, check: Target -> Outcome, t: Target)
    ensures Delete(t) in ReapPlan(plan, check).log <==> t in plan
  {
    var dels := Deletions(plan);
    var waits := Checked(plan, check).log;
    assert forall e :: e in waits ==> e.AwaitAbsent?;
    if Delete(t) in dels + waits {
      assert Delete(t) in dels;
      var i :| 0 <= i < |dels| && dels[i] == Delete(t);
      assert plan[i] == t;
    }
    if t in plan {
      var i :| 0 <= i < |plan| && plan[i] == t;
      assert dels[i] == Delete(t);
    }
  }

  /** Reaping waits only for planned objects. */
  lemma ReapAwaitsPlanned(plan: seq<Target>, check: Target -> Outcome, t: Target)
    ensures AwaitAbsent(t, AbsenceTimeout) in ReapPlan(plan, check).log ==> t in plan
  {
    var dels := Deletions(plan);
    var run := FirstFail(Outcomes(plan, check));
    var waits := Awaits(plan[..run.count], AbsenceTimeout);
    assert forall e :: e in dels ==> e.Delete?;
    if AwaitAbsent(t, AbsenceTimeout) in dels + waits {
      assert AwaitAbsent(t, AbsenceTimeout) in waits;
      var i :| 0 <= i < |waits| && waits[i] == AwaitAbsent(t, AbsenceTimeout);
      assert plan[..run.count][i] == t;
    }
  }
}
