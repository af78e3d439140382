/** The Kubernetes and OpenShift test suites: the baseline snapshots taken
    by `get_initial_state`, the polling assertions, and `tearDown`, which
    deletes what a test created and then waits for each deleted object to
    disappear. */
module Cluster {
  import opened Common
  import opened Records
  import opened Snapshot
  import opened Poll
  import opened Reap

  /** The command line a provider runs for a `kubectl`/`oc` subcommand. */
  function Command(flavor: Flavor, args: string): string {
    match flavor
    case Kubernetes => "kubectl " + args
    case OpenShift => "docker exec -i origin oc " + args
  }

  /** What `_get_pods`, `_get_services` and `_get_rcs` return for one run
      of their listing command. */
  function PodSnapshot(flavor: Flavor, out: Fetch): Result<OrderedMap<Pod>> {
    match out
    case Failed => Err(CommandFailed(Command(flavor, "get pods")))
    case Output(lines) => Collect(lines, ParsePod, PodKey)
  }

  function ServiceSnapshot(flavor: Flavor, out: Fetch): Result<OrderedMap<Service>> {
    match out
    case Failed => Err(CommandFailed(Command(flavor, "get services")))
    case Output(lines) => Collect(lines, ParseService, ServiceKey)
  }

  function RcSnapshot(flavor: Flavor, out: Fetch): Result<OrderedMap<Rc>> {
    match out
    case Failed => Err(CommandFailed(Command(flavor, "get rc")))
    case Output(lines) => Collect(lines, ParseRc, RcKey)
  }

  /** The absence check teardown runs for one deleted object. */
  function CheckAbsent(flavor: Flavor, t: Target, env: Env): Outcome
    requires Covers(env, AbsenceTimeout)
  {
    match t.kind
    case PodKind => PodAssertion(flavor, t.key, false, None, AbsenceTimeout, env)
    case ServiceKind => ListingAssertion("Service", t.key, false, AbsenceTimeout, env)
    case RcKind => ListingAssertion("RC", t.key, false, AbsenceTimeout, env)
  }

  /** A world in which real time runs out before the teardown timeout. */
  type World = env: Env | Covers(env, AbsenceTimeout) witness Env([AbsenceTimeout + 1], [])

  /** The check teardown runs for each deleted object, the one for `t`
      seeing the world `waits(t)`. */
  function Checker(flavor: Flavor, waits: Target -> World): Target -> Outcome {
    t => CheckAbsent(flavor, t, waits(t))
  }

  /** `tearDown`: list pods, services and rcs (a listing that fails or does
      not parse ends teardown before anything is deleted), then reap what is
      not in the baseline. */
  function TearDownSpec(flavor: Flavor, podsOut: Fetch, servicesOut: Fetch, rcsOut: Fetch,
                        basePods: OrderedMap<Pod>, baseServices: OrderedMap<Service>, baseRcs: OrderedMap<Rc>,
                        waits: Target -> World): Cleanup
  {
    match PodSnapshot(flavor, podsOut)
    case Err(e) => Cleanup(Fail(e), [])
    case Ok(pods) =>
      match ServiceSnapshot(flavor, servicesOut)
      case Err(e) => Cleanup(Fail(e), [])
      case Ok(services) =>
        match RcSnapshot(flavor, rcsOut)
        case Err(e) => Cleanup(Fail(e), [])
        case Ok(rcs) =>
          ReapPlan(Plan(pods.keys, services.keys, rcs.keys,
                                basePods.entries.Keys, baseServices.entries.Keys, baseRcs.entries.Keys), Checker(flavor, waits))
  }

  /** A listing that fails or does not parse ends teardown before anything
      is deleted or awaited, with the error of the first such listing in
      the order pods, services, rcs. */
  lemma TearDownListingFails(flavor: Flavor, podsOut: Fetch, servicesOut: Fetch, rcsOut: Fetch,
                             basePods: OrderedMap<Pod>, baseServices: OrderedMap<Service>, baseRcs: OrderedMap<Rc>,
                             waits: Target -> World)
    requires PodSnapshot(flavor, podsOut).Err? || ServiceSnapshot(flavor, servicesOut).Err?
      || RcSnapshot(flavor, rcsOut).Err?
    ensures var spec := TearDownSpec(flavor, podsOut, servicesOut, rcsOut, basePods, baseServices, baseRcs, waits);
      && spec.log == []
      && spec.outcome == Fail(
        if PodSnapshot(flavor, podsOut).Err? then PodSnapshot(flavor, podsOut).error
        else if ServiceSnapshot(flavor, servicesOut).Err? then ServiceSnapshot(flavor, servicesOut).error
        else RcSnapshot(flavor, rcsOut).error)
  {
  }

  /** With all three listings parsed, teardown first deletes, each exactly
      once, exactly the objects that are listed now and absent from their
      kind's baseline: pods, then services, then rcs. */
  lemma TearDownDeletesNew(flavor: Flavor, podsOut: Fetch, servicesOut: Fetch, rcsOut: Fetch,
                           basePods: OrderedMap<Pod>, baseServices: OrderedMap<Service>, baseRcs: OrderedMap<Rc>,
                           waits: Target -> World,
                           pods: OrderedMap<Pod>, services: OrderedMap<Service>, rcs: OrderedMap<Rc>)
    requires PodSnapshot(flavor, podsOut) == Ok(pods)
    requires ServiceSnapshot(flavor, servicesOut) == Ok(services)
    requires RcSnapshot(flavor, rcsOut) == Ok(rcs)
    ensures var spec := TearDownSpec(flavor, podsOut, servicesOut, rcsOut, basePods, baseServices, baseRcs, waits);
      var plan := Plan(pods.keys, services.keys, rcs.keys,
                       basePods.entries.Keys, baseServices.entries.Keys, baseRcs.entries.Keys);
      && |plan| <= |spec.log|
      && spec.log[..|plan|] == Deletions(plan)
      && NoDuplicates(plan)
      && (forall i, j :: 0 <= i < j < |plan| ==> KindRank(plan[i].kind) <= KindRank(plan[j].kind))
      && forall t :: Delete(t) in spec.log <==>
        IsNew(t, pods.keys, services.keys, rcs.keys,
              basePods.entries.Keys, baseServices.entries.Keys, baseRcs.entries.Keys)
  {
    CollectValid(podsOut.lines, ParsePod, PodKey);
    CollectValid(servicesOut.lines, ParseService, ServiceKey);
    CollectValid(rcsOut.lines, ParseRc, RcKey);
    var bp, bs, br := basePods.entries.Keys, baseServices.entries.Keys, baseRcs.entries.Keys;
    var plan := Plan(pods.keys, services.keys, rcs.keys, bp, bs, br);
    var check := Checker(flavor, waits);
    ReapPlanSpec(plan, check);
    PlanOrdered(pods.keys, services.keys, rcs.keys, bp, bs, br);
    forall t ensures Delete(t) in ReapPlan(plan, check).log <==> IsNew(t, pods.keys, services.keys, rcs.keys, bp, bs, br) {
      ReapDeletesPlanned(plan, check, t);
      PlanMember(pods.keys, services.keys, rcs.keys, bp, bs, br, t);
    }
  }

  /** Some listing run before the teardown timeout ran out failed: the
      object was reported not found. */
  predicate ListingFailedInTime(env: Env)
    requires Covers(env, AbsenceTimeout)
  {
    exists j :: 0 <= j < Attempts(env, AbsenceTimeout) && env.fetches[j].Failed?
  }

  /** The check for one deleted object passes only once a listing of it
      has failed within the timeout; for services, rcs and OpenShift pods,
      such a failed listing is also enough. */
  lemma CheckAbsentSpec(flavor: Flavor, t: Target, env: Env)
    requires Covers(env, AbsenceTimeout)
    ensures CheckAbsent(flavor, t, env) == Pass ==> ListingFailedInTime(env)
    ensures t.kind != PodKind || flavor == OpenShift ==>
      (CheckAbsent(flavor, t, env) == Pass <==> ListingFailedInTime(env))
  {
    match t.kind
    case PodKind =>
      if flavor == OpenShift {
        AbsenceSpec(PodProbe(flavor, false, None), env, AbsenceTimeout);
      } else {
        KubernetesPodAbsenceSpec(None, env, AbsenceTimeout);
      }
    case ServiceKind => AbsenceSpec(ListingProbe(false), env, AbsenceTimeout);
    case RcKind => AbsenceSpec(ListingProbe(false), env, AbsenceTimeout);
  }

  /** A teardown that passes has deleted and then waited for every new
      object, in plan order, and saw a listing of each fail within the
      timeout. */
  lemma TearDownPassMeansGone(flavor: Flavor, podsOut: Fetch, servicesOut: Fetch, rcsOut: Fetch,
                              basePods: OrderedMap<Pod>, baseServices: OrderedMap<Service>, baseRcs: OrderedMap<Rc>,
                              waits: Target -> World,
                              pods: OrderedMap<Pod>, services: OrderedMap<Service>, rcs: OrderedMap<Rc>)
    requires PodSnapshot(flavor, podsOut) == Ok(pods)
    requires ServiceSnapshot(flavor, servicesOut) == Ok(services)
    requires RcSnapshot(flavor, rcsOut) == Ok(rcs)
    requires TearDownSpec(flavor, podsOut, servicesOut, rcsOut, basePods, baseServices, baseRcs, waits).outcome == Pass
    ensures var plan := Plan(pods.keys, services.keys, rcs.keys,
                             basePods.entries.Keys, baseServices.entries.Keys, baseRcs.entries.Keys);
      && TearDownSpec(flavor, podsOut, servicesOut, rcsOut, basePods, baseServices, baseRcs, waits).log
         == Deletions(plan) + Awaits(plan, AbsenceTimeout)
      && forall i :: 0 <= i < |plan| ==> ListingFailedInTime(waits(plan[i]))
  {
    var plan := Plan(pods.keys, services.keys, rcs.keys,
                     basePods.entries.Keys, baseServices.entries.Keys, baseRcs.entries.Keys);
    var check := Checker(flavor, waits);
    assert TearDownSpec(flavor, podsOut, servicesOut, rcsOut, basePods, baseServices, baseRcs, waits)
      == ReapPlan(plan, check);
    ReapPlanSpec(plan, check);
    forall i | 0 <= i < |plan| ensures ListingFailedInTime(waits(plan[i])) {
      var t := plan[i];
      assert check(t) == Pass;
      assert CheckAbsent(flavor, t, waits(t)) == Pass;
      CheckAbsentSpec(flavor, t, waits(t));
    }
  }

  /** A teardown that fails after its listings has deleted every new
      object and stopped at the first object whose absence check raised:
      every earlier check passed and no later object was waited for. */
  lemma TearDownFailStops(flavor: Flavor, podsOut: Fetch, servicesOut: Fetch, rcsOut: Fetch,
                          basePods: OrderedMap<Pod>, baseServices: OrderedMap<Service>, baseRcs: OrderedMap<Rc>,
                          waits: Target -> World,
                          pods: OrderedMap<Pod>, services: OrderedMap<Service>, rcs: OrderedMap<Rc>)
    requires PodSnapshot(flavor, podsOut) == Ok(pods)
    requires ServiceSnapshot(flavor, servicesOut) == Ok(services)
    requires RcSnapshot(flavor, rcsOut) == Ok(rcs)
    requires TearDownSpec(flavor, podsOut, servicesOut, rcsOut, basePods, baseServices, baseRcs, waits).outcome.Fail?
    ensures var spec := TearDownSpec(flavor, podsOut, servicesOut, rcsOut, basePods, baseServices, baseRcs, waits);
      var plan := Plan(pods.keys, services.keys, rcs.keys,
                       basePods.entries.Keys, baseServices.entries.Keys, baseRcs.entries.Keys);
      exists n ::
        && 0 < n <= |plan|
        && spec.log == Deletions(plan) + Awaits(plan[..n], AbsenceTimeout)
        && CheckAbsent(flavor, plan[n - 1], waits(plan[n - 1])) == spec.outcome
        && forall i :: 0 <= i < n - 1 ==> CheckAbsent(flavor, plan[i], waits(plan[i])) == Pass
  {
    var plan := Plan(pods.keys, services.keys, rcs.keys,
                     basePods.entries.Keys, baseServices.entries.Keys, baseRcs.entries.Keys);
    ReapPlanSpec(plan, Checker(flavor, waits));
  }

  /** A teardown that finds nothing new deletes nothing, waits for nothing
      and passes. */
  lemma TearDownNothingNew(flavor: Flavor, podsOut: Fetch, servicesOut: Fetch, rcsOut: Fetch,
                           basePods: OrderedMap<Pod>, baseServices: OrderedMap<Service>, baseRcs: OrderedMap<Rc>,
                           waits: Target -> World,
                           pods: OrderedMap<Pod>, services: OrderedMap<Service>, rcs: OrderedMap<Rc>)
    requires PodSnapshot(flavor, podsOut) == Ok(pods)
    requires ServiceSnapshot(flavor, servicesOut) == Ok(services)
    requires RcSnapshot(flavor, rcsOut) == Ok(rcs)
    requires forall k :: k in pods.keys ==> k in basePods.entries
    requires forall k :: k in services.keys ==> k in baseServices.entries
    requires forall k :: k in rcs.keys ==> k in baseRcs.entries
    ensures TearDownSpec(flavor, podsOut, servicesOut, rcsOut, basePods, baseServices, baseRcs, waits) == Cleanup(Pass, [])
  {
    NothingNewNothingDone(pods.keys, services.keys, rcs.keys,
                          basePods.entries.Keys, baseServices.entries.Keys, baseRcs.entries.Keys, Checker(flavor, waits));
  }

  /** The suite object: the baseline snapshots and the record of what
      teardown did to the cluster. */
  class ClusterSuite {
    const flavor: Flavor
    var pods: OrderedMap<Pod>
    var services: OrderedMap<Service>
    var rcs: OrderedMap<Rc>
    var effects: seq<Effect>

    ghost predicate Valid()
      reads this
    {
      pods.Valid() && services.Valid() && rcs.Valid()
    }

    constructor(flavor: Flavor)
      ensures Valid()
      ensures this.flavor == flavor && effects == []
      ensures pods.keys == [] && services.keys == [] && rcs.keys == []
    {
      this.flavor := flavor;
      pods := OrderedMap([], map[]);
      services := OrderedMap([], map[]);
      rcs := OrderedMap([], map[]);
      effects := [];
    }

    /** `_get_pods`. */
    method GetPods(out: Fetch) returns (r: Result<OrderedMap<Pod>>)
      ensures r == PodSnapshot(flavor, out)
    {
      if out.Failed? {
        return Err(CommandFailed(Command(flavor, "get pods")));
      }
      r := BuildSnapshot(out.lines, ParsePod, PodKey);
    }

    /** `_get_services`. */
    method GetServices(out: Fetch) returns (r: Result<OrderedMap<Service>>)
      ensures r == ServiceSnapshot(flavor, out)
    {
      if out.Failed? {
        return Err(CommandFailed(Command(flavor, "get services")));
      }
      r := BuildSnapshot(out.lines, ParseService, ServiceKey);
    }

    /** `_get_rcs`. */
    method GetRcs(out: Fetch) returns (r: Result<OrderedMap<Rc>>)
      ensures r == RcSnapshot(flavor, out)
    {
      if out.Failed? {
        return Err(CommandFailed(Command(flavor, "get rc")));
      }
      r := BuildSnapshot(out.lines, ParseRc, RcKey);
    }

    /** `get_initial_state`: services, then pods, then rcs; a snapshot that
        fails raises and leaves the later baselines as they were, while the
        earlier ones are already replaced. */
    method GetInitialState(servicesOut: Fetch, podsOut: Fetch, rcsOut: Fetch) returns (r: Outcome)
      requires Valid()
      modifies this`services, this`pods, this`rcs
      ensures Valid()
      ensures ServiceSnapshot(flavor, servicesOut).Err? ==>
        r == Fail(ServiceSnapshot(flavor, servicesOut).error) &&
        services == old(services) && pods == old(pods) && rcs == old(rcs)
      ensures ServiceSnapshot(flavor, servicesOut).Ok? ==> services == ServiceSnapshot(flavor, servicesOut).value
      ensures ServiceSnapshot(flavor, servicesOut).Ok? && PodSnapshot(flavor, podsOut).Err? ==>
        r == Fail(PodSnapshot(flavor, podsOut).error) && pods == old(pods) && rcs == old(rcs)
      ensures ServiceSnapshot(flavor, servicesOut).Ok? && PodSnapshot(flavor, podsOut).Ok? ==>
        pods == PodSnapshot(flavor, podsOut).value
      ensures ServiceSnapshot(flavor, servicesOut).Ok? && PodSnapshot(flavor, podsOut).Ok? ==>
        if RcSnapshot(flavor, rcsOut).Err? then r == Fail(RcSnapshot(flavor, rcsOut).error) && rcs == old(rcs)
        else r == Pass && rcs == RcSnapshot(flavor, rcsOut).value
    {
      var s := GetServices(servicesOut);
      if s.Err? {
        return Fail(s.error);
      }
      if servicesOut.Output? {
        CollectValid(servicesOut.lines, ParseService, ServiceKey);
      }
      services := s.value;
      var p := GetPods(podsOut);
      if p.Err? {
        return Fail(p.error);
      }
      if podsOut.Output? {
        CollectValid(podsOut.lines, ParsePod, PodKey);
      }
      pods := p.value;
      var c := GetRcs(rcsOut);
      if c.Err? {
        return Fail(c.error);
      }
      if rcsOut.Output? {
        CollectValid(rcsOut.lines, ParseRc, RcKey);
      }
      rcs := c.value;
      r := Pass;
    }

    /** `assertPod(name, exists, status, timeout)`. */
    method AssertPod(name: string, present: bool, status: Option<string>, timeout: int, env: Env)
      returns (r: Outcome)
      requires Covers(env, timeout)
      ensures r == PodAssertion(flavor, name, present, status, timeout, env)
    {
      ghost var probe := PodProbe(flavor, present, status);
      var i := 0;
      while env.clock[i] <= timeout
        invariant 0 <= i <= |env.fetches|
        invariant PollFrom(probe, env, timeout, 0) == PollFrom(probe, env, timeout, i)
        decreases |env.fetches| - i
      {
        var out := env.fetches[i];
        if out.Failed? {
          if !present {
            return Pass;
          }
          i := i + 1;
          continue;
        }
        var rows := Body(out.lines);
        var j := 0;
        while j < |rows|
          invariant 0 <= j <= |rows|
          invariant ScanPods(flavor, rows, present, status) == ScanPods(flavor, rows[j..], present, status)
        {
          assert rows[j..][1..] == rows[j + 1..];
          if flavor == OpenShift && !present {
            j := j + 1;
            continue;
          }
          var pod := ParsePod(rows[j]);
          if pod.Err? {
            return Fail(pod.error);
          }
          if !present {
            j := j + 1;
            continue;
          }
          var result := status.None? || pod.value.status == status.value;
          if result {
            return Pass;
          }
          j := j + 1;
        }
        i := i + 1;
      }
      var message;
      if present {
        message := "Pod: " + name + " does not exist";
        if status.Some? {
          message := message + (" with status: " + status.value);
        } else {
          assert message + "" == message;
        }
      } else {
        message := "Pod: " + name + " exists.";
      }
      r := Fail(AssertionFailed(message));
    }

    /** The loop `assertService` and `assertRc` share; `title` is the word
        their messages start with. */
    method AwaitListing(title: string, name: string, present: bool, timeout: int, env: Env)
      returns (r: Outcome)
      requires Covers(env, timeout)
      ensures r == ListingAssertion(title, name, present, timeout, env)
    {
      ghost var probe := ListingProbe(present);
      var i := 0;
      while env.clock[i] <= timeout
        invariant 0 <= i <= |env.fetches|
        invariant PollFrom(probe, env, timeout, 0) == PollFrom(probe, env, timeout, i)
        decreases |env.fetches| - i
      {
        var out := env.fetches[i];
        if out.Failed? {
          if !present {
            return Pass;
          }
          i := i + 1;
          continue;
        }
        var rows := Body(out.lines);
        var j := 0;
        while j < |rows|
          invariant 0 <= j <= |rows|
          invariant j > 0 ==> !present
        {
          if !present {
            j := j + 1;
            continue;
          }
          return Pass;
        }
        i := i + 1;
      }
      var message;
      if present {
        message := title + ": " + name + " does not exist";
      } else {
        message := title + ": " + name + " exists.";
      }
      r := Fail(AssertionFailed(message));
    }

    /** `assertService(name, exists, timeout)`. */
    method AssertService(name: string, present: bool, timeout: int, env: Env) returns (r: Outcome)
      requires Covers(env, timeout)
      ensures r == ListingAssertion("Service", name, present, timeout, env)
    {
      r := AwaitListing("Service", name, present, timeout, env);
    }

    /** `assertRc(name, exists, timeout)`. */
    method AssertRc(name: string, present: bool, timeout: int, env: Env) returns (r: Outcome)
      requires Covers(env, timeout)
      ensures r == ListingAssertion("RC", name, present, timeout, env)
    {
      r := AwaitListing("RC", name, present, timeout, env);
    }

    /** The absence check for one deleted object, by its kind. */
    method CheckGone(t: Target, env: Env) returns (r: Outcome)
      requires Covers(env, AbsenceTimeout)
      ensures r == CheckAbsent(flavor, t, env)
    {
      match t.kind
      case PodKind => r := AssertPod(t.key, false, None, AbsenceTimeout, env);
      case ServiceKind => r := AssertService(t.key, false, AbsenceTimeout, env);
      case RcKind => r := AssertRc(t.key, false, AbsenceTimeout, env);
    }

    /** One cleanup loop of `tearDown`: delete each current key of `kind`
        that is not in the baseline. */
    method DeleteNew(kind: Kind, current: seq<string>, baseline: set<string>)
      modifies this`effects
      ensures effects == old(effects) + Deletions(Tag(kind, Delta(current, baseline)))
    {
      ghost var done: seq<Target> := [];
      var i := 0;
      while i < |current|
        invariant 0 <= i <= |current|
        invariant done == Tag(kind, Delta(current[..i], baseline))
        invariant effects == old(effects) + Deletions(done)
      {
        WalkStep(kind, current, baseline, i);
        var key := current[i];
        if key !in baseline {
          var t := Target(kind, key);
          effects := effects + [Delete(t)];
          EffectsSnoc(done, t, AbsenceTimeout);
          done := done + [t];
        }
        i := i + 1;
      }
      assert current[..i] == current;
    }

    /** One absence loop of `tearDown`: for each current key of `kind` not
        in the baseline, wait for its absence; a check that raises ends the
        loop. */
    method AwaitGone(kind: Kind, current: seq<string>, baseline: set<string>, waits: Target -> World)
      returns (r: Outcome)
      modifies this`effects
      ensures var run := AwaitRun(kind, current, baseline, Checker(flavor, waits));
        r == run.outcome && effects == old(effects) + run.log
    {
      ghost var check := Checker(flavor, waits);
      ghost var start := effects;
      ghost var log: seq<Effect> := [];
      var i := 0;
      while i < |current|
        invariant 0 <= i <= |current|
        invariant AwaitRun(kind, current[..i], baseline, check) == Cleanup(Pass, log)
        invariant effects == start + log
      {
        AwaitRunNext(kind, current, baseline, check, i);
        var key := current[i];
        if key !in baseline {
          var t := Target(kind, key);
          effects := effects + [AwaitAbsent(t, AbsenceTimeout)];
          AppendAssoc(start, log, [AwaitAbsent(t, AbsenceTimeout)]);
          log := log + [AwaitAbsent(t, AbsenceTimeout)];
          var o := CheckGone(t, waits(t));
          assert o == check(t);
          if o.Fail? {
            AwaitRunSticky(kind, current, baseline, check, i + 1);
            return o;
          }
        }
        i := i + 1;
      }
      assert current[..i] == current;
      r := Pass;
    }

    /** `tearDown`. */
    method TearDown(podsOut: Fetch, servicesOut: Fetch, rcsOut: Fetch, waits: Target -> World) returns (r: Outcome)
      modifies this`effects
      ensures var spec := TearDownSpec(flavor, podsOut, servicesOut, rcsOut, pods, services, rcs, waits);
        r == spec.outcome && effects == old(effects) + spec.log
    {
      var p := GetPods(podsOut);
      if p.Err? {
        return Fail(p.error);
      }
      var s := GetServices(servicesOut);
      if s.Err? {
        return Fail(s.error);
      }
      var c := GetRcs(rcsOut);
      if c.Err? {
        return Fail(c.error);
      }
      r := ReapNew(p.value.keys, s.value.keys, c.value.keys, waits);
    }

    /** The second half of `tearDown`: delete the objects of each kind that
        are not in the baseline, pods first, then services, then rcs; then
        wait for each one's absence in the same order. */
    method ReapNew(podKeys: seq<string>, serviceKeys: seq<string>, rcKeys: seq<string>, waits: Target -> World)
      returns (r: Outcome)
      modifies this`effects
      ensures var spec := ReapPlan(Plan(podKeys, serviceKeys, rcKeys, pods.entries.Keys, services.entries.Keys,
                                        rcs.entries.Keys), Checker(flavor, waits));
        r == spec.outcome && effects == old(effects) + spec.log
    {
      var basePods, baseServices, baseRcs := pods.entries.Keys, services.entries.Keys, rcs.entries.Keys;
      ghost var plan := Plan(podKeys, serviceKeys, rcKeys, basePods, baseServices, baseRcs);
      ghost var start := effects;
      DeleteAll(podKeys, serviceKeys, rcKeys, basePods, baseServices, baseRcs);
      r := AwaitAll(podKeys, serviceKeys, rcKeys, basePods, baseServices, baseRcs, waits);
      AppendAssoc(start, Deletions(plan), Checked(plan, Checker(flavor, waits)).log);
    }

    /** The three cleanup loops of `tearDown`, one after the other. */
    method DeleteAll(podKeys: seq<string>, serviceKeys: seq<string>, rcKeys: seq<string>,
                     basePods: set<string>, baseServices: set<string>, baseRcs: set<string>)
      modifies this`effects
      ensures effects == old(effects) + Deletions(Plan(podKeys, serviceKeys, rcKeys, basePods, baseServices, baseRcs))
    {
      ghost var a := Tag(PodKind, Delta(podKeys, basePods));
      ghost var b := Tag(ServiceKind, Delta(serviceKeys, baseServices));
      ghost var e := Tag(RcKind, Delta(rcKeys, baseRcs));
      ghost var start := effects;
      DeleteNew(PodKind, podKeys, basePods);
      DeleteNew(ServiceKind, serviceKeys, baseServices);
      DeleteNew(RcKind, rcKeys, baseRcs);
      EffectsConcat(a, b, AbsenceTimeout);
      EffectsConcat(a + b, e, AbsenceTimeout);
      AppendAssoc(start, Deletions(a), Deletions(b));
      AppendAssoc(start, Deletions(a) + Deletions(b), Deletions(e));
    }

    /** The three absence loops of `tearDown`, one after the other; a check
        that raises skips the rest. */
    method AwaitAll(podKeys: seq<string>, serviceKeys: seq<string>, rcKeys: seq<string>,
                    basePods: set<string>, baseServices: set<string>, baseRcs: set<string>, waits: Target -> World)
      returns (r: Outcome)
      modifies this`effects
      ensures var checked := Checked(Plan(podKeys, serviceKeys, rcKeys, basePods, baseServices, baseRcs),
                                     Checker(flavor, waits));
        r == checked.outcome && effects == old(effects) + checked.log
    {
      ghost var check := Checker(flavor, waits);
      ghost var start := effects;
      ReapChain(podKeys, serviceKeys, rcKeys, basePods, baseServices, baseRcs, check);
      ghost var ra := AwaitRun(PodKind, podKeys, basePods, check);
      ghost var rb := AwaitRun(ServiceKind, serviceKeys, baseServices, check);
      ghost var re := AwaitRun(RcKind, rcKeys, baseRcs, check);
      r := AwaitGone(PodKind, podKeys, basePods, waits);
      if r.Fail? {
        return;
      }
      r := AwaitGone(ServiceKind, serviceKeys, baseServices, waits);
      AppendAssoc(start, ra.log, rb.log);
      if r.Fail? {
        return;
      }
      r := AwaitGone(RcKind, rcKeys, baseRcs, waits);
      AppendAssoc(start, ra.log + rb.log, re.log);
    }
  }
}
