/** The Docker test suite: the container baseline, `tearDown`, which
    removes every container the test left behind, and the running-container
    assertions. */
module Docker {
  import opened Common
  import opened Records
  import opened Snapshot
  import opened Poll
  import opened Reap

  /** `docker ps`, with `-a` when stopped containers are listed too. */
  function DockerPs(all: bool): string {
    if all then "docker ps -a" else "docker ps"
  }

  /** What `_get_containers(all)` returns for one run of its command. */
  function ContainerSnapshot(all: bool, out: Fetch): Result<OrderedMap<Container>> {
    match out
    case Failed => Err(CommandFailed(DockerPs(all)))
    case Output(lines) => Collect(lines, ParseContainer, ContainerKey)
  }

  /** A successful snapshot lists each id once, under its own id. */
  lemma ContainerSnapshotValid(all: bool, out: Fetch)
    ensures ContainerSnapshot(all, out).Ok? ==> ContainerSnapshot(all, out).value.Valid()
  {
    if out.Output? {
      CollectValid(out.lines, ParseContainer, ContainerKey);
    }
  }

  /** The ids `tearDown` removes: those listed by `docker ps -a` now and
      absent from the baseline, in the snapshot's key order; or the listing's
      error. */
  function Removals(out: Fetch, baseline: OrderedMap<Container>): Result<seq<string>> {
    match ContainerSnapshot(true, out)
    case Err(e) => Err(e)
    case Ok(m) => Ok(Delta(m.keys, baseline.entries.Keys))
  }

  /** Teardown removes exactly the containers that are listed now and not
      in the baseline, each once. */
  lemma RemovalsSpec(out: Fetch, baseline: OrderedMap<Container>)
    ensures Removals(out, baseline).Ok? <==> ContainerSnapshot(true, out).Ok?
    ensures Removals(out, baseline).Ok? ==>
      && NoDuplicates(Removals(out, baseline).value)
      && forall id :: id in Removals(out, baseline).value <==>
        id in ContainerSnapshot(true, out).value.entries && id !in baseline.entries
  {
    ContainerSnapshotValid(true, out);
    if ContainerSnapshot(true, out).Ok? {
      DeltaSpec(ContainerSnapshot(true, out).value.keys, baseline.entries.Keys);
      DeltaNoDuplicates(ContainerSnapshot(true, out).value.keys, baseline.entries.Keys);
    }
  }

  /** Tearing down against the listing the baseline was taken from removes
      nothing. */
  lemma RemovalsOfBaseline(out: Fetch)
    requires ContainerSnapshot(true, out).Ok?
    ensures Removals(out, ContainerSnapshot(true, out).value) == Ok([])
  {
    ContainerSnapshotValid(true, out);
    var m := ContainerSnapshot(true, out).value;
    DeltaCovered(m.keys, m.entries.Keys);
  }

  /** Some listed container has `names` equal to `name`. */
  ghost predicate HasContainerNamed(m: OrderedMap<Container>, name: string) {
    exists id :: id in m.entries && m.entries[id].names == name
  }

  /** The loop of `assertContainerNotRunning` from the `i`-th item on,
      reading the field `field` of each container record. It raises only the
      KeyError of a missing field or the "is running" AssertionError. */
  function NotRunningFrom(m: OrderedMap<Container>, name: string, field: string, i: nat): (o: Outcome)
    requires m.Valid() && i <= |m.keys|
    ensures o.Fail? ==> o.error == KeyLookup(field) || o.error == AssertionFailed("Container: " + name + " is running")
    decreases |m.keys| - i
  {
    if i == |m.keys| then Pass
    else
      assert m.keys[i] in m.entries;
      match Lookup(m.entries[m.keys[i]], field)
      case Err(e) => Fail(e)
      case Ok(v) =>
        if v == name then Fail(AssertionFailed("Container: " + name + " is running"))
        else NotRunningFrom(m, name, field, i + 1)
  }

  /** As written, the loop reads the key "name", which no container record
      has: any non-empty listing raises a KeyError, whatever `name` is. */
  lemma {:induction false} NotRunningAsWrittenRaises(m: OrderedMap<Container>, name: string)
    requires m.Valid()
    ensures |m.keys| == 0 ==> NotRunningFrom(m, name, "name", 0) == Pass
    ensures |m.keys| > 0 ==> NotRunningFrom(m, name, "name", 0) == Fail(KeyLookup("name"))
  {
    if |m.keys| > 0 {
      assert m.keys[0] in m.entries;
      ContainerHasNamesNotName(m.entries[m.keys[0]]);
    }
  }

  /** Reading "names", the loop passes exactly when no listed container
      has that name, and otherwise reports it running. */
  lemma {:induction false} NotRunningSpec(m: OrderedMap<Container>, name: string, i: nat)
    requires m.Valid() && i <= |m.keys|
    ensures NotRunningFrom(m, name, "names", i) == Pass <==>
      forall j :: i <= j < |m.keys| ==> m.entries[m.keys[j]].names != name
    ensures NotRunningFrom(m, name, "names", i) != Pass ==>
      NotRunningFrom(m, name, "names", i) == Fail(AssertionFailed("Container: " + name + " is running"))
    decreases |m.keys| - i
  {
    if i < |m.keys| {
      assert m.keys[i] in m.entries;
      ContainerHasNamesNotName(m.entries[m.keys[i]]);
      NotRunningSpec(m, name, i + 1);
    }
  }

  /** Over a whole valid snapshot, "no listed container has that name" is
      the same as "no container in the map has that name". */
  lemma NoneNamed(m: OrderedMap<Container>, name: string)
    requires m.Valid()
    ensures (forall j :: 0 <= j < |m.keys| ==> m.entries[m.keys[j]].names != name) <==> !HasContainerNamed(m, name)
  {
    if HasContainerNamed(m, name) {
      var id :| id in m.entries && m.entries[id].names == name;
      var j :| 0 <= j < |m.keys| && m.keys[j] == id;
      assert m.entries[m.keys[j]].names == name;
    }
  }

  /** The as-written check crashes on a listing of one container called
      "web" when asked about "db", where it should pass. */
  lemma NotRunningCounterexample()
    ensures var c := Container("c1", "img", "cmd", "now", "Up", "", "web");
      var m := OrderedMap(["c1"], map["c1" := c]);
      && m.Valid()
      && NotRunningFrom(m, "db", "name", 0) == Fail(KeyLookup("name"))
      && NotRunningFrom(m, "db", "names", 0) == Pass
  {
    var c := Container("c1", "img", "cmd", "now", "Up", "", "web");
    var m := OrderedMap(["c1"], map["c1" := c]);
    assert m.Valid();
    NotRunningAsWrittenRaises(m, "db");
    NotRunningSpec(m, "db", 0);
  }

  /** The suite object: the baseline taken by `get_initial_state` and the
      ids passed to `docker rm -f` so far. */
  class DockerSuite {
    var containers: OrderedMap<Container>
    var removed: seq<string>

    ghost predicate Valid()
      reads this
    {
      containers.Valid()
    }

    constructor()
      ensures Valid() && containers.keys == [] && removed == []
    {
      containers := OrderedMap([], map[]);
      removed := [];
    }

    /** `_get_containers(all)`. */
    method GetContainers(all: bool, out: Fetch) returns (r: Result<OrderedMap<Container>>)
      ensures r == ContainerSnapshot(all, out)
      ensures r.Ok? ==> r.value.Valid()
    {
      ContainerSnapshotValid(all, out);
      if out.Failed? {
        return Err(CommandFailed(DockerPs(all)));
      }
      r := BuildSnapshot(out.lines, ParseContainer, ContainerKey);
    }

    /** `get_initial_state`: the baseline lists stopped containers too. */
    method GetInitialState(out: Fetch) returns (r: Outcome)
      requires Valid()
      modifies this`containers
      ensures Valid()
      ensures ContainerSnapshot(true, out).Err? ==>
        r == Fail(ContainerSnapshot(true, out).error) && containers == old(containers)
      ensures ContainerSnapshot(true, out).Ok? ==> r == Pass && containers == ContainerSnapshot(true, out).value
    {
      var s := GetContainers(true, out);
      if s.Err? {
        return Fail(s.error);
      }
      containers := s.value;
      r := Pass;
    }

    /** `tearDown`: list all containers and remove each one whose id is not
        in the baseline, in the snapshot's key order. */
    method TearDown(out: Fetch) returns (r: Outcome)
      modifies this`removed
      ensures Removals(out, containers).Err? ==>
        r == Fail(Removals(out, containers).error) && removed == old(removed)
      ensures Removals(out, containers).Ok? ==>
        r == Pass && removed == old(removed) + Removals(out, containers).value
    {
      var s := GetContainers(true, out);
      if s.Err? {
        return Fail(s.error);
      }
      assert Removals(out, containers) == Ok(Delta(s.value.keys, containers.entries.Keys));
      RemoveNew(s.value.keys, containers.entries.Keys);
      r := Pass;
    }

    /** The loop of `tearDown`: `docker rm -f` each id not in the baseline. */
    method RemoveNew(current: seq<string>, baseline: set<string>)
      modifies this`removed
      ensures removed == old(removed) + Delta(current, baseline)
    {
      var i := 0;
      while i < |current|
        invariant 0 <= i <= |current|
        invariant removed == old(removed) + Delta(current[..i], baseline)
      {
        DeltaNext(current, baseline, i);
        if current[i] !in baseline {
          removed := removed + [current[i]];
        }
        i := i + 1;
      }
      assert current[..i] == current;
    }

    /** `assertContainerRunning(name)`: passes as soon as a running
        container's names equal `name`. */
    method AssertContainerRunning(name: string, out: Fetch) returns (r: Outcome)
      ensures ContainerSnapshot(false, out).Err? ==> r == Fail(ContainerSnapshot(false, out).error)
      ensures ContainerSnapshot(false, out).Ok? ==>
        if HasContainerNamed(ContainerSnapshot(false, out).value, name) then r == Pass
        else r == Fail(AssertionFailed("Container: " + name + " not running."))
    {
      var s := GetContainers(false, out);
      if s.Err? {
        return Fail(s.error);
      }
      var m := s.value;
      var i := 0;
      while i < |m.keys|
        invariant 0 <= i <= |m.keys|
        invariant forall j :: 0 <= j < i ==> m.entries[m.keys[j]].names != name
      {
        var c := m.entries[m.keys[i]];
        ContainerHasNamesNotName(c);
        var v := Lookup(c, "names");
        if v.value == name {
          return Pass;
        }
        i := i + 1;
      }
      NoneNamed(m, name);
      r := Fail(AssertionFailed("Container: " + name + " not running."));
    }

    /** The loop `assertContainerNotRunning` runs over a snapshot, reading
        `field` of each record. */
    method ScanNotRunning(m: OrderedMap<Container>, name: string, field: string) returns (r: Outcome)
      requires m.Valid()
      ensures r == NotRunningFrom(m, name, field, 0)
    {
      var i := 0;
      while i < |m.keys|
        invariant 0 <= i <= |m.keys|
        invariant NotRunningFrom(m, name, field, 0) == NotRunningFrom(m, name, field, i)
      {
        var c := m.entries[m.keys[i]];
        var v := Lookup(c, field);
        if v.Err? {
          return Fail(v.error);
        }
        if v.value == name {
          return Fail(AssertionFailed("Container: " + name + " is running"));
        }
        i := i + 1;
      }
      r := Pass;
    }

    /** `assertContainerNotRunning(name)` as written: it reads the key
        "name", so it raises a KeyError as soon as anything is running. */
    method AssertContainerNotRunningAsWritten(name: string, out: Fetch) returns (r: Outcome)
      ensures ContainerSnapshot(false, out).Err? ==> r == Fail(ContainerSnapshot(false, out).error)
      ensures ContainerSnapshot(false, out).Ok? && |ContainerSnapshot(false, out).value.keys| == 0 ==> r == Pass
      ensures ContainerSnapshot(false, out).Ok? && |ContainerSnapshot(false, out).value.keys| > 0 ==>
        r == Fail(KeyLookup("name"))
    {
      var s := GetContainers(false, out);
      if s.Err? {
        return Fail(s.error);
      }
      r := ScanNotRunning(s.value, name, "name");
      NotRunningAsWrittenRaises(s.value, name);
    }

    /** `assertContainerNotRunning(name)` reading "names", as
        `assertContainerRunning` does: passes exactly when no running
        container has that name. */
    method AssertContainerNotRunning(name: string, out: Fetch) returns (r: Outcome)
      ensures ContainerSnapshot(false, out).Err? ==> r == Fail(ContainerSnapshot(false, out).error)
      ensures ContainerSnapshot(false, out).Ok? ==>
        if HasContainerNamed(ContainerSnapshot(false, out).value, name)
        then r == Fail(AssertionFailed("Container: " + name + " is running"))
        else r == Pass
    {
      var s := GetContainers(false, out);
      if s.Err? {
        return Fail(s.error);
      }
      r := ScanNotRunning(s.value, name, "names");
      NotRunningSpec(s.value, name, 0);
      NoneNamed(s.value, name);
    }
  }
}
