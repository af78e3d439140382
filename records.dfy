/** The listing-line parsers: one line of `kubectl get pods`,
    `kubectl get services`, `kubectl get rc` or `docker ps` becomes one
    record (a dict in the harness), or the unpacking fails. */
module Records {
  import opened Common
  import opened Split

  datatype Pod = Pod(name: string, ready: string, status: string, restarts: string, age: string)
  datatype Service = Service(name: string, labels: string, selector: string, ips: string, ports: string)
  datatype Rc = Rc(controller: string, container: string, image: string, selector: string, replicas: string)
  datatype Container = Container(
    id: string, image: string, command: string, created: string,
    status: string, ports: string, names: string)

  /** The fields of each record in declared (column) order. */
  function PodFields(p: Pod): seq<string> {
    [p.name, p.ready, p.status, p.restarts, p.age]
  }

  function ServiceFields(s: Service): seq<string> {
    [s.name, s.labels, s.selector, s.ips, s.ports]
  }

  function RcFields(r: Rc): seq<string> {
    [r.controller, r.container, r.image, r.selector, r.replicas]
  }

  function ContainerFields(c: Container): seq<string> {
    [c.id, c.image, c.command, c.created, c.status, c.ports, c.names]
  }

  /** The key each snapshot files a record under. */
  function PodKey(p: Pod): string { p.name }
  function ServiceKey(s: Service): string { s.name }
  function RcKey(r: Rc): string { r.controller }
  function ContainerKey(c: Container): string { c.id }

  /** `name, ready, status, restarts, age = line.split()`: exactly five
      tokens make a pod, field by field; any other count is a ValueError
      and no record at all. */
  function ParsePod(line: string): (r: Result<Pod>)
    ensures r.Ok? <==> |Tokens(line)| == 5
    ensures r.Ok? ==> PodFields(r.value) == Tokens(line)
    ensures r.Err? ==> r.error == Unpack(5, |Tokens(line)|)
  {
    var w := Tokens(line);
    if |w| == 5 then Ok(Pod(w[0], w[1], w[2], w[3], w[4])) else Err(Unpack(5, |w|))
  }

  function ParseService(line: string): (r: Result<Service>)
    ensures r.Ok? <==> |Tokens(line)| == 5
    ensures r.Ok? ==> ServiceFields(r.value) == Tokens(line)
    ensures r.Err? ==> r.error == Unpack(5, |Tokens(line)|)
  {
    var w := Tokens(line);
    if |w| == 5 then Ok(Service(w[0], w[1], w[2], w[3], w[4])) else Err(Unpack(5, |w|))
  }

  function ParseRc(line: string): (r: Result<Rc>)
    ensures r.Ok? <==> |Tokens(line)| == 5
    ensures r.Ok? ==> RcFields(r.value) == Tokens(line)
    ensures r.Err? ==> r.error == Unpack(5, |Tokens(line)|)
  {
    var w := Tokens(line);
    if |w| == 5 then Ok(Rc(w[0], w[1], w[2], w[3], w[4])) else Err(Unpack(5, |w|))
  }

  /** `docker ps` row: split on runs of two or more spaces; six pieces get an
      empty ports column inserted before the last (names); seven map in
      order; any other count fails to unpack into seven names. */
  function ParseContainer(line: string): (r: Result<Container>)
    ensures r.Ok? <==> (|SplitGaps(line)| == 6 || |SplitGaps(line)| == 7)
    ensures r.Ok? && |SplitGaps(line)| == 7 ==> ContainerFields(r.value) == SplitGaps(line)
    ensures r.Ok? && |SplitGaps(line)| == 6 ==>
      ContainerFields(r.value) == SplitGaps(line)[..5] + ["", SplitGaps(line)[5]]
    ensures r.Err? ==> r.error == Unpack(7, |SplitGaps(line)|)
  {
    var words := SplitGaps(line);
    var w := if |words| == 6 then words[..5] + [""] + words[5..] else words;
    if |w| == 7 then Ok(Container(w[0], w[1], w[2], w[3], w[4], w[5], w[6]))
    else Err(Unpack(7, |w|))
  }

  /** The dict the harness builds for a container, and a lookup in it. */
  function ContainerDict(c: Container): map<string, string> {
    map["id" := c.id, "image" := c.image, "command" := c.command, "created" := c.created,
        "status" := c.status, "ports" := c.ports, "names" := c.names]
  }

  function Lookup(c: Container, field: string): (r: Result<string>)
    ensures r.Ok? <==> field in ContainerDict(c)
    ensures r.Ok? ==> r.value == ContainerDict(c)[field]
    ensures r.Err? ==> r.error == KeyLookup(field)
  {
    var d := ContainerDict(c);
    if field in d then Ok(d[field]) else Err(KeyLookup(field))
  }

  /** A container record answers for "names" but never for "name". */
  lemma ContainerHasNamesNotName(c: Container)
    ensures Lookup(c, "names") == Ok(c.names)
    ensures Lookup(c, "name") == Err(KeyLookup("name"))
  {
    var d := ContainerDict(c);
    assert "names" in d && d["names"] == c.names;
    assert d.Keys == {"id", "image", "command", "created", "status", "ports", "names"};
    assert "name" != "names" && "name" != "image" && "name" != "id";
  }

  // ---------------------------------------------------------------------
  // Round trips: a record printed as the provider prints it parses back.
  // ---------------------------------------------------------------------

  predicate AllTokens(fields: seq<string>) {
    forall f :: f in fields ==> IsToken(f)
  }

  /** A pod row as `kubectl get pods` prints it, each column padded to its
      own width, parses back to the pod; likewise services and rcs. */
  lemma PodRoundTrip(p: Pod, lead: string, seps: seq<string>, trail: string)
    requires AllTokens(PodFields(p))
    requires AllSpace(lead) && Separators(seps, 5) && AllSpace(trail)
    ensures ParsePod(lead + JoinWith(PodFields(p), seps) + trail) == Ok(p)
  {
    TokensRoundTrip(PodFields(p), lead, seps, trail);
  }

  lemma ServiceRoundTrip(s: Service, lead: string, seps: seq<string>, trail: string)
    requires AllTokens(ServiceFields(s))
    requires AllSpace(lead) && Separators(seps, 5) && AllSpace(trail)
    ensures ParseService(lead + JoinWith(ServiceFields(s), seps) + trail) == Ok(s)
  {
    TokensRoundTrip(ServiceFields(s), lead, seps, trail);
  }

  lemma RcRoundTrip(r: Rc, lead: string, seps: seq<string>, trail: string)
    requires AllTokens(RcFields(r))
    requires AllSpace(lead) && Separators(seps, 5) && AllSpace(trail)
    ensures ParseRc(lead + JoinWith(RcFields(r), seps) + trail) == Ok(r)
  {
    TokensRoundTrip(RcFields(r), lead, seps, trail);
  }

  /** The columns `docker ps` prints for a container: the ports column is
      blank (absent from the split) when the container publishes nothing. */
  function Columns(c: Container): (cols: seq<string>)
    ensures |cols| == (if c.ports == "" then 6 else 7)
  {
    if c.ports == "" then [c.id, c.image, c.command, c.created, c.status, c.names]
    else ContainerFields(c)
  }

  predicate WellFormedContainer(c: Container) {
    IsCell(c.id) && IsCell(c.image) && IsCell(c.command) && IsCell(c.created)
    && IsCell(c.status) && IsCell(c.names) && (c.ports == "" || IsCell(c.ports))
  }

  /** Round trip: a container rendered with any column widths (each
      separator at least two spaces) parses back to itself, whether or not
      its ports column is blank. */
  lemma ContainerRoundTrip(c: Container, gaps: seq<nat>)
    requires WellFormedContainer(c)
    requires |gaps| == |Columns(c)| - 1
    ensures ParseContainer(Layout(Columns(c), gaps)) == Ok(c)
  {
    var cols := Columns(c);
    assert forall x :: x in cols ==> IsCell(x);
    SplitGapsLayout(cols, gaps);
    if c.ports == "" {
      BlankPortsRestored(c);
    }
  }

  /** Inserting the blank ports column into the six printed columns gives
      back the seven fields. */
  lemma BlankPortsRestored(c: Container)
    requires c.ports == ""
    ensures Columns(c)[..5] + [""] + Columns(c)[5..] == ContainerFields(c)
  {
  }

  /** A row padded on the left gains an empty first piece, so a six-column
      row is read as seven and every column shifts one place: the id reads
      as "", the printed id lands in `image`, and the printed status lands
      in `ports`. */
  lemma ContainerLeadingPadShifts(cells: seq<string>, gaps: seq<nat>, g: nat)
    requires |cells| == 6 && |gaps| == 5 && g >= 2
    requires forall x :: x in cells ==> IsCell(x)
    ensures ParseContainer(Spaces(g) + Layout(cells, gaps))
            == Ok(Container("", cells[0], cells[1], cells[2], cells[3], cells[4], cells[5]))
  {
    var body := Layout(cells, gaps);
    assert cells[0] in cells;
    LayoutStart(cells, gaps);
    SplitGapsLeadingPad(g, body);
    SplitGapsLayout(cells, gaps);
  }
}
