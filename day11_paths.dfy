/**
 * Counting the paths from the device "you" to the device "out"
 * (Rust/2025/day_11/src/main.rs, part one). Each input line `id: a b c`
 * lists the devices an id feeds. A recursive solver walks the graph from
 * "you", pushing each node's path count onto the nodes it feeds, and keeps
 * the ids on the current walk in a trace set so that no cycle is followed
 * twice.
 */
module Day11Paths {
  import opened Wrappers
  import opened RustText

  /**
   * One entry of the connection table: the ids this node feeds, the paths
   * counted into it, whether the solver has finished with it before, and a
   * dead-end flag.
   */
  datatype Node = Node(targets: seq<string>, count: nat, visited: bool, deadEnd: bool)

  const DefaultNode := Node([], 0, false, false)

  /**
   * A line with nothing after `": "` (an error with an empty message in
   * the source), E2 (the current id has no entry) and E5 (a newly traced
   * neighbour has no entry).
   */
  datatype PathError = MissingTargets(line: string) | MissingCurrent(id: string) | MissingConnected(id: string)

  // ---- reading the table -------------------------------------------------------------

  predicate HasTargets(line: string) {
    |Split(line, ": ")| >= 2
  }

  /** The id a line describes: the text before the first `": "`. */
  function Source(line: string): string {
    Split(line, ": ")[0]
  }

  /**
   * The ids a line lists: the second `": "` piece split at single spaces,
   * empty pieces included; none for a line without `": "`.
   */
  function Targets(line: string): seq<string> {
    var parts := Split(line, ": ");
    if |parts| >= 2 then Split(parts[1], " ") else []
  }

  /** The ids that head some line. */
  function Sources(lines: seq<string>): set<string> {
    if lines == [] then {} else Sources(lines[..|lines| - 1]) + {Source(lines[|lines| - 1])}
  }

  /** Every target listed for `id`, line by line, in input order. */
  function TargetsOf(lines: seq<string>, id: string): seq<string>
  {
    if lines == [] then []
    else
      var last := lines[|lines| - 1];
      TargetsOf(lines[..|lines| - 1], id) + (if Source(last) == id then Targets(last) else [])
  }

  /** One iteration of the reading loop: the source gets an entry, then its targets are appended. */
  function AddLine(connections: map<string, Node>, line: string): Result<map<string, Node>, PathError> {
    if !HasTargets(line) then Err(MissingTargets(line))
    else
      var source := Source(line);
      var node := if source in connections then connections[source] else DefaultNode;
      Ok(connections[source := node.(targets := node.targets + Targets(line))])
  }

  /**
   * The table `part_one::calculate` reads, line by line; the first line
   * without `": "` is the error. `ParseConnectionsTable` says what the table
   * holds.
   */
  function ParseConnections(lines: seq<string>): (r: Result<map<string, Node>, PathError>)
    ensures r.Ok? <==> forall i :: 0 <= i < |lines| ==> HasTargets(lines[i])
    ensures r.Err? ==> exists i :: 0 <= i < |lines| && !HasTargets(lines[i]) && r.error == MissingTargets(lines[i])
  {
    if lines == [] then Ok(map[])
    else
      var prefix := lines[..|lines| - 1];
      assert forall i :: 0 <= i < |prefix| ==> prefix[i] == lines[i];
      match ParseConnections(prefix)
      case Err(e) => Err(e)
      case Ok(connections) => AddLine(connections, lines[|lines| - 1])
  }

  /**
   * The table read from `lines` has one entry per line head, holding all of
   * that id's targets in input order, with everything else at its default.
   */
  lemma {:induction false} ParseConnectionsTable(lines: seq<string>)
    requires ParseConnections(lines).Ok?
    ensures ParseConnections(lines).value.Keys == Sources(lines)
    ensures forall id :: id in ParseConnections(lines).value ==>
      ParseConnections(lines).value[id] == Node(TargetsOf(lines, id), 0, false, false)
  {
    if lines != [] {
      var prefix := lines[..|lines| - 1];
      var last := lines[|lines| - 1];
      ParseConnectionsTable(prefix);
      var connections := ParseConnections(prefix).value;
      assert lines == prefix + [last];
      AddLineTargets(prefix, last, connections);
    }
  }

  /** Adding a line to the table of the lines before it gives each id the targets of all of them. */
  lemma AddLineTargets(prefix: seq<string>, last: string, connections: map<string, Node>)
    requires HasTargets(last)
    requires connections.Keys == Sources(prefix)
    requires forall id :: id in connections ==> connections[id] == Node(TargetsOf(prefix, id), 0, false, false)
    ensures forall id :: id in AddLine(connections, last).value ==>
      AddLine(connections, last).value[id] == Node(TargetsOf(prefix + [last], id), 0, false, false)
  {
    var lines := prefix + [last];
    assert lines[..|lines| - 1] == prefix && lines[|lines| - 1] == last;
    var source := Source(last);
    var node := if source in connections then connections[source] else DefaultNode;
    TargetsOfAbsent(prefix, source);
    assert node.targets == TargetsOf(prefix, source);
    forall id | id in AddLine(connections, last).value
      ensures AddLine(connections, last).value[id] == Node(TargetsOf(lines, id), 0, false, false)
    {
      if id != source {
        assert TargetsOf(lines, id) == TargetsOf(prefix, id) + [];
      }
    }
  }

  /** An id that heads no line has no targets. */
  lemma {:induction false} TargetsOfAbsent(lines: seq<string>, id: string)
    ensures id !in Sources(lines) ==> TargetsOf(lines, id) == []
  {
    if lines != [] {
      TargetsOfAbsent(lines[..|lines| - 1], id);
    }
  }

  /** Before solving, "you" counts one path and "out" has an entry. */
  function Seed(connections: map<string, Node>): (r: map<string, Node>)
    ensures r.Keys == connections.Keys + {"you", "out"}
    ensures r["you"].count == 1
    ensures r["you"] == (if "you" in connections then connections["you"] else DefaultNode).(count := 1)
    ensures "out" != "you" ==> r["out"] == if "out" in connections then connections["out"] else DefaultNode
    ensures forall id :: id in connections && id != "you" ==> r[id] == connections[id]
  {
    var you := if "you" in connections then connections["you"] else DefaultNode;
    var seeded := connections["you" := you.(count := 1)];
    if "out" in seeded then seeded else seeded["out" := DefaultNode]
  }

  // ---- the solver as a function of the state -------------------------------------------

  datatype State = State(connections: map<string, Node>, trace: set<string>)

  /**
   * What a solver call may do to the table: no key comes or goes, targets
   * and dead-end flags stay, counts only grow and a node once visited stays
   * visited.
   */
  ghost predicate Evolves(before: map<string, Node>, after: map<string, Node>) {
    after.Keys == before.Keys
    && forall id :: id in before ==>
      after[id].targets == before[id].targets && after[id].deadEnd == before[id].deadEnd
      && after[id].count >= before[id].count && (before[id].visited ==> after[id].visited)
  }

  /**
   * `part_one::solver` as a function of the table and the trace. An id
   * without an entry is E2; a node flagged as a dead end returns `false` and
   * changes nothing. Otherwise its targets are processed in order, then it
   * is marked visited and its id leaves the trace. The result is `true`
   * when no child call returned `true`. The count of the current node must
   * be at least `lastCost`, which makes every subtraction safe in `u64`.
   */
  ghost function SolveSpec(s: State, current: string, lastCost: nat): (r: (Result<bool, PathError>, State))
    requires current in s.connections ==> lastCost <= s.connections[current].count
    decreases s.connections.Keys - s.trace, 1, 0, 0
    ensures r.1.connections.Keys == s.connections.Keys
    ensures r.1.trace >= s.trace - {current}
  {
    if current !in s.connections then (Err(MissingCurrent(current)), s)
    else
      var node := s.connections[current];
      if node.deadEnd then (Ok(false), s)
      else
        match LoopSpec(s, s.trace, current, node, lastCost, 0, true)
        case (Err(e), after) => (Err(e), after)
        case (Ok(deadEnd), after) =>
          var finished := after.connections[current].(visited := true);
          (Ok(deadEnd), State(after.connections[current := finished], after.trace - {current}))
  }

  /**
   * One pass of the loop of `part_one::solver`, over target `j` of `node`,
   * the copy of the current node taken on entry; `entry` is the trace on
   * entry. The target joins the trace. One that was not in it yet, unless
   * the current id is "out", is fed and solved; one without an entry is E5.
   */
  ghost function StepSpec(s: State, entry: set<string>, current: string, node: Node, lastCost: nat, j: nat, deadEnd: bool)
    : (r: (Result<bool, PathError>, State))
    requires entry <= s.trace && j < |node.targets| && lastCost <= node.count
    decreases s.connections.Keys - entry, 0, |node.targets| - j, 1
    ensures r.1.connections.Keys == s.connections.Keys
    ensures r.1.trace >= s.trace
  {
    var id := node.targets[j];
    var traced := State(s.connections, s.trace + {id});
    if id in s.trace || current == "out" then (Ok(deadEnd), traced)
    else if id !in s.connections then (Err(MissingConnected(id)), traced)
    else FeedSpec(traced, entry, id, node, lastCost, deadEnd)
  }

  /**
   * A neighbour `id` that has just joined the trace gets the count of
   * `node` (or, once `node` is visited, its count less `lastCost`) added to
   * its own and is solved in turn with its old count as the cost; a child
   * returning `true` clears the dead-end result.
   */
  ghost function FeedSpec(s: State, entry: set<string>, id: string, node: Node, lastCost: nat, deadEnd: bool)
    : (r: (Result<bool, PathError>, State))
    requires entry <= s.trace && id in s.trace && id !in entry && id in s.connections && lastCost <= node.count
    decreases s.connections.Keys - entry, 0, 0, 0
    ensures r.1.connections.Keys == s.connections.Keys
    ensures r.1.trace >= s.trace - {id}
  {
    var oldCost := s.connections[id].count;
    var added := if !node.visited then node.count else node.count - lastCost;
    var before := State(s.connections[id := s.connections[id].(count := oldCost + added)], s.trace);
    match SolveSpec(before, id, oldCost)
    case (Err(e), after) => (Err(e), after)
    case (Ok(childDeadEnd), after) => (Ok(if childDeadEnd then false else deadEnd), after)
  }

  /** The loop of `part_one::solver` from target `j` on; the first error ends it. */
  ghost function LoopSpec(s: State, entry: set<string>, current: string, node: Node, lastCost: nat, j: nat, deadEnd: bool)
    : (r: (Result<bool, PathError>, State))
    requires entry <= s.trace && j <= |node.targets| && lastCost <= node.count
    decreases s.connections.Keys - entry, 0, |node.targets| - j, 2
    ensures r.1.connections.Keys == s.connections.Keys
    ensures r.1.trace >= s.trace
  {
    if j == |node.targets| then (Ok(deadEnd), s)
    else
      match StepSpec(s, entry, current, node, lastCost, j, deadEnd)
      case (Err(e), after) => (Err(e), after)
      case (Ok(stillDeadEnd), after) => LoopSpec(after, entry, current, node, lastCost, j + 1, stillDeadEnd)
  }

  /** `part_one::calculate` after reading: seed, solve from "you", answer with the count of "out". */
  ghost function CalculateSpec(lines: seq<string>): Result<nat, PathError> {
    match ParseConnections(lines)
    case Err(e) => Err(e)
    case Ok(connections) =>
      match SolveSpec(State(Seed(connections), {}), "you", 0)
      case (Err(e), _) => Err(e)
      case (Ok(_), after) => Ok(after.connections["out"].count)
  }

  // ---- the solver as a class -------------------------------------------------------------

  /** The table and the trace that `part_one::solver` borrows mutably. */
  class PathCounter {
    var connections: map<string, Node>
    var pathTrace: set<string>

    constructor (connections: map<string, Node>)
      ensures this.connections == connections && pathTrace == {}
    {
      this.connections := connections;
      pathTrace := {};
    }

    /**
     * `part_one::solver`. `depth` counts the calls above this one; each of
     * them put a fresh key into the trace, so the depth never exceeds the
     * number of keys.
     */
    method Solve(current: string, lastCost: nat, ghost depth: nat) returns (r: Result<bool, PathError>)
      requires current in connections ==> lastCost <= connections[current].count
      requires depth <= |connections.Keys * pathTrace| <= |connections.Keys|
      modifies this
      decreases connections.Keys - pathTrace, 3
      ensures (r, State(connections, pathTrace)) == SolveSpec(old(State(connections, pathTrace)), current, lastCost)
    {
      if current !in connections {
        return Err(MissingCurrent(current));
      }
      var node := connections[current];
      if node.deadEnd {
        return Ok(false);
      }
      var deadEnd := ProcessTargets(current, node, lastCost, pathTrace, depth);
      if deadEnd.Err? {
        return deadEnd;
      }
      connections := connections[current := connections[current].(visited := true)];
      pathTrace := pathTrace - {current};
      r := deadEnd;
    }

    /**
     * The loop of `part_one::solver` over the targets of the copy `node` of
     * the current node; `entry` is the trace when the solver call began.
     */
    method ProcessTargets(current: string, node: Node, lastCost: nat, ghost entry: set<string>, ghost depth: nat)
      returns (r: Result<bool, PathError>)
      requires entry <= pathTrace && lastCost <= node.count
      requires depth <= |connections.Keys * entry| <= |connections.Keys|
      modifies this
      decreases connections.Keys - entry, 2
      ensures (r, State(connections, pathTrace)) == LoopSpec(old(State(connections, pathTrace)), entry, current, node, lastCost, 0, true)
    {
      ghost var start := State(connections, pathTrace);
      var deadEnd := true;
      for j := 0 to |node.targets|
        invariant entry <= pathTrace && connections.Keys == start.connections.Keys
        invariant LoopSpec(State(connections, pathTrace), entry, current, node, lastCost, j, deadEnd)
          == LoopSpec(start, entry, current, node, lastCost, 0, true)
      {
        var step := VisitTarget(current, node, lastCost, entry, depth, j, deadEnd);
        if step.Err? {
          return step;
        }
        deadEnd := step.value;
      }
      r := Ok(deadEnd);
    }

    /** One pass of that loop, over target `j`. */
    method VisitTarget(current: string, node: Node, lastCost: nat, ghost entry: set<string>, ghost depth: nat, j: nat, deadEnd: bool)
      returns (r: Result<bool, PathError>)
      requires entry <= pathTrace && j < |node.targets| && lastCost <= node.count
      requires depth <= |connections.Keys * entry| <= |connections.Keys|
      modifies this
      decreases connections.Keys - entry, 1
      ensures (r, State(connections, pathTrace)) == StepSpec(old(State(connections, pathTrace)), entry, current, node, lastCost, j, deadEnd)
    {
      var id := node.targets[j];
      var inserted := id !in pathTrace;
      pathTrace := pathTrace + {id};
      if !(inserted && current != "out") {
        return Ok(deadEnd);
      }
      if id !in connections {
        return Err(MissingConnected(id));
      }
      r := FeedTarget(id, node, lastCost, entry, depth, deadEnd);
    }

    /** Feeding the newly traced neighbour `id` and solving it. */
    method FeedTarget(id: string, node: Node, lastCost: nat, ghost entry: set<string>, ghost depth: nat, deadEnd: bool)
      returns (r: Result<bool, PathError>)
      requires entry <= pathTrace && id in pathTrace && id !in entry && id in connections && lastCost <= node.count
      requires depth <= |connections.Keys * entry| <= |connections.Keys|
      modifies this
      decreases connections.Keys - entry, 0
      ensures (r, State(connections, pathTrace)) == FeedSpec(old(State(connections, pathTrace)), entry, id, node, lastCost, deadEnd)
    {
      ghost var keys := connections.Keys;
      var oldCost := connections[id].count;
      var added := if !node.visited then node.count else node.count - lastCost;
      connections := connections[id := connections[id].(count := oldCost + added)];
      assert connections.Keys == keys;
      TraceGrows(keys, entry, pathTrace, id);
      var child := Solve(id, oldCost, depth + 1);
      if child.Err? {
        return Err(child.error);
      }
      r := Ok(if child.value then false else deadEnd);
    }
  }

  // ---- what the solver promises -----------------------------------------------------------

  /** The only errors a solver call can end with: E2 for its own id, E5 for a neighbour that is not a key. */
  ghost predicate SolveError(connections: map<string, Node>, current: string, e: PathError) {
    (e == MissingCurrent(current) && current !in connections) || (e.MissingConnected? && e.id !in connections)
  }

  /**
   * A solver call changes the table only as `Evolves` allows, and fails
   * only with E2 (its own id is not a key, and then always) or E5 (a
   * neighbour it traced is not a key).
   */
  lemma {:induction false} SolveKeepsShape(s: State, current: string, lastCost: nat)
    requires current in s.connections ==> lastCost <= s.connections[current].count
    decreases s.connections.Keys - s.trace, 1, 0, 0
    ensures Evolves(s.connections, SolveSpec(s, current, lastCost).1.connections)
    ensures current !in s.connections ==> SolveSpec(s, current, lastCost).0 == Err(MissingCurrent(current))
    ensures SolveSpec(s, current, lastCost).0.Err? ==> SolveError(s.connections, current, SolveSpec(s, current, lastCost).0.error)
  {
    if current in s.connections && !s.connections[current].deadEnd {
      var node := s.connections[current];
      LoopKeepsShape(s, s.trace, current, node, lastCost, 0, true);
    }
  }

  lemma {:induction false} LoopKeepsShape(s: State, entry: set<string>, current: string, node: Node, lastCost: nat, j: nat, deadEnd: bool)
    requires entry <= s.trace && j <= |node.targets| && lastCost <= node.count
    decreases s.connections.Keys - entry, 0, |node.targets| - j, 2
    ensures Evolves(s.connections, LoopSpec(s, entry, current, node, lastCost, j, deadEnd).1.connections)
    ensures LoopSpec(s, entry, current, node, lastCost, j, deadEnd).0.Err? ==>
      var e := LoopSpec(s, entry, current, node, lastCost, j, deadEnd).0.error;
      e.MissingConnected? && e.id !in s.connections
  {
    if j < |node.targets| {
      StepKeepsShape(s, entry, current, node, lastCost, j, deadEnd);
      var (step, after) := StepSpec(s, entry, current, node, lastCost, j, deadEnd);
      if step.Ok? {
        LoopKeepsShape(after, entry, current, node, lastCost, j + 1, step.value);
      }
    }
  }

  lemma {:induction false} StepKeepsShape(s: State, entry: set<string>, current: string, node: Node, lastCost: nat, j: nat, deadEnd: bool)
    requires entry <= s.trace && j < |node.targets| && lastCost <= node.count
    decreases s.connections.Keys - entry, 0, |node.targets| - j, 1
    ensures Evolves(s.connections, StepSpec(s, entry, current, node, lastCost, j, deadEnd).1.connections)
    ensures StepSpec(s, entry, current, node, lastCost, j, deadEnd).0.Err? ==>
      var e := StepSpec(s, entry, current, node, lastCost, j, deadEnd).0.error;
      e.MissingConnected? && e.id !in s.connections
  {
    var id := node.targets[j];
    if id !in s.trace && current != "out" && id in s.connections {
      FeedKeepsShape(State(s.connections, s.trace + {id}), entry, id, node, lastCost, deadEnd);
    }
  }

  lemma {:induction false} FeedKeepsShape(s: State, entry: set<string>, id: string, node: Node, lastCost: nat, deadEnd: bool)
    requires entry <= s.trace && id in s.trace && id !in entry && id in s.connections && lastCost <= node.count
    decreases s.connections.Keys - entry, 0, 0, 0
    ensures Evolves(s.connections, FeedSpec(s, entry, id, node, lastCost, deadEnd).1.connections)
    ensures FeedSpec(s, entry, id, node, lastCost, deadEnd).0.Err? ==>
      var e := FeedSpec(s, entry, id, node, lastCost, deadEnd).0.error;
      e.MissingConnected? && e.id !in s.connections
  {
    var oldCost := s.connections[id].count;
    var added := if !node.visited then node.count else node.count - lastCost;
    var before := State(s.connections[id := s.connections[id].(count := oldCost + added)], s.trace);
    var child := SolveSpec(before, id, oldCost);
    assert FeedSpec(s, entry, id, node, lastCost, deadEnd).1 == child.1;
    assert child.0.Err? ==> FeedSpec(s, entry, id, node, lastCost, deadEnd).0 == child.0;
    EvolvesByRaise(s.connections, id, added);
    SolveKeepsShape(before, id, oldCost);
    EvolvesTransitive(s.connections, before.connections, child.1.connections);
    assert before.connections.Keys == s.connections.Keys;
  }

  /** Raising one count is a change `Evolves` allows. */
  lemma EvolvesByRaise(connections: map<string, Node>, id: string, added: nat)
    requires id in connections
    ensures Evolves(connections, connections[id := connections[id].(count := connections[id].count + added)])
  {
  }

  lemma EvolvesTransitive(a: map<string, Node>, b: map<string, Node>, c: map<string, Node>)
    requires Evolves(a, b) && Evolves(b, c)
    ensures Evolves(a, c)
  {
  }

  /**
   * A call that returns `Ok` for a node that is not flagged as a dead end
   * leaves that node marked visited and its id out of the trace.
   */
  lemma SolveFinishes(s: State, current: string, lastCost: nat)
    requires current in s.connections ==> lastCost <= s.connections[current].count
    requires current in s.connections && !s.connections[current].deadEnd
    requires SolveSpec(s, current, lastCost).0.Ok?
    ensures SolveSpec(s, current, lastCost).1.connections[current].visited
    ensures current !in SolveSpec(s, current, lastCost).1.trace
  {
  }

  /** The targets of `node` from index `j` on. */
  function TargetsFrom(node: Node, j: nat): (r: set<string>)
    requires j <= |node.targets|
    ensures forall k :: j <= k < |node.targets| ==> node.targets[k] in r
    ensures forall id :: id in r ==> exists k :: j <= k < |node.targets| && node.targets[k] == id
  {
    set k | j <= k < |node.targets| :: node.targets[k]
  }

  /** At "out" the loop only puts the targets into the trace: no count changes and no call is made. */
  lemma {:induction false} LoopAtOut(s: State, entry: set<string>, node: Node, lastCost: nat, j: nat, deadEnd: bool)
    requires entry <= s.trace && j <= |node.targets| && lastCost <= node.count
    decreases |node.targets| - j
    ensures LoopSpec(s, entry, "out", node, lastCost, j, deadEnd) == (Ok(deadEnd), State(s.connections, s.trace + TargetsFrom(node, j)))
  {
    if j < |node.targets| {
      var traced := State(s.connections, s.trace + {node.targets[j]});
      LoopAtOut(traced, entry, node, lastCost, j + 1, deadEnd);
      assert traced.trace + TargetsFrom(node, j + 1) == s.trace + TargetsFrom(node, j);
    } else {
      assert s.trace + TargetsFrom(node, j) == s.trace;
    }
  }

  /**
   * Solving "out" returns `Ok(true)`: its neighbours join the trace but are
   * never solved, its count stays, and it is marked visited.
   */
  lemma SolveAtOut(s: State, lastCost: nat)
    requires "out" in s.connections && lastCost <= s.connections["out"].count && !s.connections["out"].deadEnd
    ensures SolveSpec(s, "out", lastCost) == (Ok(true), State(
      s.connections["out" := s.connections["out"].(visited := true)],
      s.trace + TargetsFrom(s.connections["out"], 0) - {"out"}))
  {
    LoopAtOut(s, s.trace, s.connections["out"], lastCost, 0, true);
  }

  /**
   * No table the reader builds has a dead-end flag set, so after seeding
   * the early `Ok(false)` return of the solver can never be taken.
   */
  lemma SeededHasNoDeadEnds(lines: seq<string>)
    requires ParseConnections(lines).Ok?
    ensures forall id :: id in Seed(ParseConnections(lines).value) ==> !Seed(ParseConnections(lines).value)[id].deadEnd
  {
    ParseConnectionsTable(lines);
  }

  /** A fresh key joining the trace adds one to the keys it covers. */
  lemma TraceGrows(keys: set<string>, entry: set<string>, trace: set<string>, id: string)
    requires entry <= trace - {id} && id in keys && id !in entry && id in trace
    ensures |keys * trace| >= |keys * entry| + 1
    ensures |keys * trace| <= |keys|
  {
    assert keys * entry + {id} <= keys * trace;
    assert id !in keys * entry;
    SubsetSize(keys * entry + {id}, keys * trace);
    SubsetSize(keys * trace, keys);
  }

  lemma {:induction false} SubsetSize<T>(a: set<T>, b: set<T>)
    requires a <= b
    decreases |b|
    ensures |a| <= |b|
  {
    if a != {} {
      var x :| x in a;
      SubsetSize(a - {x}, b - {x});
    }
  }

  /**
   * One pass of the reading loop of `part_one::calculate`: the source gets
   * an entry (`or_default`), then each target is pushed onto its list.
   */
  method ReadLine(connections: map<string, Node>, line: string) returns (r: Result<map<string, Node>, PathError>)
    ensures r == AddLine(connections, line)
  {
    var parts := Split(line, ": ");
    var source := parts[0];
    var node := if source in connections then connections[source] else DefaultNode;
    var updated := connections[source := node];
    if |parts| < 2 {
      return Err(MissingTargets(line));
    }
    var targets := Split(parts[1], " ");
    assert node.targets + targets[..0] == node.targets;
    for k := 0 to |targets|
      invariant updated == connections[source := node.(targets := node.targets + targets[..k])]
    {
      assert node.targets + targets[..k + 1] == (node.targets + targets[..k]) + [targets[k]];
      updated := updated[source := updated[source].(targets := updated[source].targets + [targets[k]])];
    }
    assert targets[..|targets|] == targets;
    r := Ok(updated);
  }

  /** The reading loop of `part_one::calculate`; the first line without `": "` ends it with an error. */
  method ReadConnections(lines: seq<string>) returns (r: Result<map<string, Node>, PathError>)
    ensures r == ParseConnections(lines)
  {
    var connections: map<string, Node> := map[];
    for i := 0 to |lines|
      invariant ParseConnections(lines[..i]) == Ok(connections)
    {
      var read := ReadLine(connections, lines[i]);
      ParseStep(lines, i);
      if read.Err? {
        ParseFailurePersists(lines, i + 1);
        return read;
      }
      connections := read.value;
    }
    assert lines[..|lines|] == lines;
    r := Ok(connections);
  }

  /** `part_one::calculate` on the lines of the input. */
  method Calculate(lines: seq<string>) returns (r: Result<nat, PathError>)
    ensures r == CalculateSpec(lines)
  {
    var read := ReadConnections(lines);
    if read.Err? {
      return Err(read.error);
    }
    var connections := read.value;
    var you := if "you" in connections then connections["you"] else DefaultNode;
    connections := connections["you" := you.(count := 1)];
    if "out" !in connections {
      connections := connections["out" := DefaultNode];
    }
    var counter := new PathCounter(connections);
    var solved := counter.Solve("you", 0, 0);
    if solved.Err? {
      return Err(solved.error);
    }
    r := Ok(counter.connections["out"].count);
  }

  /** Reading one more line is one more `AddLine`. */
  lemma ParseStep(lines: seq<string>, i: nat)
    requires i < |lines| && ParseConnections(lines[..i]).Ok?
    ensures ParseConnections(lines[..i + 1]) == AddLine(ParseConnections(lines[..i]).value, lines[i])
  {
    assert lines[..i + 1][..i] == lines[..i];
  }

  lemma {:induction false} ParseFailurePersists(lines: seq<string>, n: nat)
    requires n <= |lines| && ParseConnections(lines[..n]).Err?
    decreases |lines| - n
    ensures ParseConnections(lines) == ParseConnections(lines[..n])
  {
    if n < |lines| {
      assert lines[..n + 1][..n] == lines[..n];
      ParseFailurePersists(lines, n + 1);
    } else {
      assert lines[..n] == lines;
    }
  }

  /** A line `a: b` whose parts hold no colon heads `a` and lists the space-separated pieces of `b`. */
  lemma LineParts(a: string, b: string)
    requires ':' !in a && ':' !in b
    ensures HasTargets(a + ": " + b) && Source(a + ": " + b) == a && Targets(a + ": " + b) == Split(b, " ")
  {
    SplitAtOnly(a, ": ", b);
  }

  /** The first line of the example: "you" feeds "a" and "b". */
  lemma ExampleLineYou()
    ensures HasTargets("you: a b") && Source("you: a b") == "you" && Targets("you: a b") == ["a", "b"]
  {
    assert "you: a b" == "you" + ": " + "a b";
    LineParts("you", "a b");
    assert "a b" == "a" + " " + "b";
    SplitAtOnly("a", " ", "b");
  }

  /** A line `id: out`. */
  lemma ExampleLineOut(id: string)
    requires ':' !in id
    ensures HasTargets(id + ": out") && Source(id + ": out") == id && Targets(id + ": out") == ["out"]
  {
    assert id + ": out" == id + ": " + "out";
    LineParts(id, "out");
    SplitFree("out", " ");
  }

  const ExampleLines := ["you: a b", "a: out", "b: out"]

  lemma ExampleFirstLine()
    ensures ParseConnections(ExampleLines[..1]) == Ok(map["you" := Node(["a", "b"], 0, false, false)])
  {
    ExampleLineYou();
    assert DefaultNode.targets + ["a", "b"] == ["a", "b"];
    assert ExampleLines[..0] == [];
    ParseStep(ExampleLines, 0);
  }

  lemma ExampleSecondLine()
    ensures AddLine(map["you" := Node(["a", "b"], 0, false, false)], ExampleLines[1]) == Ok(map[
      "you" := Node(["a", "b"], 0, false, false),
      "a" := Node(["out"], 0, false, false)])
  {
    ExampleLineOut("a");
    assert ExampleLines[1] == "a" + ": out";
    assert DefaultNode.targets + ["out"] == ["out"];
  }

  lemma ExampleFirstTwoLines()
    ensures ParseConnections(ExampleLines[..2]) == Ok(map[
      "you" := Node(["a", "b"], 0, false, false),
      "a" := Node(["out"], 0, false, false)])
  {
    ExampleFirstLine();
    ExampleSecondLine();
    ParseStep(ExampleLines, 1);
  }

  lemma ExampleThirdLine()
    ensures AddLine(map[
      "you" := Node(["a", "b"], 0, false, false),
      "a" := Node(["out"], 0, false, false)], ExampleLines[2]) == Ok(map[
      "you" := Node(["a", "b"], 0, false, false),
      "a" := Node(["out"], 0, false, false),
      "b" := Node(["out"], 0, false, false)])
  {
    ExampleLineOut("b");
    assert ExampleLines[2] == "b" + ": out";
    assert DefaultNode.targets + ["out"] == ["out"];
  }

  /** The table of the example: "you" feeds "a" and "b", and both feed "out". */
  lemma ExampleTable()
    ensures ParseConnections(ExampleLines) == Ok(map[
      "you" := Node(["a", "b"], 0, false, false),
      "a" := Node(["out"], 0, false, false),
      "b" := Node(["out"], 0, false, false)])
  {
    ExampleFirstTwoLines();
    ExampleThirdLine();
    ParseStep(ExampleLines, 2);
    assert ExampleLines[..3] == ExampleLines;
  }

  /**
   * Solving an unvisited node whose one target is "out", with "out" not on
   * the trace and feeding nothing, adds the node's count to that of "out",
   * marks both visited and returns `Ok(false)`: the node is no dead end.
   */
  lemma SolveFeedsOut(s: State, id: string, lastCost: nat)
    requires id != "out" && id in s.connections && "out" in s.connections && "out" !in s.trace
    requires s.connections[id].targets == ["out"] && !s.connections[id].visited && !s.connections[id].deadEnd
    requires lastCost <= s.connections[id].count
    requires s.connections["out"].targets == [] && !s.connections["out"].deadEnd
    ensures SolveSpec(s, id, lastCost) == (Ok(false), State(
      s.connections["out" := s.connections["out"].(count := s.connections["out"].count + s.connections[id].count, visited := true)]
        [id := s.connections[id].(visited := true)],
      s.trace - {id}))
  {
    var node := s.connections[id];
    var out := s.connections["out"];
    var before := State(s.connections["out" := out.(count := out.count + node.count)], s.trace + {"out"});
    SolveAtOut(before, out.count);
    assert TargetsFrom(before.connections["out"], 0) == {};
    assert before.trace - {"out"} == s.trace;
    var fed := State(before.connections["out" := before.connections["out"].(visited := true)], s.trace);
    assert StepSpec(s, s.trace, id, node, lastCost, 0, true) == (Ok(false), fed);
    assert LoopSpec(fed, s.trace, id, node, lastCost, 1, false) == (Ok(false), fed);
    assert LoopSpec(s, s.trace, id, node, lastCost, 0, true) == (Ok(false), fed);
    assert fed.connections == s.connections["out" := out.(count := out.count + node.count, visited := true)];
    assert fed.connections[id] == node;
  }

  const ExampleSeeded := map[
    "you" := Node(["a", "b"], 1, false, false),
    "a" := Node(["out"], 0, false, false),
    "b" := Node(["out"], 0, false, false),
    "out" := DefaultNode]

  /** Seeding the example table gives "you" one path and adds "out". */
  lemma ExampleSeed()
    ensures Seed(map[
      "you" := Node(["a", "b"], 0, false, false),
      "a" := Node(["out"], 0, false, false),
      "b" := Node(["out"], 0, false, false)]) == ExampleSeeded
  {
  }

  /** The table after "a" is solved: it has passed its one path on to "out". */
  const ExampleAfterA := map[
    "you" := Node(["a", "b"], 1, false, false),
    "a" := Node(["out"], 1, true, false),
    "b" := Node(["out"], 0, false, false),
    "out" := Node([], 1, true, false)]

  /** The table after "b" is solved as well. */
  const ExampleAfterB := map[
    "you" := Node(["a", "b"], 1, false, false),
    "a" := Node(["out"], 1, true, false),
    "b" := Node(["out"], 1, true, false),
    "out" := Node([], 2, true, false)]

  /** The first target of "you": "a" gets one path and solving it gives "out" one. */
  lemma ExampleVisitA()
    ensures StepSpec(State(ExampleSeeded, {}), {}, "you", ExampleSeeded["you"], 0, 0, true) == (Ok(true), State(ExampleAfterA, {}))
  {
    var first := State(ExampleSeeded["a" := Node(["out"], 1, false, false)], {"a"});
    SolveFeedsOut(first, "a", 0);
    assert {"a"} - {"a"} == {} && {} + {"a"} == {"a"};
    assert first.connections["out" := Node([], 1, true, false)]["a" := Node(["out"], 1, true, false)] == ExampleAfterA;
  }

  /** The second target of "you": "b" gets one path and solving it gives "out" a second one. */
  lemma ExampleVisitB()
    ensures StepSpec(State(ExampleAfterA, {}), {}, "you", ExampleSeeded["you"], 0, 1, true) == (Ok(true), State(ExampleAfterB, {}))
  {
    var second := State(ExampleAfterA["b" := Node(["out"], 1, false, false)], {"b"});
    SolveFeedsOut(second, "b", 0);
    assert {"b"} - {"b"} == {} && {} + {"b"} == {"b"};
    assert second.connections["out" := Node([], 2, true, false)]["b" := Node(["out"], 1, true, false)] == ExampleAfterB;
  }

  /**
   * Solving the example from "you": both "a" and "b" pass their count on to
   * "out". Each of them reaches "out", so each returns `false`; no child of
   * "you" returns `true`, so "you" returns `true`.
   */
  lemma ExampleSolve()
    ensures SolveSpec(State(ExampleSeeded, {}), "you", 0) == (Ok(true), State(ExampleAfterB["you" := Node(["a", "b"], 1, true, false)], {}))
  {
    var you := ExampleSeeded["you"];
    ExampleVisitA();
    ExampleVisitB();
    assert LoopSpec(State(ExampleAfterB, {}), {}, "you", you, 0, 2, true) == (Ok(true), State(ExampleAfterB, {}));
    assert LoopSpec(State(ExampleAfterA, {}), {}, "you", you, 0, 1, true) == (Ok(true), State(ExampleAfterB, {}));
    assert {} - {"you"} == {};
  }

  /** Two paths lead from "you" to "out" in the example, one through "a" and one through "b". */
  lemma ExampleCountsTwoPaths()
    ensures CalculateSpec(ExampleLines) == Ok(2)
  {
    ExampleTable();
    ExampleSeed();
    ExampleSolve();
  }
}
