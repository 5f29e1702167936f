/** The usage sweep: a worklist closure over the crate graph, and the drift rules that rely on it. */
module Consolidation {
  import opened Wrappers

  /** Each crate of the tree with the crates it depends on. */
  type Graph = map<string, seq<string>>

  /** A dependency path that stays within the tree. */
  predicate Path(graph: Graph, path: seq<string>) {
    && path != []
    && (forall k :: 0 <= k < |path| ==> path[k] in graph)
    && (forall k :: 0 <= k < |path| - 1 ==> path[k] in graph && path[k + 1] in graph[path[k]])
  }

  /** Some supported workflow exercises the crate. */
  ghost predicate Reached(roots: seq<string>, graph: Graph, name: string) {
    exists path :: Path(graph, path) && path[0] in roots && path[|path| - 1] == name
  }

  lemma RootIsReached(roots: seq<string>, graph: Graph, name: string)
    requires name in roots && name in graph
    ensures Reached(roots, graph, name)
  {
    assert Path(graph, [name]);
  }

  lemma EdgeIsReached(roots: seq<string>, graph: Graph, name: string, next: string)
    requires Reached(roots, graph, name) && name in graph && next in graph[name] && next in graph
    ensures Reached(roots, graph, next)
  {
    var path :| Path(graph, path) && path[0] in roots && path[|path| - 1] == name;
    var longer := path + [next];
    forall k | 0 <= k < |longer| - 1 ensures longer[k] in graph && longer[k + 1] in graph[longer[k]] {
    }
    assert Path(graph, longer) && longer[|longer| - 1] == next;
  }

  /** `name` has been dealt with, or waits on the stack, or is not a crate of the tree. */
  predicate Pending(graph: Graph, seen: set<string>, stack: seq<string>, name: string) {
    name in seen || name in stack || name !in graph
  }

  /** What the worklist keeps: everything found is reached, and nothing reachable has been dropped. */
  ghost predicate Sweeping(roots: seq<string>, graph: Graph, seen: set<string>, stack: seq<string>) {
    && seen <= graph.Keys
    && (forall name :: name in seen ==> Reached(roots, graph, name))
    && (forall name :: name in stack && name in graph ==> Reached(roots, graph, name))
    && (forall name :: name in roots ==> Pending(graph, seen, stack, name))
    && (forall name, next :: name in seen && next in graph[name] ==> Pending(graph, seen, stack, next))
  }

  lemma StartSweep(roots: seq<string>, graph: Graph)
    ensures Sweeping(roots, graph, {}, roots)
  {
    forall name | name in roots && name in graph ensures Reached(roots, graph, name) {
      RootIsReached(roots, graph, name);
    }
  }

  lemma SkipKeepsSweep(roots: seq<string>, graph: Graph, seen: set<string>, stack: seq<string>)
    requires stack != [] && Sweeping(roots, graph, seen, stack)
    requires var top := stack[|stack| - 1]; top !in graph || top in seen
    ensures Sweeping(roots, graph, seen, stack[..|stack| - 1])
  {
    hide Reached;
    var rest := stack[..|stack| - 1];
    assert stack == rest + [stack[|stack| - 1]];
    forall name | Pending(graph, seen, stack, name) ensures Pending(graph, seen, rest, name) {
    }
  }

  lemma VisitKeepsSweep(roots: seq<string>, graph: Graph, seen: set<string>, stack: seq<string>)
    requires stack != [] && Sweeping(roots, graph, seen, stack)
    requires stack[|stack| - 1] in graph
    ensures var top := stack[|stack| - 1];
            Sweeping(roots, graph, seen + {top}, stack[..|stack| - 1] + graph[top])
  {
    hide Reached;
    var rest, top := stack[..|stack| - 1], stack[|stack| - 1];
    assert stack == rest + [top];
    assert top in stack;
    forall name | Pending(graph, seen, stack, name) || name in graph[top]
      ensures Pending(graph, seen + {top}, rest + graph[top], name)
    {
    }
    forall next | next in graph[top] && next in graph ensures Reached(roots, graph, next) {
      EdgeIsReached(roots, graph, top, next);
    }
  }

  lemma {:induction false} SweptPathIsSeen(roots: seq<string>, graph: Graph, seen: set<string>, path: seq<string>)
    requires Sweeping(roots, graph, seen, []) && Path(graph, path) && path[0] in roots
    ensures path[|path| - 1] in seen
    decreases |path|
  {
    hide Reached;
    if |path| == 1 {
      assert Pending(graph, seen, [], path[0]);
    } else {
      var front := path[..|path| - 1];
      SweptPathIsSeen(roots, graph, seen, front);
      var name, next := path[|path| - 2], path[|path| - 2 + 1];
      assert front[|front| - 1] == name && next in graph[name];
      assert Pending(graph, seen, [], next);
    }
  }

  /** A finished sweep has found exactly the reached crates. */
  lemma FinishedSweepIsExact(roots: seq<string>, graph: Graph, seen: set<string>)
    requires Sweeping(roots, graph, seen, [])
    ensures forall name :: name in seen <==> Reached(roots, graph, name)
  {
    forall name | Reached(roots, graph, name) ensures name in seen {
      var path :| Path(graph, path) && path[0] in roots && path[|path| - 1] == name;
      SweptPathIsSeen(roots, graph, seen, path);
    }
  }

  /** Terminates on every graph: cycles, repeated roots and dangling edges included. */
  method Reachable(roots: seq<string>, graph: Graph) returns (seen: set<string>)
    ensures forall name :: name in seen <==> Reached(roots, graph, name)
    ensures seen <= graph.Keys
  {
    hide Sweeping, Reached;
    seen := {};
    var stack := roots;
    StartSweep(roots, graph);
    ghost var left := graph.Keys;
    while stack != []
      invariant Sweeping(roots, graph, seen, stack)
      invariant left == graph.Keys - seen
      decreases left, |stack|
    {
      var name := stack[|stack| - 1];
      if name !in graph || name in seen {
        SkipKeepsSweep(roots, graph, seen, stack);
        stack := stack[..|stack| - 1];
      } else {
        VisitKeepsSweep(roots, graph, seen, stack);
        seen := seen + {name};
        stack := stack[..|stack| - 1] + graph[name];
        assert name in left;
        left := left - {name};
      }
    }
    FinishedSweepIsExact(roots, graph, seen);
    assert seen <= graph.Keys by {
      SweepStaysInTree(roots, graph, seen, stack);
    }
  }

  lemma SweepStaysInTree(roots: seq<string>, graph: Graph, seen: set<string>, stack: seq<string>)
    requires Sweeping(roots, graph, seen, stack)
    ensures seen <= graph.Keys
  {
  }

  // ----- The drift rules -----

  const DISPOSITIONS := {"CONSOLIDATE", "FREEZE", "KEEP", "REPAIR-OR-QUARANTINE", "RETIRE"}
  const PARKED := {"CONSOLIDATE", "FREEZE", "REPAIR-OR-QUARANTINE"}

  /** One entry of a review's candidate list, as far as the rules look at it. */
  datatype Candidate = Malformed | Nameless | Candidate(name: string, disposition: string, explained: bool)

  datatype Violation =
    | MissingControl(name: string)
    | BrokenSweep(name: string)
    | BadEntry(index: nat)
    | UnknownDisposition(name: string)
    | MissingRationale(name: string)
    | NotInTree(name: string)
    | ListedTwice(name: string)
    | Undispositioned(name: string)
    | FalselyParked(name: string)

  /** The last disposition recorded for each candidate. */
  function Dispositions(candidates: seq<Candidate>): map<string, string> {
    if candidates == [] then map[]
    else
      var before, last := Dispositions(candidates[..|candidates| - 1]), candidates[|candidates| - 1];
      if last.Candidate? then before[last.name := last.disposition] else before
  }

  /** Faults of the entry at `index`, given what was recorded before it. */
  function EntryFaults(graph: Graph, before: map<string, string>, entry: Candidate, index: nat): seq<Violation> {
    if !entry.Candidate? then [BadEntry(index)]
    else
      (if entry.disposition in DISPOSITIONS then [] else [UnknownDisposition(entry.name)])
      + (if entry.explained then [] else [MissingRationale(entry.name)])
      + (if entry.name in graph then [] else [NotInTree(entry.name)])
      + (if entry.name in before then [ListedTwice(entry.name)] else [])
  }

  predicate KnownControl(graph: Graph, control: string) {
    control != "" && control in graph
  }

  /** The known-exercised crate must be found, or the sweep proves nothing. */
  ghost predicate Broken(roots: seq<string>, graph: Graph, control: string) {
    KnownControl(graph, control) && !Reached(roots, graph, control)
  }

  /** The two rules on candidates, as they should hold of a review. */
  ghost predicate Undecided(roots: seq<string>, graph: Graph, candidates: seq<Candidate>, name: string) {
    name in graph && !Reached(roots, graph, name) && name !in Dispositions(candidates)
  }

  ghost predicate Outgrown(roots: seq<string>, graph: Graph, candidates: seq<Candidate>, name: string) {
    name in Dispositions(candidates) && Dispositions(candidates)[name] in PARKED && Reached(roots, graph, name)
  }

  /** Entry `i` has fault `v`. */
  ghost predicate FaultOf(graph: Graph, candidates: seq<Candidate>, i: int, v: Violation) {
    0 <= i < |candidates| && v in EntryFaults(graph, Dispositions(candidates[..i]), candidates[i], i)
  }

  /** Records every candidate and the faults of its entry. */
  method CandidatePass(graph: Graph, candidates: seq<Candidate>)
    returns (violations: seq<Violation>, dispositioned: map<string, string>)
    ensures dispositioned == Dispositions(candidates)
    ensures forall v :: v in violations <==> exists i :: FaultOf(graph, candidates, i, v)
  {
    violations := [];
    dispositioned := map[];
    assert candidates[..0] == [];
    for i := 0 to |candidates|
      invariant dispositioned == Dispositions(candidates[..i])
      invariant forall v :: v in violations <==> exists k :: k < i && FaultOf(graph, candidates, k, v)
    {
      var entry := candidates[i];
      assert candidates[..i + 1][..i] == candidates[..i];
      var faults := EntryFaults(graph, dispositioned, entry, i);
      assert forall v :: v in faults <==> FaultOf(graph, candidates, i, v);
      hide EntryFaults, FaultOf;
      violations := violations + faults;
      if entry.Candidate? {
        dispositioned := dispositioned[entry.name := entry.disposition];
      }
    }
    assert candidates[..|candidates|] == candidates;
    assert forall i, v :: FaultOf(graph, candidates, i, v) ==> i < |candidates|;
  }

  lemma EntryFaultsAreTheirOwn(graph: Graph, candidates: seq<Candidate>, i: int, v: Violation)
    requires FaultOf(graph, candidates, i, v)
    ensures !v.MissingControl? && !v.BrokenSweep? && !v.Undispositioned? && !v.FalselyParked?
  {
  }

  /** The violations of a review: the entry faults and the three drifts, each exactly where it occurs. */
  ghost predicate Reports(
    violations: seq<Violation>, roots: seq<string>, graph: Graph, control: string, candidates: seq<Candidate>) {
    && (forall v :: v in violations ==>
            || v in [MissingControl(control), BrokenSweep(control)]
            || (exists i :: FaultOf(graph, candidates, i, v))
            || v.Undispositioned? || v.FalselyParked?)
    && (forall i, v :: FaultOf(graph, candidates, i, v) ==> v in violations)
    && (MissingControl(control) in violations <==> !KnownControl(graph, control))
    && (BrokenSweep(control) in violations <==> Broken(roots, graph, control))
    && (forall name :: Undispositioned(name) in violations <==> Undecided(roots, graph, candidates, name))
    && (forall name :: FalselyParked(name) in violations <==> Outgrown(roots, graph, candidates, name))
  }

  /** The control crate, the candidate pass, then both drift rules over everything recorded. */
  method CheckReview(roots: seq<string>, graph: Graph, control: string, candidates: seq<Candidate>)
    returns (violations: seq<Violation>)
    ensures Reports(violations, roots, graph, control, candidates)
  {
    hide Reached, Dispositions, FaultOf;
    var reached := Reachable(roots, graph);
    var broken :=
      if !KnownControl(graph, control) then [MissingControl(control)]
      else if control !in reached then [BrokenSweep(control)]
      else [];
    var faults, dispositioned := CandidatePass(graph, candidates);
    forall i, v | FaultOf(graph, candidates, i, v)
      ensures !v.MissingControl? && !v.BrokenSweep? && !v.Undispositioned? && !v.FalselyParked?
    {
      EntryFaultsAreTheirOwn(graph, candidates, i, v);
    }
    var undecided := graph.Keys - reached - dispositioned.Keys;
    var outgrown := set name | name in dispositioned && dispositioned[name] in PARKED && name in reached;
    assert forall name :: name in undecided <==> Undecided(roots, graph, candidates, name);
    assert forall name :: name in outgrown <==> Outgrown(roots, graph, candidates, name);
    hide Undecided, Outgrown;
    var drifted := Drifted(undecided, name => Undispositioned(name));
    var parked := Drifted(outgrown, name => FalselyParked(name));
    violations := broken + faults + drifted + parked;
  }

  /** One violation per name. */
  method Drifted(names: set<string>, report: string -> Violation) returns (violations: seq<Violation>)
    ensures forall v :: v in violations <==> exists name :: name in names && v == report(name)
  {
    violations := [];
    var left := names;
    while left != {}
      invariant left <= names
      invariant forall v :: v in violations <==> exists name :: name in names - left && v == report(name)
      decreases left
    {
      var name :| name in left;
      assert names - (left - {name}) == (names - left) + {name};
      violations := violations + [report(name)];
      left := left - {name};
    }
    assert names - left == names;
  }

  // ----- What a report tells -----

  /** Entry `i` is well formed and names a crate. */
  predicate Entry(candidates: seq<Candidate>, i: int) {
    0 <= i < |candidates| && candidates[i].Candidate?
  }

  /** Entry `i` is for crate `name`. */
  predicate Names(candidates: seq<Candidate>, i: int, name: string) {
    Entry(candidates, i) && candidates[i].name == name
  }

  /** What is recorded for a crate comes from an entry that names it. */
  lemma {:induction false} RecordedByAnEntry(candidates: seq<Candidate>, name: string)
    ensures name in Dispositions(candidates) <==> exists i :: Entry(candidates, i) && candidates[i].name == name
    ensures name in Dispositions(candidates) ==>
              exists i :: Entry(candidates, i) && candidates[i].name == name
                          && candidates[i].disposition == Dispositions(candidates)[name]
  {
    if candidates != [] {
      var n := |candidates| - 1;
      var before := candidates[..n];
      RecordedByAnEntry(before, name);
      assert forall i :: Entry(before, i) ==> Entry(candidates, i) && before[i] == candidates[i];
      assert forall i :: Entry(candidates, i) && i < n ==> Entry(before, i);
      if Entry(candidates, n) && candidates[n].name == name {
        assert Dispositions(candidates)[name] == candidates[n].disposition;
      }
    }
  }

  /** What a fault says about entry `i`. */
  ghost predicate Describes(graph: Graph, candidates: seq<Candidate>, i: int, v: Violation) {
    match v
    case BadEntry(index) => index == i && 0 <= i < |candidates| && !candidates[i].Candidate?
    case UnknownDisposition(name) =>
      && Names(candidates, i, name)
      && candidates[i].disposition !in ["CONSOLIDATE", "FREEZE", "KEEP", "REPAIR-OR-QUARANTINE", "RETIRE"]
    case MissingRationale(name) => Names(candidates, i, name) && !candidates[i].explained
    case NotInTree(name) => Names(candidates, i, name) && name !in graph
    case ListedTwice(name) => Names(candidates, i, name) && exists j :: j < i && Names(candidates, j, name)
    case _ => false
  }

  lemma EntryFaultMembers(graph: Graph, before: map<string, string>, entry: Candidate, index: nat, v: Violation)
    ensures v in EntryFaults(graph, before, entry, index) <==>
            if !entry.Candidate? then v == BadEntry(index)
            else
              || (v == UnknownDisposition(entry.name) && entry.disposition !in DISPOSITIONS)
              || (v == MissingRationale(entry.name) && !entry.explained)
              || (v == NotInTree(entry.name) && entry.name !in graph)
              || (v == ListedTwice(entry.name) && entry.name in before)
  {
  }

  lemma RecordedEarlier(candidates: seq<Candidate>, i: nat, name: string)
    requires i <= |candidates|
    ensures name in Dispositions(candidates[..i]) <==> exists j :: j < i && Names(candidates, j, name)
  {
    hide Dispositions;
    RecordedByAnEntry(candidates[..i], name);
    assert forall j :: Entry(candidates[..i], j) && candidates[..i][j].name == name <==>
                       j < i && Names(candidates, j, name);
  }

  lemma FaultDescribesEntry(graph: Graph, candidates: seq<Candidate>, i: int, v: Violation)
    ensures FaultOf(graph, candidates, i, v) <==> Describes(graph, candidates, i, v)
  {
    hide Dispositions, EntryFaults;
    if 0 <= i < |candidates| {
      var entry := candidates[i];
      EntryFaultMembers(graph, Dispositions(candidates[..i]), entry, i, v);
      if entry.Candidate? {
        RecordedEarlier(candidates, i, entry.name);
      }
    }
  }

  /** Each fault of an entry is reported exactly when some entry has it. */
  lemma EntryFaultsAreExact(
    violations: seq<Violation>, roots: seq<string>, graph: Graph, control: string, candidates: seq<Candidate>,
    v: Violation)
    requires Reports(violations, roots, graph, control, candidates)
    requires !v.MissingControl? && !v.BrokenSweep? && !v.Undispositioned? && !v.FalselyParked?
    ensures v in violations <==> exists i :: Describes(graph, candidates, i, v)
  {
    hide Describes, FaultOf, Reached, Broken, Undecided, Outgrown;
    forall i ensures FaultOf(graph, candidates, i, v) <==> Describes(graph, candidates, i, v) {
      FaultDescribesEntry(graph, candidates, i, v);
    }
  }

  /** A sound entry: a known disposition with its rationale, for a crate of the tree. */
  predicate Sound(graph: Graph, entry: Candidate) {
    entry.Candidate? && entry.disposition in DISPOSITIONS && entry.explained && entry.name in graph
  }

  /** Entries have no fault exactly when all are sound and no two name one crate. */
  lemma FaultlessEntries(graph: Graph, candidates: seq<Candidate>)
    ensures (forall i, v :: !FaultOf(graph, candidates, i, v)) <==>
              && (forall i :: 0 <= i < |candidates| ==> Sound(graph, candidates[i]))
              && (forall i, j :: Entry(candidates, i) && Entry(candidates, j) && i < j ==>
                    candidates[i].name != candidates[j].name)
  {
    forall j | 0 <= j < |candidates|
      ensures (forall v :: !FaultOf(graph, candidates, j, v)) <==>
                && Sound(graph, candidates[j])
                && (forall i :: Entry(candidates, i) && i < j ==> candidates[i].name != candidates[j].name)
    {
      EntryIsFaultless(graph, candidates, j);
    }
    assert forall i, v :: FaultOf(graph, candidates, i, v) ==> 0 <= i < |candidates|;
    hide FaultOf, Sound;
  }

  lemma EntryIsFaultless(graph: Graph, candidates: seq<Candidate>, j: int)
    requires 0 <= j < |candidates|
    ensures (forall v :: !FaultOf(graph, candidates, j, v)) <==>
              && Sound(graph, candidates[j])
              && (forall i :: Entry(candidates, i) && i < j ==> candidates[i].name != candidates[j].name)
  {
    hide Dispositions;
    var before, entry := candidates[..j], candidates[j];
    var faults := EntryFaults(graph, Dispositions(before), entry, j);
    assert (forall v :: !FaultOf(graph, candidates, j, v)) <==> faults == [] by {
      assert forall v :: FaultOf(graph, candidates, j, v) <==> v in faults;
      assert faults != [] ==> faults[0] in faults;
    }
    if entry.Candidate? {
      RecordedByAnEntry(before, entry.name);
      assert forall i :: Entry(before, i) <==> Entry(candidates, i) && i < j;
    }
  }

  /** With distinct names, what is recorded for an entry's crate is the entry's disposition. */
  lemma DistinctEntriesAreRecorded(candidates: seq<Candidate>, i: int)
    requires Entry(candidates, i)
    requires forall k, j :: Entry(candidates, k) && Entry(candidates, j) && k < j ==>
               candidates[k].name != candidates[j].name
    ensures candidates[i].name in Dispositions(candidates)
    ensures Dispositions(candidates)[candidates[i].name] == candidates[i].disposition
  {
    hide Dispositions;
    RecordedByAnEntry(candidates, candidates[i].name);
  }

  /** The crate is named by an entry. */
  ghost predicate Listed(candidates: seq<Candidate>, name: string) {
    exists i :: Entry(candidates, i) && candidates[i].name == name
  }

  /** Without drift each crate is in use or listed, and nothing parked is in use; and only then. */
  lemma NoDriftMeansCovered(
    violations: seq<Violation>, roots: seq<string>, graph: Graph, control: string, candidates: seq<Candidate>)
    requires Reports(violations, roots, graph, control, candidates)
    ensures (forall name :: Undispositioned(name) !in violations) <==>
            (forall name :: name in graph ==> Reached(roots, graph, name) || Listed(candidates, name))
    ensures (forall name :: FalselyParked(name) !in violations) <==>
            (forall name :: name in Dispositions(candidates) && Dispositions(candidates)[name] in PARKED ==>
               !Reached(roots, graph, name))
  {
    hide *;
    forall name
      ensures Undispositioned(name) in violations <==>
              name in graph && !Reached(roots, graph, name) && !Listed(candidates, name)
      ensures FalselyParked(name) in violations <==>
              && name in Dispositions(candidates) && Dispositions(candidates)[name] in PARKED
              && Reached(roots, graph, name)
    {
      ChargedExactly(violations, roots, graph, control, candidates, name);
    }
  }

  lemma ChargedExactly(
    violations: seq<Violation>, roots: seq<string>, graph: Graph, control: string, candidates: seq<Candidate>,
    name: string)
    requires Reports(violations, roots, graph, control, candidates)
    ensures Undispositioned(name) in violations <==>
            name in graph && !Reached(roots, graph, name) && !Listed(candidates, name)
    ensures FalselyParked(name) in violations <==>
            && name in Dispositions(candidates) && Dispositions(candidates)[name] in PARKED
            && Reached(roots, graph, name)
  {
    hide Reached, Dispositions, FaultOf;
    RecordedByAnEntry(candidates, name);
    assert Undispositioned(name) in violations <==> Undecided(roots, graph, candidates, name);
    assert FalselyParked(name) in violations <==> Outgrown(roots, graph, candidates, name);
  }

  /**
   A review passes exactly when the control crate is in use, every entry is sound and the only one for
   its crate, every other crate of the tree is in use, and no parked crate is.
   */
  lemma PassingReview(
    violations: seq<Violation>, roots: seq<string>, graph: Graph, control: string, candidates: seq<Candidate>)
    requires Reports(violations, roots, graph, control, candidates)
    ensures violations == [] <==>
              && control != "" && Reached(roots, graph, control)
              && (forall i :: 0 <= i < |candidates| ==> Sound(graph, candidates[i]))
              && (forall i, j :: Entry(candidates, i) && Entry(candidates, j) && i < j ==>
                    candidates[i].name != candidates[j].name)
              && (forall name :: name in graph ==> Reached(roots, graph, name) || Listed(candidates, name))
              && (forall i :: Entry(candidates, i) && candidates[i].disposition in PARKED ==>
                    !Reached(roots, graph, candidates[i].name))
  {
    NoViolationOfAnyKind(violations, roots, graph, control, candidates);
    NoDriftMeansCovered(violations, roots, graph, control, candidates);
    FaultlessEntries(graph, candidates);
    ControlIsReached(roots, graph, control);
    hide *;
    if forall i, j :: Entry(candidates, i) && Entry(candidates, j) && i < j ==>
         candidates[i].name != candidates[j].name
    {
      ParkedByAnEntry(roots, graph, candidates);
    }
  }

  lemma NoViolationOfAnyKind(
    violations: seq<Violation>, roots: seq<string>, graph: Graph, control: string, candidates: seq<Candidate>)
    requires Reports(violations, roots, graph, control, candidates)
    ensures violations == [] <==>
              && KnownControl(graph, control) && !Broken(roots, graph, control)
              && (forall i, v :: !FaultOf(graph, candidates, i, v))
              && (forall name :: Undispositioned(name) !in violations)
              && (forall name :: FalselyParked(name) !in violations)
  {
    hide Reached, FaultOf, Undecided, Outgrown, Broken;
    if violations != [] {
      var v := violations[0];
      assert v in violations;
      assert v.Undispositioned? ==> v == Undispositioned(v.name);
      assert v.FalselyParked? ==> v == FalselyParked(v.name);
    }
  }

  lemma ControlIsReached(roots: seq<string>, graph: Graph, control: string)
    ensures KnownControl(graph, control) && !Broken(roots, graph, control) <==>
            control != "" && Reached(roots, graph, control)
  {
  }

  lemma ParkedByAnEntry(roots: seq<string>, graph: Graph, candidates: seq<Candidate>)
    requires forall i, j :: Entry(candidates, i) && Entry(candidates, j) && i < j ==>
               candidates[i].name != candidates[j].name
    ensures (forall name :: name in Dispositions(candidates) && Dispositions(candidates)[name] in PARKED ==>
               !Reached(roots, graph, name)) <==>
            (forall i :: Entry(candidates, i) && candidates[i].disposition in PARKED ==>
               !Reached(roots, graph, candidates[i].name))
  {
    hide Reached, Dispositions;
    forall i | Entry(candidates, i)
      ensures candidates[i].name in Dispositions(candidates)
      ensures Dispositions(candidates)[candidates[i].name] == candidates[i].disposition
    {
      DistinctEntriesAreRecorded(candidates, i);
    }
    forall name | name in Dispositions(candidates)
      ensures exists i :: Entry(candidates, i) && candidates[i].name == name
                          && candidates[i].disposition == Dispositions(candidates)[name]
    {
      RecordedByAnEntry(candidates, name);
    }
  }

  // ----- Where the code and its introduction disagree -----

  /**
   Of the crates that are in use, the report charges those whose recorded disposition parks them; the
   introduction promises to charge every one with a disposition, which therefore holds exactly when
   all of them are parked.
   */
  lemma OnlyParkedDispositionsGoStale(
    violations: seq<Violation>, roots: seq<string>, graph: Graph, control: string, candidates: seq<Candidate>)
    requires Reports(violations, roots, graph, control, candidates)
    ensures forall name :: name in Dispositions(candidates) && Reached(roots, graph, name) ==>
              (FalselyParked(name) in violations <==> Dispositions(candidates)[name] in PARKED)
    ensures (forall name :: name in Dispositions(candidates) && Reached(roots, graph, name) ==>
               FalselyParked(name) in violations) <==>
            (forall name :: name in Dispositions(candidates) && Reached(roots, graph, name) ==>
               Dispositions(candidates)[name] in PARKED)
  {
    hide *;
    forall name | name in Dispositions(candidates) && Reached(roots, graph, name)
      ensures FalselyParked(name) in violations <==> Dispositions(candidates)[name] in PARKED
    {
      ChargedExactly(violations, roots, graph, control, candidates, name);
    }
  }

  /** A crate kept on record and in use by a workflow: the introduction calls it stale, the report is empty. */
  lemma KeptCrateInUseIsNotCharged(violations: seq<Violation>)
    requires Reports(violations, ["fs-a"], map["fs-a" := []], "fs-a", [Candidate("fs-a", "KEEP", true)])
    ensures Reached(["fs-a"], map["fs-a" := []], "fs-a")
    ensures "fs-a" in Dispositions([Candidate("fs-a", "KEEP", true)])
    ensures violations == []
  {
    var roots, graph, candidates := ["fs-a"], map["fs-a" := []], [Candidate("fs-a", "KEEP", true)];
    RootIsReached(roots, graph, "fs-a");
    RecordedByAnEntry(candidates, "fs-a");
    assert Entry(candidates, 0) && candidates[0].name == "fs-a";
    PassingReview(violations, roots, graph, "fs-a", candidates);
  }
}
