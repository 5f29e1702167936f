/** Classifying sibling checkouts against their locked pins, over a commit graph without cycles. */
module PinDrift {
  import opened Wrappers

  type Commit = nat

  /** Each known commit with its parents. */
  type History = map<Commit, set<Commit>>

  /** Parents are known, and older than their children by some ranking. */
  ghost predicate Acyclic(g: History) {
    exists rank: map<Commit, nat> :: Ranks(g, rank)
  }

  ghost predicate Ranks(g: History, rank: map<Commit, nat>) {
    && g.Keys <= rank.Keys
    && forall c, p :: c in g && p in g[c] ==> p in g && rank[p] < rank[c]
  }

  /** A walk from a commit to one of its ancestors. */
  predicate Walk(g: History, path: seq<Commit>) {
    && path != []
    && (forall k :: 0 <= k < |path| ==> path[k] in g)
    && (forall k :: 0 <= k < |path| - 1 ==> path[k] in g && path[k + 1] in g[path[k]])
  }

  /** `elder` is `young` or one of its ancestors. */
  ghost predicate Ancestor(g: History, elder: Commit, young: Commit) {
    exists path :: Walk(g, path) && path[0] == young && path[|path| - 1] == elder
  }

  /** A commit and all its ancestors. */
  ghost function Ancestors(g: History, young: Commit): set<Commit> {
    set c | c in g.Keys && Ancestor(g, c, young)
  }

  /** Commits of `to` that `from` does not have. */
  ghost function RevCount(g: History, from: Commit, to: Commit): nat {
    |Ancestors(g, to) - Ancestors(g, from)|
  }

  datatype PinRelation =
    | OnPin
    | Ahead(commits: nat)
    | Behind(commits: nat)
    | Diverged(ahead: nat, behind: nat)
    | Unverifiable

  ghost function Relation(g: History, shallow: bool, pin: Commit, head: Commit): PinRelation {
    if head == pin then OnPin
    else if pin !in g || shallow then Unverifiable
    else
      match (Ancestor(g, pin, head), Ancestor(g, head, pin))
      case (true, true) => OnPin
      case (true, false) => Ahead(RevCount(g, pin, head))
      case (false, true) => Behind(RevCount(g, head, pin))
      case (false, false) => Diverged(RevCount(g, pin, head), RevCount(g, head, pin))
  }

  // ----- Ancestry -----

  lemma AncestorIsReflexive(g: History, c: Commit)
    requires c in g
    ensures Ancestor(g, c, c) && c in Ancestors(g, c)
  {
    assert Walk(g, [c]);
  }

  lemma AncestorIsTransitive(g: History, a: Commit, b: Commit, c: Commit)
    requires Ancestor(g, a, b) && Ancestor(g, b, c)
    ensures Ancestor(g, a, c)
  {
    var p :| Walk(g, p) && p[0] == c && p[|p| - 1] == b;
    var q :| Walk(g, q) && q[0] == b && q[|q| - 1] == a;
    var r := p + q[1..];
    forall k | 0 <= k < |r| - 1 ensures r[k] in g && r[k + 1] in g[r[k]] {
      if k >= |p| - 1 {
        assert r[k] == q[k - (|p| - 1)] && r[k + 1] == q[k + 1 - (|p| - 1)];
      }
    }
    assert Walk(g, r) && r[0] == c && r[|r| - 1] == a;
  }

  lemma {:induction false} WalkLowersRank(g: History, rank: map<Commit, nat>, path: seq<Commit>)
    requires Ranks(g, rank) && Walk(g, path)
    ensures rank[path[|path| - 1]] + |path| - 1 <= rank[path[0]]
    decreases |path|
  {
    if |path| > 1 {
      var front := path[..|path| - 1];
      WalkLowersRank(g, rank, front);
      assert path[|path| - 2] == front[|front| - 1];
      assert path[|path| - 2 + 1] in g[path[|path| - 2]];
    }
  }

  /** Two commits that are ancestors of each other are the same. */
  lemma AncestryIsAntisymmetric(g: History, a: Commit, b: Commit)
    requires Acyclic(g) && Ancestor(g, a, b) && Ancestor(g, b, a)
    ensures a == b
  {
    var rank :| Ranks(g, rank);
    var p :| Walk(g, p) && p[0] == b && p[|p| - 1] == a;
    var q :| Walk(g, q) && q[0] == a && q[|q| - 1] == b;
    WalkLowersRank(g, rank, p);
    WalkLowersRank(g, rank, q);
  }

  lemma AncestorsOfAncestor(g: History, elder: Commit, young: Commit)
    requires Ancestor(g, elder, young)
    ensures Ancestors(g, elder) <= Ancestors(g, young)
  {
    forall c | c in Ancestors(g, elder) ensures c in Ancestors(g, young) {
      AncestorIsTransitive(g, c, elder, young);
    }
  }

  /** A commit outside another's history is itself one of the commits counted. */
  lemma MissingCommitIsCounted(g: History, from: Commit, to: Commit)
    requires to in g && !Ancestor(g, to, from)
    ensures RevCount(g, from, to) >= 1
  {
    AncestorIsReflexive(g, to);
    assert to in Ancestors(g, to) - Ancestors(g, from);
  }

  lemma SetDifferenceSize<T>(a: set<T>, b: set<T>)
    ensures |a - b| + |a * b| == |a|
  {
    assert (a - b) + (a * b) == a;
  }

  /** The classification is exactly the ancestor relation. */
  lemma RelationIsExact(g: History, pin: Commit, head: Commit)
    requires Acyclic(g) && pin in g && head in g
    ensures var r := Relation(g, false, pin, head);
            && (r.OnPin? <==> head == pin)
            && (r.Ahead? <==> head != pin && Ancestor(g, pin, head))
            && (r.Behind? <==> head != pin && Ancestor(g, head, pin))
            && (r.Diverged? <==> !Ancestor(g, pin, head) && !Ancestor(g, head, pin))
            && !r.Unverifiable?
  {
    AncestorIsReflexive(g, pin);
    if Ancestor(g, pin, head) && Ancestor(g, head, pin) {
      AncestryIsAntisymmetric(g, pin, head);
    }
  }

  /** The counts are at least one, and account for the histories on both sides. */
  lemma CountsAreExact(g: History, pin: Commit, head: Commit)
    requires Acyclic(g) && pin in g && head in g
    ensures match Relation(g, false, pin, head)
            case OnPin => Ancestors(g, head) == Ancestors(g, pin)
            case Ahead(n) => n >= 1 && |Ancestors(g, head)| == |Ancestors(g, pin)| + n
            case Behind(n) => n >= 1 && |Ancestors(g, pin)| == |Ancestors(g, head)| + n
            case Diverged(a, b) =>
              && a >= 1 && b >= 1
              && |Ancestors(g, head)| - a == |Ancestors(g, pin)| - b == |Ancestors(g, head) * Ancestors(g, pin)|
            case Unverifiable => false
  {
    RelationIsExact(g, pin, head);
    var h, p := Ancestors(g, head), Ancestors(g, pin);
    SetDifferenceSize(h, p);
    SetDifferenceSize(p, h);
    assert h * p == p * h;
    if Ancestor(g, pin, head) {
      AncestorsOfAncestor(g, pin, head);
      assert h * p == p;
    } else {
      MissingCommitIsCounted(g, head, pin);
    }
    if Ancestor(g, head, pin) {
      AncestorsOfAncestor(g, head, pin);
      assert p * h == h;
    } else {
      MissingCommitIsCounted(g, pin, head);
    }
  }

  // ----- One sibling -----

  datatype SiblingClass = Ok | StaleLock | NoData | Drift

  /** What could be seen of a checkout: in order, its head, its cleanliness, its head again, its ancestry. */
  datatype Observation =
    | NoReadableHead
    | StatusRefused
    | HeadMoved
    | AncestryFailed
    | Observed(relation: PinRelation, dirty: bool)

  function ClassifyRow(relation: PinRelation, dirty: bool): SiblingClass {
    match (relation, dirty)
    case (OnPin, false) => Ok
    case (OnPin, true) => Drift
    case (Ahead(_), false) => StaleLock
    case (Ahead(_), true) => Drift
    case (Behind(_), _) => Drift
    case (Diverged(_, _), _) => Drift
    case (Unverifiable, false) => NoData
    case (Unverifiable, true) => Drift
  }

  function Classify(seen: Observation): SiblingClass {
    match seen
    case NoReadableHead => NoData
    case StatusRefused => Drift
    case HeadMoved => Drift
    case AncestryFailed => NoData
    case Observed(relation, dirty) => ClassifyRow(relation, dirty)
  }

  /** On a full history a clean checkout is charged exactly when it lacks a commit of its pin. */
  lemma CleanCheckoutIsChargedWhenBehind(g: History, pin: Commit, head: Commit)
    requires Acyclic(g) && pin in g && head in g
    ensures ClassifyRow(Relation(g, false, pin, head), false) == Drift <==> !(Ancestors(g, pin) <= Ancestors(g, head))
    ensures ClassifyRow(Relation(g, false, pin, head), true) == Drift
  {
    RelationIsExact(g, pin, head);
    AncestorIsReflexive(g, pin);
    if Ancestor(g, pin, head) {
      AncestorsOfAncestor(g, pin, head);
    }
  }

  /**
   A clean checkout is fine exactly at its pin. Elsewhere, if the pin is known and the history whole, it shows
   a stale lock when it has moved on from the pin and has drifted otherwise; if not, it tells nothing. A dirty
   checkout has always drifted.
   */
  lemma VerdictsAreExact(g: History, shallow: bool, pin: Commit, head: Commit, dirty: bool)
    requires Acyclic(g) && head in g
    ensures var verdict, known := Classify(Observed(Relation(g, shallow, pin, head), dirty)), pin in g && !shallow;
            && (verdict == Ok <==> !dirty && head == pin)
            && (verdict == StaleLock <==> !dirty && head != pin && known && Ancestor(g, pin, head))
            && (verdict == NoData <==> !dirty && head != pin && !known)
            && (verdict == Drift <==> dirty || (head != pin && known && !Ancestor(g, pin, head)))
  {
    if pin in g && !shallow {
      RelationIsExact(g, pin, head);
    }
  }

  /** A checkout without a readable head or a known ancestry tells nothing; one in motion has drifted. */
  lemma UnreadableCheckouts()
    ensures Classify(NoReadableHead) == Classify(AncestryFailed) == NoData
    ensures Classify(StatusRefused) == Classify(HeadMoved) == Drift
  {
  }

  // ----- The whole constellation -----

  datatype Report = Report(violations: seq<string>, notes: seq<(SiblingClass, string)>)

  /** The class a sibling is reported under; one without a lock row is charged. */
  function Outcome(rows: seq<string>, seen: map<string, Observation>, lib: string): SiblingClass
    requires lib in seen
  {
    if lib in rows then Classify(seen[lib]) else Drift
  }

  /** How many sections of the report name a library. */
  function Mentions(report: Report, lib: string): nat {
    multiset(report.violations)[lib] + NoteCount(report.notes, lib)
  }

  function NoteCount(notes: seq<(SiblingClass, string)>, lib: string): nat {
    if notes == [] then 0
    else NoteCount(notes[..|notes| - 1], lib) + if notes[|notes| - 1].1 == lib then 1 else 0
  }

  const LOCK_FILE := "constellation.lock"
  const WHOLE := "constellation"

  /** `report` files each library of `libs` once, under its outcome. */
  ghost predicate Files(report: Report, libs: seq<string>, rows: seq<string>, seen: map<string, Observation>) {
    && (forall lib :: lib in libs ==> lib in seen)
    && (forall lib :: lib in report.violations <==> lib in libs && Outcome(rows, seen, lib) == Drift)
    && (forall c, lib :: (c, lib) in report.notes <==> lib in libs && Outcome(rows, seen, lib) == c && c != Drift)
    && (forall lib :: Mentions(report, lib) == if lib in libs then 1 else 0)
  }

  function AddOutcome(report: Report, lib: string, kind: SiblingClass): Report {
    if kind == Drift then report.(violations := report.violations + [lib])
    else report.(notes := report.notes + [(kind, lib)])
  }

  lemma AddOutcomeMentions(report: Report, lib: string, kind: SiblingClass, x: string)
    ensures Mentions(AddOutcome(report, lib, kind), x) == Mentions(report, x) + if x == lib then 1 else 0
  {
    var after := AddOutcome(report, lib, kind);
    assert kind != Drift ==> after.notes[..|after.notes| - 1] == report.notes;
  }

  lemma AddOutcomeFiles(
    report: Report, libs: seq<string>, rows: seq<string>, seen: map<string, Observation>, lib: string)
    requires Files(report, libs, rows, seen) && lib in seen && lib !in libs
    ensures Files(AddOutcome(report, lib, Outcome(rows, seen, lib)), libs + [lib], rows, seen)
  {
    hide Outcome, Mentions;
    var kind := Outcome(rows, seen, lib);
    forall x ensures Mentions(AddOutcome(report, lib, kind), x) == Mentions(report, x) + if x == lib then 1 else 0 {
      AddOutcomeMentions(report, lib, kind, x);
    }
  }

  lemma EmptyReportFiles(rows: seq<string>, seen: map<string, Observation>)
    ensures Files(Report([], []), [], rows, seen)
  {
  }

  /** Some sibling with a lock row could be observed. */
  predicate AnyMaterialized(repos: seq<string>, rows: seq<string>, seen: map<string, Observation>)
    requires forall lib :: lib in repos ==> lib in seen
  {
    exists lib :: lib in repos && lib in rows && Classify(seen[lib]) != NoData
  }

  method FileSiblings(repos: seq<string>, rows: seq<string>, seen: map<string, Observation>)
    returns (report: Report, materialized: nat)
    requires forall i, j :: 0 <= i < j < |repos| ==> repos[i] != repos[j]
    requires forall lib :: lib in repos ==> lib in seen
    ensures Files(report, repos, rows, seen)
    ensures materialized > 0 <==> AnyMaterialized(repos, rows, seen)
  {
    hide Classify, Files, AddOutcome;
    report := Report([], []);
    materialized := 0;
    assert repos[..0] == [];
    EmptyReportFiles(rows, seen);
    for i := 0 to |repos|
      invariant Files(report, repos[..i], rows, seen)
      invariant materialized > 0 <==> AnyMaterialized(repos[..i], rows, seen)
    {
      var lib := repos[i];
      assert repos[..i + 1] == repos[..i] + [lib];
      AddOutcomeFiles(report, repos[..i], rows, seen, lib);
      if lib !in rows {
        report := AddOutcome(report, lib, Drift);
      } else {
        var kind := Classify(seen[lib]);
        if kind != NoData {
          materialized := materialized + 1;
        }
        report := AddOutcome(report, lib, kind);
      }
    }
    assert repos[..|repos|] == repos;
  }

  /** The report of a run: a refusal of a partial lock, or the filed siblings and perhaps a word on the whole. */
  ghost predicate Evaluated(report: Report, repos: seq<string>, rows: seq<string>, seen: map<string, Observation>)
    requires forall lib :: lib in repos ==> lib in seen
  {
    if |rows| != |repos| then report == Report([LOCK_FILE], [])
    else exists filed ::
        && Files(filed, repos, rows, seen)
        && report == (if AnyMaterialized(repos, rows, seen) then filed
                      else filed.(notes := filed.notes + [(NoData, WHOLE)]))
  }

  /** One pass over the declared siblings; a partial lock is refused outright. */
  method Evaluate(repos: seq<string>, rows: seq<string>, seen: map<string, Observation>) returns (report: Report)
    requires forall i, j :: 0 <= i < j < |repos| ==> repos[i] != repos[j]
    requires forall lib :: lib in repos ==> lib in seen
    ensures Evaluated(report, repos, rows, seen)
  {
    hide Files, AnyMaterialized;
    if |rows| != |repos| {
      return Report([LOCK_FILE], []);
    }
    var filed, materialized := FileSiblings(repos, rows, seen);
    report := if materialized == 0 then filed.(notes := filed.notes + [(NoData, WHOLE)]) else filed;
  }

  /** The note on the whole changes nothing that is said of a sibling. */
  lemma WholeIsNoSibling(report: Report, lib: string)
    requires lib != WHOLE
    ensures Mentions(report.(notes := report.notes + [(NoData, WHOLE)]), lib) == Mentions(report, lib)
  {
    assert (report.notes + [(NoData, WHOLE)])[..|report.notes|] == report.notes;
  }

  lemma FiledVerdicts(filed: Report, repos: seq<string>, rows: seq<string>, seen: map<string, Observation>)
    requires Files(filed, repos, rows, seen) && WHOLE !in repos
    ensures filed.violations == [] <==> forall lib :: lib in repos ==> lib in rows && Classify(seen[lib]) != Drift
    ensures forall c :: (c, WHOLE) !in filed.notes
    ensures forall lib :: lib in repos ==> Mentions(filed, lib) == 1
  {
    hide Classify;
    if filed.violations == [] {
      forall lib | lib in repos ensures lib in rows && Classify(seen[lib]) != Drift {
        assert lib !in filed.violations;
      }
    } else if forall lib :: lib in repos ==> lib in rows && Classify(seen[lib]) != Drift {
      assert filed.violations[0] in filed.violations;
    }
  }

  /**
   For a whole lock, every sibling gets exactly one verdict; a run passes exactly when the lock is whole
   and no sibling lacks its row or wandered; and it says that it saw nothing exactly when it saw nothing.
   */
  lemma ReportIsComplete(report: Report, repos: seq<string>, rows: seq<string>, seen: map<string, Observation>)
    requires forall lib :: lib in repos ==> lib in seen
    requires Evaluated(report, repos, rows, seen) && WHOLE !in repos
    ensures |rows| == |repos| ==> forall lib :: lib in repos ==> Mentions(report, lib) == 1
    ensures report.violations == [] <==>
              && |rows| == |repos|
              && (forall lib :: lib in repos ==> lib in rows && Classify(seen[lib]) != Drift)
    ensures (NoData, WHOLE) in report.notes <==>
              && |rows| == |repos|
              && (forall lib :: lib in repos && lib in rows ==> Classify(seen[lib]) == NoData)
  {
    hide Classify, Files, Mentions;
    if |rows| == |repos| {
      var filed :| && Files(filed, repos, rows, seen)
                   && report == (if AnyMaterialized(repos, rows, seen) then filed
                                 else filed.(notes := filed.notes + [(NoData, WHOLE)]));
      FiledVerdicts(filed, repos, rows, seen);
      forall lib | lib in repos ensures Mentions(report, lib) == 1 {
        WholeIsNoSibling(filed, lib);
      }
    }
  }
}
