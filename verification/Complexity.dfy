/** Cyclomatic complexity per function, with nested functions excluded from the outer count. */
module Complexity {
  import opened Text

  datatype Operator = And | Or | Nullish | OtherOperator

  datatype Kind =
    | IfStatement | ConditionalExpression | ForStatement | ForInStatement | ForOfStatement
    | WhileStatement | DoStatement | CatchClause | CaseClause
    | BinaryExpression(op: Operator)
    | FunctionLike(declaresBody: bool)
    | OtherKind

  /** A syntax node with its children in source order; the body of a function is its last child. */
  datatype Node = Node(kind: Kind, children: seq<Node>) {
    predicate IsFunction() { kind.FunctionLike? }
    predicate HasBody() { kind == FunctionLike(true) && children != [] }
    predicate IsDecision() {
      match kind
      case BinaryExpression(op) => op != OtherOperator
      case FunctionLike(_) => false
      case OtherKind => false
      case _ => true
    }
  }

  function One(b: bool): nat { if b then 1 else 0 }

  /** What adds a path through a function: a branch, a loop, a handler, a case or a short circuit. */
  lemma {:induction false} DecisionsAre(node: Node)
    ensures node.IsDecision() <==> node.kind in {
      IfStatement, ConditionalExpression, CaseClause, CatchClause, ForStatement, ForInStatement, ForOfStatement,
      WhileStatement, DoStatement, BinaryExpression(And), BinaryExpression(Or), BinaryExpression(Nullish)}
    ensures node.IsDecision() ==> !node.IsFunction()
    ensures node.HasBody() ==> node.IsFunction()
  {
  }

  // ---- What the two visitors compute --------------------------------------------------------

  /** Decision nodes that the inner visitor counts below `node`: it turns back at every function. */
  function Weight(node: Node): nat
    decreases node, |node.children| + 1
  {
    if node.IsFunction() then 0 else One(node.IsDecision()) + WeightUpTo(node, |node.children|)
  }

  function WeightUpTo(node: Node, n: nat): nat
    requires n <= |node.children|
    decreases node, n
  {
    if n == 0 then 0 else WeightUpTo(node, n - 1) + Weight(node.children[n - 1])
  }

  function ComplexityOf(f: Node): nat {
    1 + if f.HasBody() then Weight(f.children[|f.children| - 1]) else 0
  }

  /** Complexities in the order in which the outer visitor reports them. */
  function Reported(node: Node): seq<nat>
    decreases node, |node.children| + 1
  {
    (if node.HasBody() then [ComplexityOf(node)] else []) + ReportedUpTo(node, |node.children|)
  }

  function ReportedUpTo(node: Node, n: nat): seq<nat>
    requires n <= |node.children|
    decreases node, n
  {
    if n == 0 then [] else ReportedUpTo(node, n - 1) + Reported(node.children[n - 1])
  }

  class Analyzer {
    var complexity: nat
    var results: seq<nat>

    constructor ()
      ensures complexity == 1 && results == []
    {
      complexity, results := 1, [];
    }

    method Count(node: Node)
      modifies this`complexity
      ensures complexity == old(complexity) + Weight(node)
      decreases node
    {
      if node.IsFunction() {
        return;
      }
      if node.IsDecision() {
        complexity := complexity + 1;
      }
      for i := 0 to |node.children|
        invariant complexity == old(complexity) + One(node.IsDecision()) + WeightUpTo(node, i)
      {
        Count(node.children[i]);
      }
    }

    method CalculateComplexity(root: Node)
      modifies this`complexity
      ensures complexity == ComplexityOf(root)
    {
      complexity := 1;
      if root.HasBody() {
        Count(root.children[|root.children| - 1]);
      }
    }

    method Visit(node: Node)
      modifies this
      ensures results == old(results) + Reported(node)
      decreases node
    {
      if node.HasBody() {
        CalculateComplexity(node);
        results := results + [complexity];
      }
      ghost var first := results;
      for i := 0 to |node.children|
        invariant results == first + ReportedUpTo(node, i)
      {
        Visit(node.children[i]);
      }
    }
  }

  // ---- Which nodes are counted --------------------------------------------------------------

  /** Child indices from the root down. */
  type Path = seq<nat>

  function NodeAt(root: Node, path: Path): Option<Node>
    decreases |path|
  {
    if path == [] then Some(root)
    else if path[0] < |root.children| then NodeAt(root.children[path[0]], path[1..])
    else None
  }

  function Under(i: nat, paths: seq<Path>): seq<Path> {
    if paths == [] then [] else Under(i, paths[..|paths| - 1]) + [[i] + paths[|paths| - 1]]
  }

  /** The paths of the nodes that `Weight` counts. */
  function Visited(node: Node): seq<Path>
    decreases node, |node.children| + 1
  {
    if node.IsFunction() then [] else (if node.IsDecision() then [[]] else []) + VisitedUpTo(node, |node.children|)
  }

  function VisitedUpTo(node: Node, n: nat): seq<Path>
    requires n <= |node.children|
    decreases node, n
  {
    if n == 0 then [] else VisitedUpTo(node, n - 1) + Under(n - 1, Visited(node.children[n - 1]))
  }

  /** The paths counted for the function at the root. */
  function CountedAtRoot(f: Node): seq<Path> {
    if f.HasBody() then Under(|f.children| - 1, Visited(f.children[|f.children| - 1])) else []
  }

  /** The paths counted for any reported function, as often as they are counted. */
  function Counted(node: Node): seq<Path>
    decreases node, |node.children| + 1
  {
    CountedAtRoot(node) + CountedUpTo(node, |node.children|)
  }

  function CountedUpTo(node: Node, n: nat): seq<Path>
    requires n <= |node.children|
    decreases node, n
  {
    if n == 0 then [] else CountedUpTo(node, n - 1) + Under(n - 1, Counted(node.children[n - 1]))
  }

  /** No function lies on the way from `root` to the decision node at `path`. */
  ghost predicate Exposed(root: Node, path: Path) {
    && NodeAt(root, path).Some? && NodeAt(root, path).value.IsDecision()
    && forall j :: 0 <= j <= |path| ==> NodeAt(root, path[..j]).Some? && !NodeAt(root, path[..j]).value.IsFunction()
  }

  /** The decision node at `path` lies in the body of its nearest enclosing function, which is at `path[..k]`. */
  ghost predicate InBodyOf(root: Node, path: Path, k: nat) {
    && k < |path|
    && NodeAt(root, path[..k]).Some?
    && var f := NodeAt(root, path[..k]).value;
       f.HasBody() && path[k] == |f.children| - 1 && Exposed(f.children[path[k]], path[k + 1..])
  }

  ghost predicate Charged(root: Node, path: Path) {
    exists k :: InBodyOf(root, path, k)
  }

  // ---- Lengths ------------------------------------------------------------------------------

  lemma {:induction false} UnderLength(i: nat, paths: seq<Path>)
    ensures |Under(i, paths)| == |paths|
  {
    if paths != [] {
      UnderLength(i, paths[..|paths| - 1]);
    }
  }

  lemma {:induction false} WeightCountsVisited(node: Node)
    ensures Weight(node) == |Visited(node)|
    decreases node, |node.children| + 1
  {
    if !node.IsFunction() {
      WeightCountsVisitedUpTo(node, |node.children|);
    }
  }

  lemma {:induction false} WeightCountsVisitedUpTo(node: Node, n: nat)
    requires n <= |node.children|
    ensures WeightUpTo(node, n) == |VisitedUpTo(node, n)|
    decreases node, n
  {
    if n > 0 {
      WeightCountsVisitedUpTo(node, n - 1);
      WeightCountsVisited(node.children[n - 1]);
      UnderLength(n - 1, Visited(node.children[n - 1]));
    }
  }

  /** The sum of (complexity - 1). */
  function Excess(complexities: seq<nat>): int {
    if complexities == [] then 0
    else Excess(complexities[..|complexities| - 1]) + complexities[|complexities| - 1] - 1
  }

  lemma {:induction false} NoExcess()
    ensures Excess([]) == 0
  {
  }

  lemma {:induction false} ExcessAppends(a: seq<nat>, b: seq<nat>)
    ensures Excess(a + b) == Excess(a) + Excess(b)
  {
    if b == [] {
      assert a + b == a;
    } else {
      ExcessAppends(a, b[..|b| - 1]);
      assert (a + b)[..|a + b| - 1] == a + b[..|b| - 1];
    }
  }

  lemma {:induction false} ExcessCounts(node: Node)
    ensures Excess(Reported(node)) == |Counted(node)|
    decreases node, |node.children| + 1
  {
    ExcessCountsUpTo(node, |node.children|);
    if node.HasBody() {
      var body := node.children[|node.children| - 1];
      WeightCountsVisited(body);
      UnderLength(|node.children| - 1, Visited(body));
      assert Excess([ComplexityOf(node)]) == |CountedAtRoot(node)|;
    }
    ExcessAppends(if node.HasBody() then [ComplexityOf(node)] else [], ReportedUpTo(node, |node.children|));
  }

  lemma {:induction false} ExcessCountsUpTo(node: Node, n: nat)
    requires n <= |node.children|
    ensures Excess(ReportedUpTo(node, n)) == |CountedUpTo(node, n)|
    decreases node, n
  {
    hide Counted, Reported, Under, Excess;
    if n == 0 {
      NoExcess();
    } else {
      ExcessCountsUpTo(node, n - 1);
      ExcessCounts(node.children[n - 1]);
      ExcessAppends(ReportedUpTo(node, n - 1), Reported(node.children[n - 1]));
      UnderLength(n - 1, Counted(node.children[n - 1]));
    }
  }

  // ---- Multiplicities -----------------------------------------------------------------------

  lemma {:induction false} UnderMultiplicity(i: nat, paths: seq<Path>, p: Path)
    ensures multiset(Under(i, paths))[p] == if p != [] && p[0] == i then multiset(paths)[p[1..]] else 0
  {
    if paths != [] {
      var n := |paths| - 1;
      UnderMultiplicity(i, paths[..n], p);
      assert paths == paths[..n] + [paths[n]];
      if p != [] {
        assert p == [p[0]] + p[1..];
        assert ([i] + paths[n])[1..] == paths[n];
      }
    }
  }

  lemma {:induction false} VisitedMultiplicityUpTo(node: Node, n: nat, p: Path)
    requires n <= |node.children|
    ensures multiset(VisitedUpTo(node, n))[p]
         == if p != [] && p[0] < n then multiset(Visited(node.children[p[0]]))[p[1..]] else 0
  {
    hide Visited, Under;
    if n > 0 {
      VisitedMultiplicityUpTo(node, n - 1, p);
      UnderMultiplicity(n - 1, Visited(node.children[n - 1]), p);
    }
  }

  lemma {:induction false} CountedMultiplicityUpTo(node: Node, n: nat, p: Path)
    requires n <= |node.children|
    ensures multiset(CountedUpTo(node, n))[p]
         == if p != [] && p[0] < n then multiset(Counted(node.children[p[0]]))[p[1..]] else 0
  {
    hide Counted, Under;
    if n > 0 {
      CountedMultiplicityUpTo(node, n - 1, p);
      UnderMultiplicity(n - 1, Counted(node.children[n - 1]), p);
    }
  }

  lemma {:induction false} ExposedBelow(node: Node, p: Path)
    requires p != []
    ensures Exposed(node, p) <==>
      !node.IsFunction() && p[0] < |node.children| && Exposed(node.children[p[0]], p[1..])
  {
    forall j | 0 < j <= |p|
      ensures p[0] < |node.children| ==> NodeAt(node, p[..j]) == NodeAt(node.children[p[0]], p[1..][..j - 1])
      ensures p[0] >= |node.children| ==> NodeAt(node, p[..j]).None?
    {
      assert p[..j][1..] == p[1..][..j - 1];
    }
    assert p[..|p|] == p;
    if Exposed(node, p) {
      assert p[..0] == [];
      forall j | 0 <= j <= |p[1..]|
        ensures NodeAt(node.children[p[0]], p[1..][..j]).Some?
        ensures !NodeAt(node.children[p[0]], p[1..][..j]).value.IsFunction()
      {
        assert NodeAt(node, p[..j + 1]) == NodeAt(node.children[p[0]], p[1..][..j + 1 - 1]);
      }
    }
  }

  lemma {:induction false} VisitedExactlyOnce(node: Node, p: Path)
    ensures multiset(Visited(node))[p] == One(Exposed(node, p))
    decreases |p|
  {
    if p == [] {
      assert p[..0] == p;
      VisitedMultiplicityUpTo(node, |node.children|, p);
    } else {
      ExposedBelow(node, p);
      VisitedMultiplicityUpTo(node, |node.children|, p);
      if p[0] < |node.children| {
        VisitedExactlyOnce(node.children[p[0]], p[1..]);
      }
    }
  }

  lemma {:induction false} ExposedIsNotCharged(node: Node, p: Path)
    requires Exposed(node, p)
    ensures !Charged(node, p)
  {
    forall k | 0 <= k < |p| ensures !InBodyOf(node, p, k) {
      assert !NodeAt(node, p[..k]).value.IsFunction();
    }
  }

  lemma {:induction false} InBodyOfBelow(node: Node, p: Path, k: nat)
    requires p != [] && 0 < k
    ensures InBodyOf(node, p, k) <==> p[0] < |node.children| && InBodyOf(node.children[p[0]], p[1..], k - 1)
  {
    if k < |p| {
      assert p[..k][0] == p[0] && p[..k][1..] == p[1..][..k - 1];
      assert p[1..][k..] == p[k + 1..];
    }
  }

  lemma {:induction false} ChargedBelow(node: Node, p: Path)
    requires p != []
    ensures Charged(node, p) <==>
      InBodyOf(node, p, 0) || (p[0] < |node.children| && Charged(node.children[p[0]], p[1..]))
  {
    hide InBodyOf;
    forall k: nat | 0 < k
      ensures InBodyOf(node, p, k) <==> p[0] < |node.children| && InBodyOf(node.children[p[0]], p[1..], k - 1)
    {
      InBodyOfBelow(node, p, k);
    }
    if p[0] < |node.children| {
      if k: nat :| InBodyOf(node.children[p[0]], p[1..], k) {
        assert InBodyOf(node, p, k + 1);
      }
    }
  }

  lemma {:induction false} InBodyOfRoot(node: Node, p: Path)
    requires p != []
    ensures InBodyOf(node, p, 0) <==>
      node.HasBody() && p[0] == |node.children| - 1 && Exposed(node.children[p[0]], p[1..])
  {
    assert p[..0] == [];
  }

  /** How often a path is counted, one level down. */
  lemma {:induction false} CountedMultiplicity(node: Node, p: Path)
    ensures p == [] || p[0] >= |node.children| ==> multiset(Counted(node))[p] == 0
    ensures p != [] && p[0] < |node.children| ==>
      multiset(Counted(node))[p] == multiset(Counted(node.children[p[0]]))[p[1..]]
        + if node.HasBody() && p[0] == |node.children| - 1 then multiset(Visited(node.children[p[0]]))[p[1..]] else 0
  {
    hide Visited, Under;
    CountedMultiplicityUpTo(node, |node.children|, p);
    if node.HasBody() {
      UnderMultiplicity(|node.children| - 1, Visited(node.children[|node.children| - 1]), p);
    }
  }

  /** Each decision node is counted once if it is in the body of its nearest function, and never otherwise. */
  lemma {:induction false} CountedExactlyOnce(node: Node, p: Path)
    ensures multiset(Counted(node))[p] == One(Charged(node, p))
    decreases |p|
  {
    hide Counted, Visited, Exposed, InBodyOf;
    CountedMultiplicity(node, p);
    if p == [] {
      NothingInBodyOf(node);
    } else {
      ChargedBelow(node, p);
      InBodyOfRoot(node, p);
      if p[0] < |node.children| {
        var child := node.children[p[0]];
        CountedExactlyOnce(child, p[1..]);
        VisitedExactlyOnce(child, p[1..]);
        if Exposed(child, p[1..]) {
          ExposedIsNotCharged(child, p[1..]);
        }
      }
    }
  }

  lemma {:induction false} NothingInBodyOf(node: Node)
    ensures !Charged(node, [])
  {
  }

  lemma {:induction false} WithoutRepetition(paths: seq<Path>)
    requires forall p :: multiset(paths)[p] <= 1
    ensures |set p | p in paths| == |paths|
  {
    if paths != [] {
      var n := |paths| - 1;
      assert paths == paths[..n] + [paths[n]];
      assert multiset(paths) == multiset(paths[..n]) + multiset{paths[n]};
      forall p ensures multiset(paths[..n])[p] <= 1 {
        assert multiset(paths)[p] <= 1;
      }
      WithoutRepetition(paths[..n]);
      assert paths[n] !in paths[..n] by { assert multiset(paths)[paths[n]] <= 1; }
      assert (set p | p in paths) == (set p | p in paths[..n]) + {paths[n]};
    }
  }

  /**
   * Over a whole file, the complexities exceed one per function by exactly the number of decision
   * nodes that lie inside the body of their nearest enclosing function.
   */
  lemma {:induction false} ComplexityCountsChargedNodes(root: Node) returns (charged: set<Path>)
    ensures forall p :: p in charged <==> Charged(root, p)
    ensures Excess(Reported(root)) == |charged|
  {
    ExcessCounts(root);
    forall p ensures multiset(Counted(root))[p] == One(Charged(root, p)) {
      CountedExactlyOnce(root, p);
    }
    charged := set p | p in Counted(root);
    WithoutRepetition(Counted(root));
    forall p ensures p in charged <==> Charged(root, p) {
      assert p in charged <==> multiset(Counted(root))[p] > 0;
    }
  }

  // ---- Which functions are reported ---------------------------------------------------------

  /** The functions with a body, in the order in which the outer visitor meets them. */
  function Functions(node: Node): seq<Path>
    decreases node, |node.children| + 1
  {
    (if node.HasBody() then [[]] else []) + FunctionsUpTo(node, |node.children|)
  }

  function FunctionsUpTo(node: Node, n: nat): seq<Path>
    requires n <= |node.children|
    decreases node, n
  {
    if n == 0 then [] else FunctionsUpTo(node, n - 1) + Under(n - 1, Functions(node.children[n - 1]))
  }

  ghost predicate IsFunctionAt(root: Node, p: Path) { NodeAt(root, p).Some? && NodeAt(root, p).value.HasBody() }

  lemma {:induction false} FunctionsMultiplicityUpTo(node: Node, n: nat, p: Path)
    requires n <= |node.children|
    ensures multiset(FunctionsUpTo(node, n))[p]
         == if p != [] && p[0] < n then multiset(Functions(node.children[p[0]]))[p[1..]] else 0
  {
    hide Functions, Under;
    if n > 0 {
      FunctionsMultiplicityUpTo(node, n - 1, p);
      UnderMultiplicity(n - 1, Functions(node.children[n - 1]), p);
    }
  }

  lemma {:induction false} FunctionsMultiplicity(node: Node, p: Path)
    ensures p == [] ==> multiset(Functions(node))[p] == One(node.HasBody())
    ensures p != [] && p[0] >= |node.children| ==> multiset(Functions(node))[p] == 0
    ensures p != [] && p[0] < |node.children| ==>
      multiset(Functions(node))[p] == multiset(Functions(node.children[p[0]]))[p[1..]]
  {
    FunctionsMultiplicityUpTo(node, |node.children|, p);
    hide FunctionsUpTo, Node.HasBody;
  }

  lemma {:induction false} FunctionAtBelow(node: Node, p: Path)
    ensures p == [] ==> (IsFunctionAt(node, p) <==> node.HasBody())
    ensures p != [] ==> (IsFunctionAt(node, p) <==>
      p[0] < |node.children| && IsFunctionAt(node.children[p[0]], p[1..]))
  {
    hide Node.HasBody;
  }

  /** Each function with a body is among them exactly once, and nothing else is. */
  lemma {:induction false} FunctionsExactlyOnce(node: Node, p: Path)
    ensures multiset(Functions(node))[p] == One(IsFunctionAt(node, p))
    decreases |p|
  {
    FunctionsMultiplicity(node, p);
    FunctionAtBelow(node, p);
    hide Functions, IsFunctionAt, Node.HasBody;
    if p != [] && p[0] < |node.children| {
      FunctionsExactlyOnce(node.children[p[0]], p[1..]);
    }
  }

  /** The complexities of the functions at these paths. */
  ghost predicate Measures(root: Node, at: seq<Path>, complexities: seq<nat>) {
    && |at| == |complexities|
    && forall k :: 0 <= k < |at| ==>
         NodeAt(root, at[k]).Some? && complexities[k] == ComplexityOf(NodeAt(root, at[k]).value)
  }

  lemma {:induction false} MeasuresUnder(node: Node, i: nat, at: seq<Path>, complexities: seq<nat>)
    requires i < |node.children| && Measures(node.children[i], at, complexities)
    ensures Measures(node, Under(i, at), complexities)
  {
    UnderLength(i, at);
    forall k | 0 <= k < |at| ensures NodeAt(node, Under(i, at)[k]) == NodeAt(node.children[i], at[k]) {
      UnderAt(i, at, k);
      assert ([i] + at[k])[1..] == at[k];
    }
  }

  lemma {:induction false} UnderAt(i: nat, paths: seq<Path>, k: nat)
    requires k < |paths|
    ensures k < |Under(i, paths)| && Under(i, paths)[k] == [i] + paths[k]
  {
    UnderLength(i, paths);
    UnderLength(i, paths[..|paths| - 1]);
    if k < |paths| - 1 {
      UnderAt(i, paths[..|paths| - 1], k);
    }
  }

  lemma {:induction false} ReportedMeasures(node: Node)
    ensures Measures(node, Functions(node), Reported(node))
    decreases node, |node.children| + 1
  {
    ReportedMeasuresUpTo(node, |node.children|);
  }

  lemma {:induction false} ReportedMeasuresUpTo(node: Node, n: nat)
    requires n <= |node.children|
    ensures Measures(node, FunctionsUpTo(node, n), ReportedUpTo(node, n))
    decreases node, n
  {
    hide ComplexityOf, Under, Functions, Reported;
    if n > 0 {
      ReportedMeasuresUpTo(node, n - 1);
      ReportedMeasures(node.children[n - 1]);
      MeasuresUnder(node, n - 1, Functions(node.children[n - 1]), Reported(node.children[n - 1]));
    }
  }

  /** A file's report has one number for each function with a body, its complexity, and no other. */
  lemma {:induction false} ReportsEachFunction(root: Node) returns (at: seq<Path>)
    ensures Measures(root, at, Reported(root))
    ensures forall p :: multiset(at)[p] == One(IsFunctionAt(root, p))
  {
    at := Functions(root);
    ReportedMeasures(root);
    forall p ensures multiset(at)[p] == One(IsFunctionAt(root, p)) {
      FunctionsExactlyOnce(root, p);
    }
  }

  /** The decision nodes that the complexity of one function counts. */
  ghost predicate InOwnBody(f: Node, p: Path) {
    f.HasBody() && p != [] && p[0] == |f.children| - 1 && Exposed(f.children[p[0]], p[1..])
  }

  /** One more than the decision nodes in the function's body outside nested functions. */
  lemma {:induction false} ComplexityOfOne(f: Node) returns (own: set<Path>)
    ensures forall p :: p in own <==> InOwnBody(f, p)
    ensures ComplexityOf(f) == 1 + |own|
  {
    if f.HasBody() {
      var n := |f.children| - 1;
      var body := f.children[n];
      WeightCountsVisited(body);
      UnderLength(n, Visited(body));
      forall p ensures multiset(Under(n, Visited(body)))[p] == One(InOwnBody(f, p)) {
        UnderMultiplicity(n, Visited(body), p);
        if p != [] { VisitedExactlyOnce(body, p[1..]); }
      }
      hide InOwnBody, Under, Visited;
      own := set p | p in Under(n, Visited(body));
      WithoutRepetition(Under(n, Visited(body)));
      forall p ensures p in own <==> InOwnBody(f, p) {
        assert p in own <==> multiset(Under(n, Visited(body)))[p] > 0;
      }
    } else {
      own := {};
    }
  }
}
