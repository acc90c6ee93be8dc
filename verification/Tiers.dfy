/** The tier rule for module imports, over any tier map and whitelist, and what it means for import paths. */
module Tiers {
  import opened Text

  type ModuleName = string
  type Tier = n: int | 1 <= n <= 4 witness 1

  datatype Edge = Edge(importer: ModuleName, imported: ModuleName)

  datatype Rules = Rules(tiers: map<ModuleName, Tier>, whitelist: seq<Edge>)

  datatype Violation =
    | Tier1Imports(edge: Edge)
    | Tier2ImportsUpward(edge: Edge)
    | Tier3ImportsLeaf(edge: Edge)
    | Tier4ImportsLeaf(edge: Edge)

  predicate Whitelisted(rules: Rules, edge: Edge) { edge in rules.whitelist }

  function CheckViolation(rules: Rules, edge: Edge, importerTier: Tier, importedTier: Tier): Option<Violation> {
    if Whitelisted(rules, edge) then None
    else if importerTier == 1 && importedTier >= 1 then Some(Tier1Imports(edge))
    else if importerTier == 2 && importedTier > 1 then Some(Tier2ImportsUpward(edge))
    else if importerTier == 3 && importedTier == 4 then Some(Tier3ImportsLeaf(edge))
    else if importerTier == 4 && importedTier == 4 then Some(Tier4ImportsLeaf(edge))
    else None
  }

  // ---- The edge loop ------------------------------------------------------------------------

  /** What the scan reports: an import between two known modules that the rule rejects. */
  ghost predicate Reported(rules: Rules, edge: Edge) {
    && edge.importer in rules.tiers && edge.imported in rules.tiers
    && CheckViolation(rules, edge, rules.tiers[edge.importer], rules.tiers[edge.imported]).Some?
  }

  /** What scanning one module's imports reports, in order; imports of unknown names are passed over. */
  function ViolationsOf(rules: Rules, importer: ModuleName, imports: seq<ModuleName>): seq<Violation>
    requires importer in rules.tiers
  {
    if imports == [] then []
    else
      var n := |imports| - 1;
      var violation := if imports[n] !in rules.tiers then None
                       else CheckViolation(
                         rules, Edge(importer, imports[n]), rules.tiers[importer], rules.tiers[imports[n]]);
      ViolationsOf(rules, importer, imports[..n]) + if violation.Some? then [violation.value] else []
  }

  function AllViolations(rules: Rules, scanned: seq<(ModuleName, seq<ModuleName>)>): seq<Violation>
    requires forall i :: 0 <= i < |scanned| ==> scanned[i].0 in rules.tiers
  {
    if scanned == [] then []
    else
      var n := |scanned| - 1;
      AllViolations(rules, scanned[..n]) + ViolationsOf(rules, scanned[n].0, scanned[n].1)
  }

  method FindViolations(rules: Rules, scanned: seq<(ModuleName, seq<ModuleName>)>) returns (violations: seq<Violation>)
    requires forall i :: 0 <= i < |scanned| ==> scanned[i].0 in rules.tiers
    ensures violations == AllViolations(rules, scanned)
  {
    violations := [];
    for i := 0 to |scanned|
      invariant violations == AllViolations(rules, scanned[..i])
    {
      var (moduleName, imports) := scanned[i];
      ghost var before := violations;
      for j := 0 to |imports|
        invariant violations == before + ViolationsOf(rules, moduleName, imports[..j])
      {
        assert imports[..j + 1][..j] == imports[..j];
        if imports[j] in rules.tiers {
          var edge := Edge(moduleName, imports[j]);
          var violation := CheckViolation(rules, edge, rules.tiers[moduleName], rules.tiers[imports[j]]);
          if violation.Some? {
            violations := violations + [violation.value];
          }
        }
      }
      assert imports[..|imports|] == imports && scanned[..i + 1][..i] == scanned[..i];
    }
    assert scanned[..|scanned|] == scanned;
  }

  function EdgesOf(violations: seq<Violation>): set<Edge> { set v | v in violations :: v.edge }

  lemma {:induction false} EdgesOfConcat(a: seq<Violation>, b: seq<Violation>)
    ensures EdgesOf(a + b) == EdgesOf(a) + EdgesOf(b)
  {
    assert forall v :: v in a + b <==> v in a || v in b;
  }

  lemma {:induction false} ViolationsOfAreReported(
    rules: Rules, importer: ModuleName, imports: seq<ModuleName>, edge: Edge)
    requires importer in rules.tiers
    ensures edge in EdgesOf(ViolationsOf(rules, importer, imports))
       <==> edge.importer == importer && edge.imported in imports && Reported(rules, edge)
  {
    if imports != [] {
      var n := |imports| - 1;
      ViolationsOfAreReported(rules, importer, imports[..n], edge);
      assert imports == imports[..n] + [imports[n]];
      var all, shorter := ViolationsOf(rules, importer, imports), ViolationsOf(rules, importer, imports[..n]);
      var e := Edge(importer, imports[n]);
      if Reported(rules, e) {
        var violation := CheckViolation(rules, e, rules.tiers[importer], rules.tiers[imports[n]]).value;
        assert all == shorter + [violation];
        EdgesOfConcat(shorter, [violation]);
        assert EdgesOf([violation]) == {e};
      } else {
        assert all == shorter;
      }
    }
  }

  /** The scan reports precisely the scanned imports that the rule rejects. */
  lemma {:induction false} ViolationsAreTheReportedImports(
    rules: Rules, scanned: seq<(ModuleName, seq<ModuleName>)>, edge: Edge)
    requires forall i :: 0 <= i < |scanned| ==> scanned[i].0 in rules.tiers
    ensures edge in EdgesOf(AllViolations(rules, scanned))
       <==> Reported(rules, edge)
            && exists i :: 0 <= i < |scanned| && scanned[i].0 == edge.importer && edge.imported in scanned[i].1
  {
    if scanned != [] {
      var n := |scanned| - 1;
      ViolationsAreTheReportedImports(rules, scanned[..n], edge);
      ViolationsOfAreReported(rules, scanned[n].0, scanned[n].1, edge);
      EdgesOfConcat(AllViolations(rules, scanned[..n]), ViolationsOf(rules, scanned[n].0, scanned[n].1));
      assert forall i :: 0 <= i < n ==> scanned[..n][i] == scanned[i];
    }
  }

  // ---- What is reported, without the check itself -------------------------------------------

  /** Between known modules, not whitelisted, and neither down the tiers nor within Tier 3. */
  ghost predicate Forbidden(rules: Rules, edge: Edge) {
    && edge.importer in rules.tiers && edge.imported in rules.tiers
    && edge !in rules.whitelist
    && rules.tiers[edge.importer] <= rules.tiers[edge.imported]
    && (rules.tiers[edge.importer] == 3 ==> rules.tiers[edge.imported] == 4)
  }

  /** The rule that a forbidden import breaks is the one for its importer's tier. */
  ghost predicate Names(violation: Violation, importer: Tier) {
    match violation
    case Tier1Imports(_) => importer == 1
    case Tier2ImportsUpward(_) => importer == 2
    case Tier3ImportsLeaf(_) => importer == 3
    case Tier4ImportsLeaf(_) => importer == 4
  }

  lemma {:induction false} ReportedIsForbidden(rules: Rules, edge: Edge)
    ensures Reported(rules, edge) <==> Forbidden(rules, edge)
    ensures Reported(rules, edge) ==>
      var violation := CheckViolation(rules, edge, rules.tiers[edge.importer], rules.tiers[edge.imported]).value;
      violation.edge == edge && Names(violation, rules.tiers[edge.importer])
  {
  }

  /** The scan reports precisely the scanned imports that are forbidden. */
  lemma {:induction false} ForbiddenImportsAreReported(
    rules: Rules, scanned: seq<(ModuleName, seq<ModuleName>)>, edge: Edge)
    requires forall i :: 0 <= i < |scanned| ==> scanned[i].0 in rules.tiers
    ensures edge in EdgesOf(AllViolations(rules, scanned))
       <==> Forbidden(rules, edge)
            && exists i :: 0 <= i < |scanned| && scanned[i].0 == edge.importer && edge.imported in scanned[i].1
  {
    hide Forbidden, Reported;
    ReportedIsForbidden(rules, edge);
    ViolationsAreTheReportedImports(rules, scanned, edge);
  }

  /** Where in the scan an import stands. */
  type Position = (nat, nat)

  predicate Before(p: Position, q: Position) { p.0 < q.0 || (p.0 == q.0 && p.1 < q.1) }

  predicate Within(scanned: seq<(ModuleName, seq<ModuleName>)>, p: Position) {
    p.0 < |scanned| && p.1 < |scanned[p.0].1|
  }

  function EdgeAt(scanned: seq<(ModuleName, seq<ModuleName>)>, p: Position): Edge
    requires Within(scanned, p)
  {
    Edge(scanned[p.0].0, scanned[p.0].1[p.1])
  }

  /** A violation that stands for the forbidden import at this position, and names its rule. */
  ghost predicate StandsFor(
    rules: Rules, scanned: seq<(ModuleName, seq<ModuleName>)>, violation: Violation, p: Position)
  {
    && Within(scanned, p) && Forbidden(rules, EdgeAt(scanned, p))
    && violation.edge == EdgeAt(scanned, p) && Names(violation, rules.tiers[violation.edge.importer])
  }

  /** These violations stand for the forbidden imports at these positions, which are all there are, in scan order. */
  ghost predicate Reports(
    rules: Rules, scanned: seq<(ModuleName, seq<ModuleName>)>, violations: seq<Violation>, at: seq<Position>)
  {
    && |at| == |violations|
    && (forall k :: 0 <= k < |at| ==> StandsFor(rules, scanned, violations[k], at[k]))
    && (forall j, k :: 0 <= j < k < |at| ==> Before(at[j], at[k]))
    && (forall p :: Within(scanned, p) && Forbidden(rules, EdgeAt(scanned, p)) ==> p in at)
  }

  /** The same for one module. */
  ghost predicate ReportsOf(
    rules: Rules, importer: ModuleName, imports: seq<ModuleName>, violations: seq<Violation>, at: seq<nat>)
  {
    && |at| == |violations|
    && (forall k :: 0 <= k < |at| ==>
          && at[k] < |imports| && Forbidden(rules, Edge(importer, imports[at[k]]))
          && violations[k].edge == Edge(importer, imports[at[k]])
          && Names(violations[k], rules.tiers[importer]))
    && (forall j, k :: 0 <= j < k < |at| ==> at[j] < at[k])
    && (forall i :: 0 <= i < |imports| && Forbidden(rules, Edge(importer, imports[i])) ==> i in at)
  }

  lemma {:induction false} ViolationsOfInOrder(rules: Rules, importer: ModuleName, imports: seq<ModuleName>)
    returns (at: seq<nat>)
    requires importer in rules.tiers
    ensures ReportsOf(rules, importer, imports, ViolationsOf(rules, importer, imports), at)
  {
    if imports == [] {
      at := [];
    } else {
      var n := |imports| - 1;
      var edge := Edge(importer, imports[n]);
      hide CheckViolation, Names, Forbidden;
      at := ViolationsOfInOrder(rules, importer, imports[..n]);
      ReportedIsForbidden(rules, edge);
      if Forbidden(rules, edge) {
        at := at + [n];
      }
      forall i | 0 <= i < |imports| && Forbidden(rules, Edge(importer, imports[i])) ensures i in at {
        if i < n { assert imports[..n][i] == imports[i]; }
      }
    }
  }

  /** One violation for each forbidden import, naming its rule, in the order of the scan. */
  lemma {:induction false} ViolationsInOrder(rules: Rules, scanned: seq<(ModuleName, seq<ModuleName>)>)
    returns (at: seq<Position>)
    requires forall i :: 0 <= i < |scanned| ==> scanned[i].0 in rules.tiers
    ensures Reports(rules, scanned, AllViolations(rules, scanned), at)
  {
    if scanned == [] {
      at := [];
    } else {
      var n := |scanned| - 1;
      at := ViolationsInOrder(rules, scanned[..n]);
      var last := ViolationsOfInOrder(rules, scanned[n].0, scanned[n].1);
      at := ReportsCompose(
        rules, scanned, AllViolations(rules, scanned[..n]), at, ViolationsOf(rules, scanned[n].0, scanned[n].1), last);
    }
  }

  function InModule(n: nat, at: seq<nat>): (positions: seq<Position>)
    ensures |positions| == |at|
  {
    seq(|at|, k requires 0 <= k < |at| => (n, at[k]))
  }

  lemma {:induction false} StandsForInLonger(
    rules: Rules, scanned: seq<(ModuleName, seq<ModuleName>)>, n: nat, violation: Violation, p: Position)
    requires n <= |scanned| && StandsFor(rules, scanned[..n], violation, p)
    ensures p.0 < n && StandsFor(rules, scanned, violation, p)
  {
    hide Forbidden, Names;
    assert EdgeAt(scanned, p) == EdgeAt(scanned[..n], p);
  }

  lemma {:induction false} ModuleReports(
    rules: Rules, scanned: seq<(ModuleName, seq<ModuleName>)>, n: nat, violations: seq<Violation>, at: seq<nat>)
    requires n < |scanned| && ReportsOf(rules, scanned[n].0, scanned[n].1, violations, at)
    ensures |InModule(n, at)| == |at| == |violations|
    ensures forall k :: 0 <= k < |at| ==> InModule(n, at)[k].0 == n
    ensures forall k :: 0 <= k < |at| ==> StandsFor(rules, scanned, violations[k], InModule(n, at)[k])
    ensures forall j, k :: 0 <= j < k < |at| ==> Before(InModule(n, at)[j], InModule(n, at)[k])
    ensures forall i :: 0 <= i < |scanned[n].1| && Forbidden(rules, EdgeAt(scanned, (n, i))) ==>
      (n, i) in InModule(n, at)
  {
    hide Forbidden, Names;
    var imports := scanned[n].1;
    forall i | 0 <= i < |imports| && Forbidden(rules, EdgeAt(scanned, (n, i))) ensures (n, i) in InModule(n, at) {
      var k :| 0 <= k < |at| && at[k] == i;
      assert InModule(n, at)[k] == (n, i);
    }
  }

  lemma {:induction false} ReportsCompose(
    rules: Rules, scanned: seq<(ModuleName, seq<ModuleName>)>, first: seq<Violation>, at: seq<Position>,
    second: seq<Violation>, last: seq<nat>)
    returns (all: seq<Position>)
    requires scanned != [] && Reports(rules, scanned[..|scanned| - 1], first, at)
    requires ReportsOf(rules, scanned[|scanned| - 1].0, scanned[|scanned| - 1].1, second, last)
    ensures Reports(rules, scanned, first + second, all)
  {
    hide StandsFor, Forbidden, Within, Before, InModule;
    var n: nat := |scanned| - 1;
    var added := InModule(n, last);
    all := at + added;
    ModuleReports(rules, scanned, n, second, last);
    AllStandFor(rules, scanned, n, first, at);
    ConcatStandsFor(rules, scanned, first, at, second, added);
    ConcatIsOrdered(at, added, n);
    NothingIsMissed(rules, scanned, at, added);
  }

  lemma {:induction false} AllStandFor(
    rules: Rules, scanned: seq<(ModuleName, seq<ModuleName>)>, n: nat, violations: seq<Violation>, at: seq<Position>)
    requires n <= |scanned| && |at| == |violations|
    requires forall k :: 0 <= k < |at| ==> StandsFor(rules, scanned[..n], violations[k], at[k])
    ensures forall k :: 0 <= k < |at| ==> at[k].0 < n && StandsFor(rules, scanned, violations[k], at[k])
  {
    hide StandsFor;
    forall k | 0 <= k < |at| ensures at[k].0 < n && StandsFor(rules, scanned, violations[k], at[k]) {
      StandsForInLonger(rules, scanned, n, violations[k], at[k]);
    }
  }

  lemma {:induction false} ConcatStandsFor(
    rules: Rules, scanned: seq<(ModuleName, seq<ModuleName>)>, first: seq<Violation>, at: seq<Position>,
    second: seq<Violation>, added: seq<Position>)
    requires |at| == |first| && |added| == |second|
    requires forall k :: 0 <= k < |at| ==> StandsFor(rules, scanned, first[k], at[k])
    requires forall k :: 0 <= k < |added| ==> StandsFor(rules, scanned, second[k], added[k])
    ensures forall k :: 0 <= k < |at + added| ==> StandsFor(rules, scanned, (first + second)[k], (at + added)[k])
  {
    hide StandsFor;
  }

  lemma {:induction false} ConcatIsOrdered(a: seq<Position>, b: seq<Position>, n: nat)
    requires forall j, k :: 0 <= j < k < |a| ==> Before(a[j], a[k])
    requires forall j, k :: 0 <= j < k < |b| ==> Before(b[j], b[k])
    requires (forall k :: 0 <= k < |a| ==> a[k].0 < n) && forall k :: 0 <= k < |b| ==> b[k].0 == n
    ensures forall j, k :: 0 <= j < k < |a + b| ==> Before((a + b)[j], (a + b)[k])
  {
  }

  lemma {:induction false} NothingIsMissed(
    rules: Rules, scanned: seq<(ModuleName, seq<ModuleName>)>, at: seq<Position>, added: seq<Position>)
    requires scanned != []
    requires var shorter := scanned[..|scanned| - 1];
             forall p :: Within(shorter, p) && Forbidden(rules, EdgeAt(shorter, p)) ==> p in at
    requires var n: nat := |scanned| - 1;
             forall i :: 0 <= i < |scanned[n].1| && Forbidden(rules, EdgeAt(scanned, (n, i))) ==> (n, i) in added
    ensures forall p :: Within(scanned, p) && Forbidden(rules, EdgeAt(scanned, p)) ==> p in at + added
  {
    hide Forbidden;
    var n: nat := |scanned| - 1;
    var shorter := scanned[..n];
    forall p: Position | Within(scanned, p) && Forbidden(rules, EdgeAt(scanned, p)) ensures p in at + added {
      if p.0 < n {
        assert Within(shorter, p) && EdgeAt(shorter, p) == EdgeAt(scanned, p);
      } else {
        assert p == (n, p.1);
      }
    }
  }

  // ---- Paths --------------------------------------------------------------------------------

  /** Along the path every edge is between known modules, not whitelisted and not reported. */
  ghost predicate Clean(rules: Rules, path: seq<ModuleName>) {
    && (forall i :: 0 <= i < |path| ==> path[i] in rules.tiers)
    && forall i :: 0 <= i < |path| - 1 ==>
         !Whitelisted(rules, Edge(path[i], path[i + 1])) && !Reported(rules, Edge(path[i], path[i + 1]))
  }

  function TierAt(rules: Rules, path: seq<ModuleName>, i: nat): Tier
    requires i < |path| && path[i] in rules.tiers
  {
    rules.tiers[path[i]]
  }

  /** Tiers never rise along the path, and only Tier 3 repeats. */
  ghost predicate Descends(rules: Rules, path: seq<ModuleName>)
    requires forall i :: 0 <= i < |path| ==> path[i] in rules.tiers
  {
    forall i, j :: 0 <= i < j < |path| ==>
      TierAt(rules, path, i) > TierAt(rules, path, j) || TierAt(rules, path, i) == TierAt(rules, path, j) == 3
  }

  lemma {:induction false} CleanStep(rules: Rules, path: seq<ModuleName>, i: nat)
    requires Clean(rules, path) && i + 1 < |path|
    ensures TierAt(rules, path, i) > TierAt(rules, path, i + 1)
         || TierAt(rules, path, i) == TierAt(rules, path, i + 1) == 3
  {
  }

  lemma {:induction false} CleanDescends(rules: Rules, path: seq<ModuleName>, i: nat, j: nat)
    requires Clean(rules, path) && i < j < |path|
    ensures TierAt(rules, path, i) > TierAt(rules, path, j) || TierAt(rules, path, i) == TierAt(rules, path, j) == 3
    decreases j - i
  {
    CleanStep(rules, path, i);
    if i + 1 < j {
      CleanDescends(rules, path, i + 1, j);
    }
  }

  /** The local rule has an exact global meaning: a path without exceptions is clean iff its tiers descend. */
  lemma {:induction false} CleanIffDescends(rules: Rules, path: seq<ModuleName>)
    requires forall i :: 0 <= i < |path| ==> path[i] in rules.tiers
    requires forall i :: 0 <= i < |path| - 1 ==> !Whitelisted(rules, Edge(path[i], path[i + 1]))
    ensures Clean(rules, path) <==> Descends(rules, path)
  {
    if Clean(rules, path) {
      forall i, j | 0 <= i < j < |path|
        ensures TierAt(rules, path, i) > TierAt(rules, path, j) || TierAt(rules, path, i) == TierAt(rules, path, j) == 3
      {
        CleanDescends(rules, path, i, j);
      }
    }
    if Descends(rules, path) {
      forall i | 0 <= i < |path| - 1 ensures !Reported(rules, Edge(path[i], path[i + 1])) {
        assert TierAt(rules, path, i) > TierAt(rules, path, i + 1) || TierAt(rules, path, i) == 3;
      }
    }
  }

  function Outsiders(rules: Rules, path: seq<ModuleName>): set<nat>
    requires forall i :: 0 <= i < |path| ==> path[i] in rules.tiers
  {
    set i: nat | i < |path| && TierAt(rules, path, i) != 3
  }

  /** At most three modules of a clean path are outside Tier 3. */
  lemma {:induction false} FewOutsideTier3(rules: Rules, path: seq<ModuleName>)
    requires Clean(rules, path)
    ensures |Outsiders(rules, path)| <= 3
  {
    var positions := Outsiders(rules, path);
    var tiers := set i | i in positions :: TierAt(rules, path, i);
    forall i, j | i in positions && j in positions && i != j ensures TierAt(rules, path, i) != TierAt(rules, path, j) {
      CleanDescends(rules, path, if i < j then i else j, if i < j then j else i);
    }
    ImageSize(rules, path, positions);
    assert tiers <= {1, 2, 4};
    SubsetSize(tiers, {1, 2, 4});
  }

  lemma {:induction false} SubsetSize<T>(a: set<T>, b: set<T>)
    requires a <= b
    ensures |a| <= |b|
  {
    assert b == a + (b - a);
  }

  lemma {:induction false} ImageSize(rules: Rules, path: seq<ModuleName>, positions: set<nat>)
    requires forall i :: i in positions ==> i < |path| && path[i] in rules.tiers
    requires forall i, j :: i in positions && j in positions && i != j ==>
      TierAt(rules, path, i) != TierAt(rules, path, j)
    ensures |set i | i in positions :: TierAt(rules, path, i)| == |positions|
  {
    if positions == {} {
      assert (set i | i in positions :: TierAt(rules, path, i)) == {};
    } else {
      var p :| p in positions;
      ImageSize(rules, path, positions - {p});
      assert (set i | i in positions :: TierAt(rules, path, i))
          == (set i | i in positions - {p} :: TierAt(rules, path, i)) + {TierAt(rules, path, p)};
    }
  }

  /** Every import cycle lies wholly in Tier 3, or has an edge that is whitelisted or reported. */
  lemma {:induction false} CyclesStayInTier3(rules: Rules, cycle: seq<ModuleName>)
    requires |cycle| >= 2 && cycle[0] == cycle[|cycle| - 1]
    requires forall i :: 0 <= i < |cycle| ==> cycle[i] in rules.tiers
    ensures (forall i :: 0 <= i < |cycle| ==> TierAt(rules, cycle, i) == 3)
         || exists i :: 0 <= i < |cycle| - 1 &&
              (Whitelisted(rules, Edge(cycle[i], cycle[i + 1])) || Reported(rules, Edge(cycle[i], cycle[i + 1])))
  {
    if Clean(rules, cycle) {
      var last := |cycle| - 1;
      CleanDescends(rules, cycle, 0, last);
      forall i | 0 < i < last ensures TierAt(rules, cycle, i) == 3 {
        CleanDescends(rules, cycle, 0, i);
        CleanDescends(rules, cycle, i, last);
      }
    }
  }
}
