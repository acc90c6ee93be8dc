/** Flattening locale messages to dotted keys. */
module Messages {
  import opened Text
  import Decimal

  /** Objects are the entries of `Object.entries`; leaves are everything that is neither array nor object. */
  datatype Json = Leaf(value: string) | Arr(items: seq<Json>) | Obj(entries: seq<(string, Json)>) {
    function Width(): nat {
      match this
      case Leaf(_) => 0
      case Arr(items) => |items|
      case Obj(entries) => |entries|
    }

    function Segment(i: nat): string
      requires i < Width()
    {
      if Arr? then Decimal.Print(i) else entries[i].0
    }

    function Child(i: nat): (child: Json)
      requires i < Width()
      ensures child < this
    {
      if Arr? then items[i] else entries[i].1
    }

    /** Object keys are pairwise distinct. */
    ghost predicate Valid() {
      && (forall i, j :: 0 <= i < j < Width() && Obj? ==> entries[i].0 != entries[j].0)
      && forall i :: 0 <= i < Width() ==> Child(i).Valid()
    }

    /** Object keys are non-empty and have no dot in them. */
    ghost predicate PlainKeys() {
      forall i :: 0 <= i < Width() ==> (Obj? ==> entries[i].0 != "" && '.' !in entries[i].0) && Child(i).PlainKeys()
    }
  }

  type Path = seq<string>

  // ---- Leaves and keys ----------------------------------------------------------------------

  function Extend(prefix: string, segment: string): string {
    if prefix == "" then segment else prefix + "." + segment
  }

  function KeyFrom(prefix: string, path: Path): string
    decreases |path|
  {
    if path == [] then prefix else KeyFrom(Extend(prefix, path[0]), path[1..])
  }

  /** The key under which a leaf is stored. */
  function Key(path: Path): string { KeyFrom("", path) }

  function Lead(segment: string, leaves: seq<(Path, string)>): seq<(Path, string)> {
    seq(|leaves|, i requires 0 <= i < |leaves| => ([segment] + leaves[i].0, leaves[i].1))
  }

  /** All leaves with the path that leads to each, in visiting order. */
  function Leaves(v: Json): seq<(Path, string)>
    decreases v, v.Width() + 1
  {
    if v.Leaf? then [([], v.value)] else LeavesUpTo(v, v.Width())
  }

  function LeavesUpTo(v: Json, n: nat): seq<(Path, string)>
    requires n <= v.Width()
    decreases v, n
  {
    if n == 0 then [] else LeavesUpTo(v, n - 1) + Lead(v.Segment(n - 1), Leaves(v.Child(n - 1)))
  }

  function StoreAll(m: map<string, string>, prefix: string, leaves: seq<(Path, string)>): map<string, string> {
    if leaves == [] then m
    else
      var n := |leaves| - 1;
      StoreAll(m, prefix, leaves[..n])[KeyFrom(prefix, leaves[n].0) := leaves[n].1]
  }

  lemma {:induction false} StoreAllAppends(
    m: map<string, string>, prefix: string, a: seq<(Path, string)>, b: seq<(Path, string)>)
    ensures StoreAll(m, prefix, a + b) == StoreAll(StoreAll(m, prefix, a), prefix, b)
  {
    if b == [] {
      assert a + b == a;
    } else {
      StoreAllAppends(m, prefix, a, b[..|b| - 1]);
      assert (a + b)[..|a + b| - 1] == a + b[..|b| - 1];
    }
  }

  lemma {:induction false} StoreAllLed(
    m: map<string, string>, prefix: string, segment: string, leaves: seq<(Path, string)>)
    ensures StoreAll(m, prefix, Lead(segment, leaves)) == StoreAll(m, Extend(prefix, segment), leaves)
  {
    if leaves != [] {
      var n := |leaves| - 1;
      StoreAllLed(m, prefix, segment, leaves[..n]);
      assert Lead(segment, leaves)[..n] == Lead(segment, leaves[..n]);
      assert ([segment] + leaves[n].0)[1..] == leaves[n].0;
    }
  }

  lemma {:induction false} StoreNothing(m: map<string, string>, prefix: string)
    ensures StoreAll(m, prefix, []) == m
  {
  }

  lemma {:induction false} StoreOne(m: map<string, string>, prefix: string, value: string)
    ensures StoreAll(m, prefix, [([], value)]) == m[prefix := value]
  {
    var leaves: seq<(Path, string)> := [([], value)];
    assert leaves[..0] == [];
  }

  lemma {:induction false} LeavesStart(v: Json)
    ensures if v.Leaf? then Leaves(v) == [([], v.value)] else Leaves(v) == LeavesUpTo(v, v.Width())
    ensures LeavesUpTo(v, 0) == []
  {
  }

  lemma {:induction false} LeavesStep(v: Json, i: nat)
    requires i < v.Width()
    ensures LeavesUpTo(v, i + 1) == LeavesUpTo(v, i) + Lead(v.Segment(i), Leaves(v.Child(i)))
  {
  }

  class Flattener {
    var target: map<string, string>

    constructor ()
      ensures target == map[]
    {
      target := map[];
    }

    method Flatten(value: Json, prefix: string)
      modifies this
      ensures target == StoreAll(old(target), prefix, Leaves(value))
      decreases value
    {
      hide StoreAll, Lead, Extend, Leaves, LeavesUpTo;
      LeavesStart(value);
      StoreNothing(target, prefix);
      if value.Leaf? {
        StoreOne(target, prefix, value.value);
        target := target[prefix := value.value];
        return;
      }
      for i := 0 to value.Width()
        invariant target == StoreAll(old(target), prefix, LeavesUpTo(value, i))
      {
        var nextPrefix := Extend(prefix, value.Segment(i));
        ghost var led := Lead(value.Segment(i), Leaves(value.Child(i)));
        StoreAllLed(target, prefix, value.Segment(i), Leaves(value.Child(i)));
        StoreAllAppends(old(target), prefix, LeavesUpTo(value, i), led);
        LeavesStep(value, i);
        Flatten(value.Child(i), nextPrefix);
      }
    }
  }

  // ---- A key determines its path ------------------------------------------------------------

  lemma {:induction false} KeyFromIsJoin(prefix: string, path: Path)
    requires prefix != ""
    ensures KeyFrom(prefix, path) == Join([prefix] + path, '.')
    decreases |path|
  {
    if path == [] {
    } else {
      var longer := Extend(prefix, path[0]);
      KeyFromIsJoin(longer, path[1..]);
      assert ([prefix] + path)[1..] == path;
      assert ([longer] + path[1..])[1..] == path[1..];
    }
  }

  lemma {:induction false} KeyIsJoin(path: Path)
    requires path != [] && (|path| == 1 || path[0] != "")
    ensures Key(path) == Join(path, '.')
  {
    if path[0] == "" {
      assert KeyFrom("", path) == KeyFrom("", path[1..]) == "";
    } else {
      KeyFromIsJoin(path[0], path[1..]);
      assert path == [path[0]] + path[1..];
    }
  }

  lemma {:induction false} KeyIsNoLongerThanJoin(path: Path)
    ensures |Key(path)| <= |Join(path, '.')|
  {
    if path != [] {
      if |path| == 1 || path[0] != "" {
        KeyIsJoin(path);
      } else {
        KeyIsNoLongerThanJoin(path[1..]);
      }
    }
  }

  /** Splitting a key on dots gives back the path exactly when no segment has a dot and no empty segment leads. */
  lemma {:induction false} KeySplitsBackIff(path: Path)
    requires path != []
    ensures Split(Key(path), '.') == path <==>
      (forall i :: 0 <= i < |path| ==> SepFree(path[i], '.')) && (|path| == 1 || path[0] != "")
  {
    JoinOfSplit(Key(path), '.');
    if |path| == 1 || path[0] != "" {
      KeyIsJoin(path);
      if forall i :: 0 <= i < |path| ==> SepFree(path[i], '.') {
        SplitOfJoin(path, '.');
      }
    } else {
      KeyIsNoLongerThanJoin(path[1..]);
      assert Key(path) == Key(path[1..]);
      assert |Join(path, '.')| == 1 + |Join(path[1..], '.')|;
    }
  }

  // ---- Messages with plain keys -------------------------------------------------------------

  /** Following `path` down from `v` ends at `w`. */
  ghost predicate LeadsTo(v: Json, path: Path, w: Json)
    decreases |path|
  {
    if path == [] then v == w
    else exists i :: 0 <= i < v.Width() && v.Segment(i) == path[0] && LeadsTo(v.Child(i), path[1..], w)
  }

  lemma {:induction false} SegmentsAreDistinct(v: Json, i: nat, j: nat)
    requires v.Valid() && i < j < v.Width()
    ensures v.Segment(i) != v.Segment(j)
  {
    Decimal.ValueOfPrint(i);
    Decimal.ValueOfPrint(j);
  }

  lemma {:induction false} LeadMembers(segment: string, leaves: seq<(Path, string)>, leaf: (Path, string))
    ensures leaf in Lead(segment, leaves) <==> leaf.0 != [] && leaf.0[0] == segment && (leaf.0[1..], leaf.1) in leaves
  {
    if leaf.0 != [] && leaf.0[0] == segment && (leaf.0[1..], leaf.1) in leaves {
      var i :| 0 <= i < |leaves| && leaves[i] == (leaf.0[1..], leaf.1);
      assert leaf.0 == [segment] + leaf.0[1..];
      assert Lead(segment, leaves)[i] == leaf;
    }
    if leaf in Lead(segment, leaves) {
      var i :| 0 <= i < |leaves| && Lead(segment, leaves)[i] == leaf;
      assert leaf.0[1..] == leaves[i].0;
      assert leaves[i] == (leaf.0[1..], leaf.1);
    }
  }

  /** The leaf continues through one of the first `n` children. */
  ghost predicate Through(v: Json, n: nat, leaf: (Path, string))
    requires n <= v.Width()
  {
    leaf.0 != [] && exists i :: 0 <= i < n && v.Segment(i) == leaf.0[0] && (leaf.0[1..], leaf.1) in Leaves(v.Child(i))
  }

  lemma {:induction false} ThroughStep(v: Json, n: nat, leaf: (Path, string))
    requires n < v.Width()
    ensures Through(v, n + 1, leaf) <==>
      Through(v, n, leaf)
      || (leaf.0 != [] && v.Segment(n) == leaf.0[0] && (leaf.0[1..], leaf.1) in Leaves(v.Child(n)))
  {
    hide Leaves, Json.Segment;
  }

  lemma {:induction false} LeavesUpToMembers(v: Json, n: nat, leaf: (Path, string))
    requires n <= v.Width()
    ensures leaf in LeavesUpTo(v, n) <==> Through(v, n, leaf)
  {
    hide Leaves, Lead, Json.Segment;
    if n > 0 {
      hide Through;
      LeavesUpToMembers(v, n - 1, leaf);
      LeadMembers(v.Segment(n - 1), Leaves(v.Child(n - 1)), leaf);
      ThroughStep(v, n - 1, leaf);
    }
  }

  /** The leaves found by flattening are those that paths lead to. */
  lemma {:induction false} LeavesAreReachable(v: Json, leaf: (Path, string))
    ensures leaf in Leaves(v) <==> LeadsTo(v, leaf.0, Leaf(leaf.1))
    decreases |leaf.0|
  {
    LeavesStart(v);
    if !v.Leaf? {
      LeavesUpToMembers(v, v.Width(), leaf);
      if leaf.0 != [] {
        forall i | 0 <= i < v.Width()
          ensures (leaf.0[1..], leaf.1) in Leaves(v.Child(i)) <==> LeadsTo(v.Child(i), leaf.0[1..], Leaf(leaf.1))
        {
          LeavesAreReachable(v.Child(i), (leaf.0[1..], leaf.1));
        }
      }
    }
  }

  /** What indexing finds: in an array the item that the segment is the index of, in an object the entry's value. */
  function Get(v: Json, path: Path): Option<Json>
    decreases |path|
  {
    if path == [] then Some(v)
    else
      match v
      case Leaf(_) => None
      case Arr(items) =>
        if Decimal.Canonical(path[0]) && Decimal.Value(path[0]) < |items|
        then Get(items[Decimal.Value(path[0])], path[1..]) else None
      case Obj(entries) =>
        var found := Entry(entries, path[0]);
        if found.Some? then Get(found.value, path[1..]) else None
  }

  function Entry(entries: seq<(string, Json)>, key: string): Option<Json> {
    if entries == [] then None
    else if entries[0].0 == key then Some(entries[0].1)
    else Entry(entries[1..], key)
  }

  lemma {:induction false} EntryIs(entries: seq<(string, Json)>, key: string, i: nat)
    requires i < |entries| && entries[i].0 == key
    requires forall j, k :: 0 <= j < k < |entries| ==> entries[j].0 != entries[k].0
    ensures Entry(entries, key) == Some(entries[i].1)
  {
    if i > 0 {
      assert entries[0].0 != entries[i].0;
      EntryIs(entries[1..], key, i - 1);
    }
  }

  lemma {:induction false} EntryIsThere(entries: seq<(string, Json)>, key: string) returns (i: nat)
    requires Entry(entries, key).Some?
    ensures i < |entries| && entries[i].0 == key && entries[i].1 == Entry(entries, key).value
  {
    if entries[0].0 == key {
      i := 0;
    } else {
      i := EntryIsThere(entries[1..], key);
      i := i + 1;
    }
  }

  /** The paths that flattening follows are those that indexing follows. */
  lemma {:induction false} LeadsToIsGet(v: Json, path: Path, w: Json)
    requires v.Valid()
    ensures LeadsTo(v, path, w) <==> Get(v, path) == Some(w)
    decreases |path|
  {
    if path != [] {
      forall i | 0 <= i < v.Width()
        ensures LeadsTo(v.Child(i), path[1..], w) <==> Get(v.Child(i), path[1..]) == Some(w)
      {
        LeadsToIsGet(v.Child(i), path[1..], w);
      }
      match v {
        case Leaf(_) =>
        case Arr(items) =>
          forall i | 0 <= i < |items|
            ensures v.Segment(i) == path[0] <==> Decimal.Canonical(path[0]) && Decimal.Value(path[0]) == i
          {
            SegmentIsIndex(path[0], i);
          }
          if Decimal.Canonical(path[0]) && Decimal.Value(path[0]) < |items| {
            var i := Decimal.Value(path[0]);
            assert v.Segment(i) == path[0] && v.Child(i) == items[i];
          }
        case Obj(entries) =>
          forall i | 0 <= i < |entries| && v.Segment(i) == path[0]
            ensures Entry(entries, path[0]) == Some(v.Child(i))
          {
            EntryIs(entries, path[0], i);
          }
          if Entry(entries, path[0]).Some? {
            var i := EntryIsThere(entries, path[0]);
            assert v.Segment(i) == path[0] && v.Child(i) == Entry(entries, path[0]).value;
          }
      }
    }
  }

  lemma {:induction false} SegmentIsIndex(segment: string, i: nat)
    ensures Decimal.Print(i) == segment <==> Decimal.Canonical(segment) && Decimal.Value(segment) == i
  {
    Decimal.PrintIsCanonical(i);
    Decimal.ValueOfPrint(i);
    if Decimal.Canonical(segment) {
      Decimal.PrintOfValue(segment);
    }
  }

  ghost predicate DistinctPaths(leaves: seq<(Path, string)>) {
    forall i, j :: 0 <= i < j < |leaves| ==> leaves[i].0 != leaves[j].0
  }

  lemma {:induction false} LeadKeepsDistinct(segment: string, leaves: seq<(Path, string)>)
    requires DistinctPaths(leaves)
    ensures DistinctPaths(Lead(segment, leaves))
  {
    var led := Lead(segment, leaves);
    forall i, j | 0 <= i < j < |led| ensures led[i].0 != led[j].0 {
      assert led[i].0[1..] == leaves[i].0 && led[j].0[1..] == leaves[j].0;
    }
  }

  lemma {:induction false} LeavesAreDistinct(v: Json)
    requires v.Valid()
    ensures DistinctPaths(Leaves(v))
    decreases v, v.Width() + 1
  {
    if !v.Leaf? {
      LeavesUpToAreDistinct(v, v.Width());
    }
  }

  lemma {:induction false} LeavesUpToAreDistinct(v: Json, n: nat)
    requires v.Valid() && n <= v.Width()
    ensures DistinctPaths(LeavesUpTo(v, n))
    decreases v, n
  {
    hide Leaves, Lead, Json.Segment;
    if n > 0 {
      LeavesUpToAreDistinct(v, n - 1);
      LeavesAreDistinct(v.Child(n - 1));
      var a, b := LeavesUpTo(v, n - 1), Lead(v.Segment(n - 1), Leaves(v.Child(n - 1)));
      LeadKeepsDistinct(v.Segment(n - 1), Leaves(v.Child(n - 1)));
      forall i, j | 0 <= i < |a| && 0 <= j < |b| ensures a[i].0 != b[j].0 {
        LeavesUpToMembers(v, n - 1, a[i]);
        LeadMembers(v.Segment(n - 1), Leaves(v.Child(n - 1)), b[j]);
        assert a[i] in a && b[j] in b;
        var k :| 0 <= k < n - 1 && v.Segment(k) == a[i].0[0];
        SegmentsAreDistinct(v, k, n - 1);
      }
    }
  }

  lemma {:induction false} PrintHasNoDot(n: nat)
    ensures SepFree(Decimal.Print(n), '.') && Decimal.Print(n) != ""
  {
    Decimal.ValueOfPrint(n);
    var s := Decimal.Print(n);
    forall i | 0 <= i < |s| ensures s[i] != '.' {
      assert Decimal.IsDigit(s[i]);
    }
  }

  lemma {:induction false} LeafPathsArePlain(v: Json, path: Path, w: Json)
    requires v.PlainKeys() && LeadsTo(v, path, w)
    ensures forall i :: 0 <= i < |path| ==> SepFree(path[i], '.') && path[i] != ""
    decreases |path|
  {
    if path != [] {
      var k :| 0 <= k < v.Width() && v.Segment(k) == path[0] && LeadsTo(v.Child(k), path[1..], w);
      PrintHasNoDot(k);
      LeafPathsArePlain(v.Child(k), path[1..], w);
      assert path == [path[0]] + path[1..];
    }
  }

  ghost predicate DistinctKeys(leaves: seq<(Path, string)>) {
    forall i, j :: 0 <= i < j < |leaves| ==> Key(leaves[i].0) != Key(leaves[j].0)
  }

  lemma {:induction false} StoreAllKeys(leaves: seq<(Path, string)>, key: string)
    ensures key in StoreAll(map[], "", leaves) <==> exists i :: 0 <= i < |leaves| && Key(leaves[i].0) == key
  {
    if leaves != [] {
      hide KeyFrom;
      var n := |leaves| - 1;
      StoreAllKeys(leaves[..n], key);
      if i :| 0 <= i < |leaves| && Key(leaves[i].0) == key {
        assert i == n || Key(leaves[..n][i].0) == key;
      }
      if i :| 0 <= i < n && Key(leaves[..n][i].0) == key {
        assert Key(leaves[i].0) == key;
      }
    }
  }

  /** The last leaf with a key is the one that stays under it. */
  lemma {:induction false} LastLeafIsStored(leaves: seq<(Path, string)>, i: nat)
    requires i < |leaves| && forall j :: i < j < |leaves| ==> Key(leaves[j].0) != Key(leaves[i].0)
    ensures Key(leaves[i].0) in StoreAll(map[], "", leaves)
    ensures StoreAll(map[], "", leaves)[Key(leaves[i].0)] == leaves[i].1
  {
    hide KeyFrom;
    var n := |leaves| - 1;
    if i < n {
      assert leaves[..n][i] == leaves[i];
      LastLeafIsStored(leaves[..n], i);
    }
  }

  /** As many entries as leaves exactly if no two leaves have the same key; otherwise fewer. */
  lemma {:induction false} NoLeafIsLostIffKeysDistinct(leaves: seq<(Path, string)>)
    ensures |StoreAll(map[], "", leaves)| <= |leaves|
    ensures |StoreAll(map[], "", leaves)| == |leaves| <==> DistinctKeys(leaves)
  {
    if leaves != [] {
      hide KeyFrom;
      var n := |leaves| - 1;
      var shorter, key := leaves[..n], Key(leaves[n].0);
      NoLeafIsLostIffKeysDistinct(shorter);
      StoreAllKeys(shorter, key);
      assert forall i :: 0 <= i < n ==> shorter[i] == leaves[i];
      if key in StoreAll(map[], "", shorter) {
        var i :| 0 <= i < n && Key(shorter[i].0) == key;
        assert Key(leaves[i].0) == Key(leaves[n].0);
      }
    }
  }

  /** One entry per leaf, holding its value, under a key that splits back into the path to the leaf. */
  ghost predicate Faithful(v: Json) {
    var m := StoreAll(map[], "", Leaves(v));
    && |m| == |Leaves(v)|
    && (forall path, x :: LeadsTo(v, path, Leaf(x)) ==>
          Key(path) in m && m[Key(path)] == x && Split(Key(path), '.') == path)
    && (forall key :: key in m ==> LeadsTo(v, Split(key, '.'), Leaf(m[key])))
  }

  /** No segment has a dot in it, and an empty one leads nothing longer than itself. */
  ghost predicate PlainPath(path: Path) {
    path != [] && (forall i :: 0 <= i < |path| ==> SepFree(path[i], '.')) && (|path| == 1 || path[0] != "")
  }

  ghost predicate PlainLeaves(v: Json) {
    forall path, x :: LeadsTo(v, path, Leaf(x)) ==> PlainPath(path)
  }

  lemma {:induction false} KeyOfPlainPath(path: Path)
    ensures Split(Key(path), '.') == path <==> PlainPath(path)
  {
    if path != [] {
      KeySplitsBackIff(path);
    }
  }

  lemma {:induction false} PlainLeavesHaveDistinctKeys(v: Json)
    requires v.Valid() && PlainLeaves(v)
    ensures DistinctKeys(Leaves(v))
  {
    var leaves := Leaves(v);
    LeavesAreDistinct(v);
    forall i | 0 <= i < |leaves| ensures Split(Key(leaves[i].0), '.') == leaves[i].0 {
      assert leaves[i] in leaves;
      LeavesAreReachable(v, leaves[i]);
      KeyOfPlainPath(leaves[i].0);
    }
  }

  lemma {:induction false} PlainLeavesAreFaithful(v: Json)
    requires v.Valid() && PlainLeaves(v)
    ensures Faithful(v)
  {
    hide KeyFrom, PlainPath;
    var leaves := Leaves(v);
    var m := StoreAll(map[], "", leaves);
    PlainLeavesHaveDistinctKeys(v);
    NoLeafIsLostIffKeysDistinct(leaves);
    forall path, x | LeadsTo(v, path, Leaf(x))
      ensures Key(path) in m && m[Key(path)] == x && Split(Key(path), '.') == path
    {
      LeavesAreReachable(v, (path, x));
      var i :| 0 <= i < |leaves| && leaves[i] == (path, x);
      LastLeafIsStored(leaves, i);
      KeyOfPlainPath(path);
    }
    forall key | key in m ensures LeadsTo(v, Split(key, '.'), Leaf(m[key])) {
      StoreAllKeys(leaves, key);
      var i :| 0 <= i < |leaves| && Key(leaves[i].0) == key;
      LastLeafIsStored(leaves, i);
      LeavesAreReachable(v, leaves[i]);
      KeyOfPlainPath(leaves[i].0);
    }
  }

  /** Flattening is faithful for exactly the messages whose leaves all have plain paths. */
  lemma {:induction false} FlatteningIsFaithful(v: Json)
    requires v.Valid()
    ensures Faithful(v) <==> PlainLeaves(v)
  {
    if PlainLeaves(v) {
      PlainLeavesAreFaithful(v);
    }
    if Faithful(v) {
      forall path, x | LeadsTo(v, path, Leaf(x)) ensures PlainPath(path) {
        KeyOfPlainPath(path);
      }
    }
  }

  /** In particular messages whose object keys are non-empty and dot-free are flattened faithfully. */
  lemma {:induction false} PlainKeysAreFaithful(v: Json)
    requires v.Valid() && v.PlainKeys() && !v.Leaf?
    ensures Faithful(v)
  {
    forall path, x | LeadsTo(v, path, Leaf(x)) ensures PlainPath(path) {
      LeafPathsArePlain(v, path, Leaf(x));
    }
    FlatteningIsFaithful(v);
  }

  /** `{"a.b": x, "a": {"b": y}}` */
  function DottedMessages(x: string, y: string): Json { Obj([("a.b", Leaf(x)), ("a", Obj([("b", Leaf(y))]))]) }

  /** `{"": {"a": x}, "a": y}` */
  function UnnamedMessages(x: string, y: string): Json { Obj([("", Obj([("a", Leaf(x))])), ("a", Leaf(y))]) }

  lemma {:induction false} LeadOne(segment: string, path: Path, value: string)
    ensures Lead(segment, [(path, value)]) == [([segment] + path, value)]
  {
  }

  lemma {:induction false} LeavesOfLeaf(x: string)
    ensures Leaves(Leaf(x)) == [([], x)]
  {
  }

  lemma {:induction false} LeavesOfOne(key: string, x: string)
    ensures Leaves(Obj([(key, Leaf(x))])) == [([key], x)]
  {
    hide Lead, Leaves;
    var v := Obj([(key, Leaf(x))]);
    LeavesOfLeaf(x);
    LeavesStart(v);
    LeavesStep(v, 0);
    LeadOne(key, [], x);
    assert [key] + [] == [key];
    assert LeavesUpTo(v, 1) == [([key], x)];
  }

  lemma {:induction false} LeavesOfTwo(
    first: (string, Json), a: (Path, string), second: (string, Json), b: (Path, string))
    requires Leaves(first.1) == [a] && Leaves(second.1) == [b]
    ensures Leaves(Obj([first, second])) == [([first.0] + a.0, a.1), ([second.0] + b.0, b.1)]
  {
    hide Lead, Leaves;
    var v := Obj([first, second]);
    LeavesStart(v);
    LeavesStep(v, 0);
    LeavesStep(v, 1);
    LeadOne(first.0, a.0, a.1);
    LeadOne(second.0, b.0, b.1);
    assert LeavesUpTo(v, 1) == [([first.0] + a.0, a.1)];
    assert LeavesUpTo(v, 2) == [([first.0] + a.0, a.1), ([second.0] + b.0, b.1)];
  }

  lemma {:induction false} OneOrTwoAreValid(first: (string, Json), second: (string, Json))
    requires first.1.Valid() && second.1.Valid()
    ensures Obj([first]).Valid()
    ensures first.0 != second.0 ==> Obj([first, second]).Valid()
  {
  }

  lemma {:induction false} CollidingMessagesAreValid(x: string, y: string)
    ensures DottedMessages(x, y).Valid() && UnnamedMessages(x, y).Valid()
  {
    assert Leaf(x).Valid() && Leaf(y).Valid();
    OneOrTwoAreValid(("b", Leaf(y)), ("b", Leaf(y)));
    OneOrTwoAreValid(("a", Leaf(x)), ("a", Leaf(x)));
    OneOrTwoAreValid(("a.b", Leaf(x)), ("a", Obj([("b", Leaf(y))])));
    OneOrTwoAreValid(("", Obj([("a", Leaf(x))])), ("a", Leaf(y)));
  }

  lemma {:induction false} StoreTwo(a: (Path, string), b: (Path, string))
    ensures StoreAll(map[], "", [a, b]) == map[Key(a.0) := a.1][Key(b.0) := b.1]
  {
    var leaves := [a, b];
    assert leaves[..1] == [a];
    assert leaves[..1][..0] == [];
    assert StoreAll(map[], "", leaves[..1]) == map[Key(a.0) := a.1];
  }

  /** Two leaves with one key: only the second is left. */
  lemma {:induction false} SecondLeafHidesFirst(v: Json, a: (Path, string), b: (Path, string))
    requires Leaves(v) == [a, b] && Key(a.0) == Key(b.0)
    ensures LeadsTo(v, a.0, Leaf(a.1)) && LeadsTo(v, b.0, Leaf(b.1))
    ensures StoreAll(map[], "", Leaves(v)) == map[Key(b.0) := b.1]
  {
    hide LeadsTo, Leaves;
    assert a in Leaves(v) && b in Leaves(v);
    LeavesAreReachable(v, a);
    LeavesAreReachable(v, b);
    StoreTwo(a, b);
  }

  /** A dot in a key can make one leaf hide another. */
  lemma {:induction false} DottedKeysCollide(x: string, y: string)
    ensures var v := DottedMessages(x, y);
            && v.Valid()
            && LeadsTo(v, ["a.b"], Leaf(x)) && LeadsTo(v, ["a", "b"], Leaf(y))
            && StoreAll(map[], "", Leaves(v)) == map["a.b" := y]
  {
    hide Leaves, StoreAll, LeadsTo;
    CollidingMessagesAreValid(x, y);
    LeavesOfLeaf(x);
    LeavesOfOne("b", y);
    LeavesOfTwo(("a.b", Leaf(x)), ([], x), ("a", Obj([("b", Leaf(y))])), (["b"], y));
    assert ["a.b"] + [] == ["a.b"] && ["a"] + ["b"] == ["a", "b"];
    KeyIsJoin(["a.b"]);
    KeyIsJoin(["a", "b"]);
    assert ["a", "b"][1..] == ["b"];
    SecondLeafHidesFirst(DottedMessages(x, y), (["a.b"], x), (["a", "b"], y));
  }

  /** So can an empty key that leads a longer path, without any dot. */
  lemma {:induction false} LeadingEmptyKeysCollide(x: string, y: string)
    ensures var v := UnnamedMessages(x, y);
            && v.Valid()
            && LeadsTo(v, ["", "a"], Leaf(x)) && LeadsTo(v, ["a"], Leaf(y))
            && StoreAll(map[], "", Leaves(v)) == map["a" := y]
  {
    hide Leaves, StoreAll, LeadsTo;
    CollidingMessagesAreValid(x, y);
    LeavesOfLeaf(y);
    LeavesOfOne("a", x);
    LeavesOfTwo(("", Obj([("a", Leaf(x))])), (["a"], x), ("a", Leaf(y)), ([], y));
    assert [""] + ["a"] == ["", "a"] && ["a"] + [] == ["a"];
    KeyIsJoin(["a"]);
    assert ["", "a"][1..] == ["a"];
    assert Key(["", "a"]) == KeyFrom("", ["a"]) == "a";
    SecondLeafHidesFirst(UnnamedMessages(x, y), (["", "a"], x), (["a"], y));
  }
}
