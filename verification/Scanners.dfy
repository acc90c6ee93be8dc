/** The hand-written depth-counting scanners of the architecture scripts. */
module Scanners {
  import opened Text

  // ---- Splitting at top-level commas --------------------------------------------------------

  function Delta(c: char): int {
    if c in "([{" then 1 else if c in ")]}" then -1 else 0
  }

  /** Opening minus closing delimiters; the scanner does not tell the three kinds apart. */
  function Net(s: string): int {
    if s == [] then 0 else Net(s[..|s| - 1]) + Delta(s[|s| - 1])
  }

  /** The opening delimiters of any kind less the closing ones of any kind. */
  lemma {:induction false} NetCounts(s: string)
    ensures var m := multiset(s);
            Net(s) + m[')'] + m[']'] + m['}'] == m['('] + m['['] + m['{']
  {
    if s != [] {
      var n := |s| - 1;
      NetCounts(s[..n]);
      assert s == s[..n] + [s[n]];
      assert multiset(s) == multiset(s[..n]) + multiset{s[n]};
    }
  }

  ghost predicate Unsplittable(part: string) {
    forall i :: 0 <= i < |part| && part[i] == ',' ==> Net(part[..i]) != 0
  }

  /** The parts that the scanner promises for `s`. */
  ghost predicate IsSplit(s: string, parts: seq<string>) {
    && |parts| >= 1
    && Join(parts, ',') == s
    && (forall k :: 0 <= k < |parts| ==> Unsplittable(parts[k]))
    && (forall k :: 0 <= k < |parts| - 1 ==> Net(parts[k]) == 0)
  }

  lemma {:induction false} NetAppends(a: string, b: string)
    ensures Net(a + b) == Net(a) + Net(b)
  {
    if b == [] {
      assert a + b == a;
    } else {
      NetAppends(a, b[..|b| - 1]);
      assert (a + b)[..|a + b| - 1] == a + b[..|b| - 1];
    }
  }

  lemma {:induction false} JoinSnoc(parts: seq<string>, last: string, more: string)
    ensures Join(parts + [last + more], ',') == Join(parts + [last], ',') + more
  {
    if parts == [] {
    } else {
      JoinSnoc(parts[1..], last, more);
      assert (parts + [last + more])[1..] == parts[1..] + [last + more];
      assert (parts + [last])[1..] == parts[1..] + [last];
    }
  }

  lemma {:induction false} JoinNewPart(parts: seq<string>)
    requires |parts| >= 1
    ensures Join(parts + [[]], ',') == Join(parts, ',') + [',']
  {
    if |parts| == 1 {
      assert (parts + [[]])[1..] == [[]];
    } else {
      JoinNewPart(parts[1..]);
      assert (parts + [[]])[1..] == parts[1..] + [[]];
    }
  }

  lemma {:induction false} UnsplittableGrows(part: string, c: char)
    requires Unsplittable(part) && (c == ',' ==> Net(part) != 0)
    ensures Unsplittable(part + [c])
    ensures Net(part + [c]) == Net(part) + Delta(c)
  {
    var longer := part + [c];
    assert longer[..|part|] == part;
    forall i | 0 <= i < |longer| && longer[i] == ',' ensures Net(longer[..i]) != 0 {
      if i < |part| { assert longer[..i] == part[..i]; }
    }
  }

  lemma {:induction false} EmptyPart()
    ensures Unsplittable([]) && Net([]) == 0 && Join([[]], ',') == []
  {
  }

  method SplitTopLevel(s: string) returns (parts: seq<string>)
    ensures IsSplit(s, parts)
  {
    hide Net, Unsplittable, Join;
    EmptyPart();
    parts := [];
    assert parts + [s[0..0]] == [[]];
    var depth := 0;
    var start := 0;
    for i := 0 to |s|
      invariant 0 <= start <= i
      invariant Unsplittable(s[start..i]) && Net(s[start..i]) == depth
      invariant forall k :: 0 <= k < |parts| ==> Unsplittable(parts[k]) && Net(parts[k]) == 0
      invariant Join(parts + [s[start..i]], ',') == s[..i]
    {
      var ch := s[i];
      ghost var part := s[start..i];
      assert s[..i + 1] == s[..i] + [ch];
      if ch == ',' && depth == 0 {
        JoinNewPart(parts + [part]);
        parts := parts + [s[start..i]];
        start := i + 1;
        assert s[start..i + 1] == [];
      } else {
        UnsplittableGrows(part, ch);
        JoinSnoc(parts, part, [ch]);
        assert s[start..i + 1] == part + [ch];
        depth := depth + Delta(ch);
      }
    }
    assert s[..|s|] == s && s[start..|s|] == s[start..];
    parts := parts + [s[start..]];
  }

  lemma {:induction false} LongerFirstPartSplits(s: string, p: seq<string>, first: string)
    requires IsSplit(s, p) && first <= s && |p[0]| < |first|
    ensures !Unsplittable(first)
  {
    var n := |p[0]|;
    assert |p| > 1;
    assert s[n] == ',';
    assert first[n] == ',' && first[..n] == p[0];
  }

  lemma {:induction false} FirstPartNotShorter(s: string, p: seq<string>, q: seq<string>)
    requires IsSplit(s, p) && IsSplit(s, q)
    ensures |p[0]| >= |q[0]|
  {
    if |p[0]| < |q[0]| {
      LongerFirstPartSplits(s, p, q[0]);
    }
  }

  /**
   * The specification has a single solution.  Hence joining undoes splitting, splitting a join of
   * unsplittable parts that are closed up to the last returns those parts, and a part stays whole.
   */
  lemma {:induction false} SplitIsUnique(s: string, p: seq<string>, q: seq<string>)
    requires IsSplit(s, p) && IsSplit(s, q)
    ensures p == q
    decreases |p|
  {
    FirstPartNotShorter(s, p, q);
    FirstPartNotShorter(s, q, p);
    assert p[0] == s[..|p[0]|] && q[0] == s[..|q[0]|];
    if |p| > 1 && |q| > 1 {
      var rest := s[|p[0]| + 1..];
      assert s == p[0] + [','] + Join(p[1..], ',') && s == q[0] + [','] + Join(q[1..], ',');
      assert rest == Join(p[1..], ',') && rest == Join(q[1..], ',');
      SplitIsUnique(rest, p[1..], q[1..]);
      assert p == [p[0]] + p[1..] && q == [q[0]] + q[1..];
    } else {
      assert p == [p[0]] && q == [q[0]];
    }
  }

  lemma {:induction false} PartSplitsToItself(s: string, parts: seq<string>, k: nat, again: seq<string>)
    requires IsSplit(s, parts) && k < |parts| && IsSplit(parts[k], again)
    ensures again == [parts[k]]
  {
    assert IsSplit(parts[k], [parts[k]]);
    SplitIsUnique(parts[k], [parts[k]], again);
  }

  lemma {:induction false} SplitUndoesJoin(parts: seq<string>, split: seq<string>)
    requires |parts| >= 1
    requires forall k :: 0 <= k < |parts| ==> Unsplittable(parts[k])
    requires forall k :: 0 <= k < |parts| - 1 ==> Net(parts[k]) == 0
    requires IsSplit(Join(parts, ','), split)
    ensures split == parts
  {
    SplitIsUnique(Join(parts, ','), parts, split);
  }

  // ---- Walking to the matching close --------------------------------------------------------

  /** Openings minus closings of one kind of delimiter. */
  function Balance(s: string, open: char, close: char): int {
    if s == [] then 0
    else
      var c := s[|s| - 1];
      Balance(s[..|s| - 1], open, close) + if c == open then 1 else if c == close then -1 else 0
  }

  lemma {:induction false} BalanceCounts(s: string, open: char, close: char)
    requires open != close
    ensures Balance(s, open, close) + multiset(s)[close] == multiset(s)[open]
  {
    if s != [] {
      var n := |s| - 1;
      BalanceCounts(s[..n], open, close);
      assert s == s[..n] + [s[n]];
      assert multiset(s) == multiset(s[..n]) + multiset{s[n]};
    }
  }

  /** Position `e` closes the delimiter opened just before `start`: balanced up to there, and never closed earlier. */
  ghost predicate ClosesAt(s: string, start: nat, open: char, close: char, e: nat)
    requires start <= |s|
  {
    && start <= e < |s| && s[e] == close
    && Balance(s[start..e], open, close) == 0
    && forall j :: start <= j <= e ==> Balance(s[start..j], open, close) >= 0
  }

  ghost predicate Closed(s: string, start: nat, open: char, close: char)
    requires start <= |s|
  {
    exists e: nat :: ClosesAt(s, start, open, close, e)
  }

  /** `s.slice(start, end)` for non-negative bounds. */
  function Slice(s: string, start: nat, end: int): string
    requires start <= |s| && end <= |s|
  {
    if start <= end then s[start..end] else []
  }

  lemma {:induction false} BalanceStep(s: string, start: nat, i: nat, open: char, close: char)
    requires start <= i < |s|
    ensures Balance(s[start..i + 1], open, close)
         == Balance(s[start..i], open, close) + if s[i] == open then 1 else if s[i] == close then -1 else 0
  {
    var t := s[start..i + 1];
    assert t[..|t| - 1] == s[start..i];
  }

  lemma {:induction false} ClosingIsUnique(s: string, start: nat, open: char, close: char, e: nat, f: nat)
    requires start <= |s| && open != close
    requires ClosesAt(s, start, open, close, e) && ClosesAt(s, start, open, close, f)
    ensures e == f
  {
    if e < f {
      BalanceStep(s, start, e, open, close);
    } else if f < e {
      BalanceStep(s, start, f, open, close);
    }
  }

  lemma {:induction false} FallsBelowAtClose(s: string, start: nat, open: char, close: char, e: nat)
    requires start <= |s| && open != close && ClosesAt(s, start, open, close, e)
    ensures e + 1 <= |s| && Balance(s[start..e + 1], open, close) == -1
  {
    BalanceStep(s, start, e, open, close);
  }

  /**
   * The walk that all three scripts contain.  It returns the enclosed text exactly when there is a
   * matching close; without one it returns the rest of the text less its last character.
   */
  method EnclosedText(s: string, start: nat, open: char, close: char) returns (text: string)
    requires start <= |s| && open != close
    ensures forall e: nat :: ClosesAt(s, start, open, close, e) ==> text == s[start..e]
    ensures !Closed(s, start, open, close) ==> text == Slice(s, start, |s| - 1)
  {
    var depth := 1;
    var i := start;
    while i < |s| && depth > 0
      invariant start <= i <= |s|
      invariant depth == 1 + Balance(s[start..i], open, close)
      invariant depth == 0 ==> i > start && ClosesAt(s, start, open, close, i - 1)
      invariant depth >= 0
      invariant forall j :: start <= j < i ==> Balance(s[start..j], open, close) >= 0
      invariant depth > 0 ==> Balance(s[start..i], open, close) >= 0
    {
      BalanceStep(s, start, i, open, close);
      if s[i] == open {
        depth := depth + 1;
      } else if s[i] == close {
        depth := depth - 1;
      }
      i := i + 1;
    }
    text := Slice(s, start, i - 1);
    forall e: nat | ClosesAt(s, start, open, close, e) ensures text == s[start..e] {
      FallsBelowAtClose(s, start, open, close, e);
      if depth == 0 {
        ClosingIsUnique(s, start, open, close, e, i - 1);
      }
    }
  }
}
