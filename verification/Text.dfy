/** Separator splitting and joining, the two string primitives that most of the scripts lean on. */
module Text {

  datatype Option<+T> = None | Some(value: T)

  datatype Result<+T, +E> = Ok(value: T) | Err(error: E)

  /** `s.split(sep)` for a one-character separator: there is always at least one part. */
  function Split<T(==)>(s: seq<T>, sep: T): (parts: seq<seq<T>>)
    ensures |parts| >= 1
  {
    if s == [] then [[]]
    else
      var rest := Split(s[1..], sep);
      if s[0] == sep then [[]] + rest else [[s[0]] + rest[0]] + rest[1..]
  }

  /** `parts.join(sep)`. */
  function Join<T>(parts: seq<seq<T>>, sep: T): seq<T> {
    if |parts| == 0 then []
    else if |parts| == 1 then parts[0]
    else parts[0] + [sep] + Join(parts[1..], sep)
  }

  ghost predicate SepFree<T>(s: seq<T>, sep: T) {
    sep !in s
  }

  lemma {:induction false} JoinPrepends<T>(parts: seq<seq<T>>, sep: T, x: T)
    requires |parts| >= 1
    ensures Join([[]] + parts, sep) == [sep] + Join(parts, sep)
    ensures Join([[x] + parts[0]] + parts[1..], sep) == [x] + Join(parts, sep)
  {
    assert ([[]] + parts)[1..] == parts;
    assert ([[x] + parts[0]] + parts[1..])[1..] == parts[1..];
    assert [x] + (parts[0] + [sep] + Join(parts[1..], sep)) == ([x] + parts[0]) + [sep] + Join(parts[1..], sep);
  }

  lemma {:induction false} SplitPartsSepFree<T>(s: seq<T>, sep: T, i: nat)
    requires i < |Split(s, sep)|
    ensures SepFree(Split(s, sep)[i], sep)
  {
    if s != [] {
      if s[0] != sep {
        SplitPartsSepFree(s[1..], sep, i);
      } else if i > 0 {
        SplitPartsSepFree(s[1..], sep, i - 1);
      }
    }
  }

  lemma {:induction false} JoinOfSplit<T>(s: seq<T>, sep: T)
    ensures Join(Split(s, sep), sep) == s
    ensures forall i :: 0 <= i < |Split(s, sep)| ==> SepFree(Split(s, sep)[i], sep)
  {
    hide Join, SepFree;
    forall i | 0 <= i < |Split(s, sep)| ensures SepFree(Split(s, sep)[i], sep) {
      SplitPartsSepFree(s, sep, i);
    }
    if s == [] {
      JoinOne([], sep);
    } else {
      JoinOfSplit(s[1..], sep);
      JoinPrepends(Split(s[1..], sep), sep, s[0]);
      assert s == [s[0]] + s[1..];
    }
  }

  lemma {:induction false} JoinOne<T>(part: seq<T>, sep: T)
    ensures Join([part], sep) == part
  {
  }

  lemma {:induction false} SplitSepFree<T>(s: seq<T>, sep: T)
    requires SepFree(s, sep)
    ensures Split(s, sep) == [s]
  {
    if s != [] {
      SplitSepFree(s[1..], sep);
      assert s[0] in s;
      assert s == [s[0]] + s[1..];
    }
  }

  lemma {:induction false} SplitAtSep<T>(head: seq<T>, tail: seq<T>, sep: T)
    requires SepFree(head, sep)
    ensures Split(head + [sep] + tail, sep) == [head] + Split(tail, sep)
  {
    var s := head + [sep] + tail;
    if head == [] {
      assert s[1..] == tail;
    } else {
      SplitAtSep(head[1..], tail, sep);
      assert s[1..] == head[1..] + [sep] + tail;
      assert head[0] in head;
      assert head == [head[0]] + head[1..];
    }
  }

  lemma {:induction false} SplitOfJoin<T>(parts: seq<seq<T>>, sep: T)
    requires |parts| >= 1
    requires forall i :: 0 <= i < |parts| ==> SepFree(parts[i], sep)
    ensures Split(Join(parts, sep), sep) == parts
  {
    if |parts| == 1 {
      SplitSepFree(parts[0], sep);
    } else {
      SplitOfJoin(parts[1..], sep);
      SplitAtSep(parts[0], Join(parts[1..], sep), sep);
      assert parts == [parts[0]] + parts[1..];
    }
  }

  /** One part more than there are separators. */
  lemma {:induction false} SplitLength<T>(s: seq<T>, sep: T)
    ensures |Split(s, sep)| == multiset(s)[sep] + 1
  {
    if s != [] {
      SplitLength(s[1..], sep);
      assert s == [s[0]] + s[1..];
      assert multiset(s) == multiset{s[0]} + multiset(s[1..]);
    }
  }

  /** A string has exactly one decomposition into separator-free parts. */
  lemma {:induction false} SplitIsTheOnlyDecomposition<T>(s: seq<T>, parts: seq<seq<T>>, sep: T)
    ensures parts == Split(s, sep) <==>
      (|parts| >= 1 && Join(parts, sep) == s && forall i :: 0 <= i < |parts| ==> SepFree(parts[i], sep))
  {
    JoinOfSplit(s, sep);
    if |parts| >= 1 && Join(parts, sep) == s && forall i :: 0 <= i < |parts| ==> SepFree(parts[i], sep) {
      SplitOfJoin(parts, sep);
    }
  }
}
