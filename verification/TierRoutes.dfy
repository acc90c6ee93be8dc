/** Route scoping by string prefixes, related to the segment-wise meaning that it stands for. */
module TierRoutes {
  import opened Text

  datatype Scope = Scope(locales: seq<string>, inScope: seq<string>, outOfScope: seq<string>)

  // ---- The string functions -----------------------------------------------------------------

  predicate PathMatchesPrefix(path: string, prefix: string) {
    if prefix == "/" then path == "/" else path == prefix || prefix + "/" <= path
  }

  predicate MatchesAny(path: string, prefixes: seq<string>) {
    exists i :: 0 <= i < |prefixes| && PathMatchesPrefix(path, prefixes[i])
  }

  function TrimSlashes(s: string): string {
    if s != [] && s[|s| - 1] == '/' then TrimSlashes(s[..|s| - 1]) else s
  }

  function StripLocalePrefix(path: string, locales: seq<string>): string {
    var segments := Split(path, '/');
    if |segments| > 1 && segments[1] != "" && segments[1] in locales then
      var stripped := "/" + Join(segments[2..], '/');
      if stripped == "/" then "/" else TrimSlashes(stripped)
    else if path == "/" then "/" else TrimSlashes(path)
  }

  predicate Excluded(stripped: string, page: string) { stripped == page || page + "/" <= stripped }

  function IsPathInTier2Scope(scope: Scope, path: string): bool {
    var stripped := StripLocalePrefix(path, scope.locales);
    if Excluded(stripped, "/dashboard/teacher") then false
    else if Excluded(stripped, "/inbox/audiences") then false
    else if Excluded(stripped, "/inbox/oversight") then false
    else if MatchesAny(stripped, scope.outOfScope) && !MatchesAny(stripped, scope.inScope) then false
    else if MatchesAny(stripped, scope.inScope) then true
    else false
  }

  // ---- Segments -----------------------------------------------------------------------------

  ghost predicate Segments(segs: seq<string>) {
    forall i :: 0 <= i < |segs| ==> segs[i] != "" && SepFree(segs[i], '/')
  }

  /** The slash-normalised path with these segments; `/` has none. */
  function Render(segs: seq<string>): string { "/" + Join(segs, '/') }

  /** A prefix matches whole segments, and `/` matches the root only. */
  ghost predicate Matches(prefix: seq<string>, segs: seq<string>) {
    if prefix == [] then segs == [] else prefix <= segs
  }

  lemma {:induction false} JoinAppends(a: seq<string>, b: seq<string>)
    requires a != [] && b != []
    ensures Join(a + b, '/') == Join(a, '/') + "/" + Join(b, '/')
  {
    if |a| == 1 {
      assert (a + b)[1..] == b;
    } else {
      JoinAppends(a[1..], b);
      assert (a + b)[1..] == a[1..] + b;
    }
  }

  lemma {:induction false} SplitJoinAnd(parts: seq<string>, tail: string)
    requires parts != [] && forall i :: 0 <= i < |parts| ==> SepFree(parts[i], '/')
    ensures Split(Join(parts, '/') + "/" + tail, '/') == parts + Split(tail, '/')
  {
    hide Split, SepFree;
    if |parts| == 1 {
      SplitAtSep(parts[0], tail, '/');
      assert parts == [parts[0]];
    } else {
      var rest := Join(parts[1..], '/') + "/" + tail;
      assert Join(parts, '/') + "/" + tail == parts[0] + ['/'] + rest;
      SplitAtSep(parts[0], rest, '/');
      SplitJoinAnd(parts[1..], tail);
      assert parts == [parts[0]] + parts[1..];
    }
  }

  lemma {:induction false} SplitOfRender(segs: seq<string>)
    requires Segments(segs)
    ensures Split(Render(segs), '/') == if segs == [] then ["", ""] else [""] + segs
  {
    SplitAtSep("", Join(segs, '/'), '/');
    assert Render(segs) == "" + ['/'] + Join(segs, '/');
    if segs != [] {
      SplitOfJoin(segs, '/');
    }
  }

  lemma {:induction false} RenderEndsInSegment(segs: seq<string>)
    requires Segments(segs) && segs != []
    ensures |Join(segs, '/')| > 0 && Join(segs, '/')[|Join(segs, '/')| - 1] != '/'
    ensures TrimSlashes(Render(segs)) == Render(segs) && Render(segs) != "/"
  {
    if |segs| == 1 {
      assert segs[0][|segs[0]| - 1] in segs[0];
    } else {
      RenderEndsInSegment(segs[1..]);
    }
  }

  function WithoutLocale(segs: seq<string>, locales: seq<string>): seq<string> {
    if segs != [] && segs[0] in locales then segs[1..] else segs
  }

  lemma {:induction false} StripRendersRest(segs: seq<string>, locales: seq<string>)
    requires Segments(segs)
    ensures StripLocalePrefix(Render(segs), locales) == Render(WithoutLocale(segs, locales))
  {
    SplitOfRender(segs);
    var rest := WithoutLocale(segs, locales);
    if segs == [] {
      assert Render(segs) == "/";
    } else {
      assert ([""] + segs)[2..] == segs[1..];
      RenderEndsInSegment(segs);
      if rest == [] {
        assert Render(rest) == "/";
      } else {
        RenderEndsInSegment(rest);
      }
    }
  }

  ghost predicate Slashes(s: string) { forall i :: 0 <= i < |s| ==> s[i] == '/' }

  lemma {:induction false} TrimIgnoresSlashes(s: string, slashes: string)
    requires Slashes(slashes)
    ensures TrimSlashes(s + slashes) == TrimSlashes(s)
  {
    if slashes == [] {
      assert s + slashes == s;
    } else {
      var n := |slashes| - 1;
      TrimIgnoresSlashes(s, slashes[..n]);
      assert (s + slashes)[..|s + slashes| - 1] == s + slashes[..n];
    }
  }

  lemma {:induction false} SplitWithSlashes(segs: seq<string>, tail: string)
    requires Segments(segs) && segs != []
    ensures Split(Render(segs) + ("/" + tail), '/') == [""] + segs + Split(tail, '/')
  {
    var parts := [""] + segs;
    assert Join(parts, '/') == Render(segs) by { assert parts[1..] == segs; }
    assert Render(segs) + ("/" + tail) == Join(parts, '/') + "/" + tail;
    SplitJoinAnd(parts, tail);
  }

  lemma {:induction false} StripOf(path: string, segments: seq<string>, locales: seq<string>)
    requires Split(path, '/') == segments && |segments| > 1 && segments[1] != "" && path != "/"
    ensures segments[1] !in locales ==> StripLocalePrefix(path, locales) == TrimSlashes(path)
    ensures segments[1] in locales ==>
      var stripped := "/" + Join(segments[2..], '/');
      StripLocalePrefix(path, locales) == if stripped == "/" then "/" else TrimSlashes(stripped)
  {
    hide Split, Join, TrimSlashes;
  }

  lemma {:induction false} SlashesWithoutLocale(segs: seq<string>, tail: string, locales: seq<string>)
    requires Segments(segs) && Slashes("/" + tail) && segs != [] && segs[0] !in locales
    ensures StripLocalePrefix(Render(segs) + ("/" + tail), locales) == Render(segs)
  {
    SplitWithSlashes(segs, tail);
    RenderEndsInSegment(segs);
    TrimIgnoresSlashes(Render(segs), "/" + tail);
    hide Split, Join, SepFree, TrimSlashes, StripLocalePrefix;
    var segments := [""] + segs + Split(tail, '/');
    assert segments[1] == segs[0];
    assert |Render(segs) + ("/" + tail)| > 1;
    StripOf(Render(segs) + ("/" + tail), segments, locales);
  }

  lemma {:induction false} TrimAfterLocale(rest: seq<string>, tail: string)
    requires Segments(rest) && Slashes("/" + tail)
    ensures TrimSlashes(if rest == [] then "/" + tail else Render(rest) + ("/" + tail))
         == if rest == [] then "" else Render(rest)
  {
    if rest == [] {
      TrimIgnoresSlashes("", "/" + tail);
      assert "" + ("/" + tail) == "/" + tail;
    } else {
      RenderEndsInSegment(rest);
      TrimIgnoresSlashes(Render(rest), "/" + tail);
    }
  }

  lemma {:induction false} SlashesAfterLocale(segs: seq<string>, tail: string, locales: seq<string>)
    requires Segments(segs) && Slashes("/" + tail) && segs != [] && segs[0] in locales
    ensures StripLocalePrefix(Render(segs) + ("/" + tail), locales)
         == if segs[1..] != [] then Render(segs[1..]) else if tail == "" then "/" else ""
  {
    hide Split, Join, SepFree, TrimSlashes, StripLocalePrefix;
    SplitWithSlashes(segs, tail);
    StripAfterLocale(segs, tail);
    TrimAfterLocale(segs[1..], tail);
    var segments := [""] + segs + Split(tail, '/');
    assert segments[1] == segs[0] && segments[2..] == segs[1..] + Split(tail, '/');
    assert |Render(segs) + ("/" + tail)| > 1;
    StripOf(Render(segs) + ("/" + tail), segments, locales);
  }

  /** Slashes after the last segment are dropped; after a bare locale, only one of them may follow. */
  lemma {:induction false} TrailingSlashesAreDropped(segs: seq<string>, slashes: string, locales: seq<string>)
    requires Segments(segs) && Slashes(slashes) && slashes != "" && segs != []
    ensures WithoutLocale(segs, locales) != [] ==>
      StripLocalePrefix(Render(segs) + slashes, locales) == Render(WithoutLocale(segs, locales))
    ensures WithoutLocale(segs, locales) == [] ==>
      StripLocalePrefix(Render(segs) + slashes, locales) == if |slashes| == 1 then "/" else ""
  {
    hide StripLocalePrefix, Render;
    var tail := slashes[1..];
    assert slashes == "/" + tail;
    if segs[0] in locales {
      SlashesAfterLocale(segs, tail, locales);
    } else {
      SlashesWithoutLocale(segs, tail, locales);
    }
  }

  lemma {:induction false} StripAfterLocale(segs: seq<string>, tail: string)
    requires Segments(segs) && segs != []
    ensures "/" + Join(segs[1..] + Split(tail, '/'), '/')
         == if segs[1..] == [] then "/" + tail else Render(segs[1..]) + ("/" + tail)
  {
    JoinOfSplit(tail, '/');
    if segs[1..] == [] {
      assert segs[1..] + Split(tail, '/') == Split(tail, '/');
    } else {
      JoinAppends(segs[1..], Split(tail, '/'));
    }
  }

  lemma {:induction false} RenderIsInjective(a: seq<string>, b: seq<string>)
    requires Segments(a) && Segments(b) && Render(a) == Render(b)
    ensures a == b
  {
    SplitOfRender(a);
    SplitOfRender(b);
    assert a != [] ==> ([""] + a)[1..] == a;
    assert b != [] ==> ([""] + b)[1..] == b;
    if a != [] { RenderEndsInSegment(a); }
    if b != [] { RenderEndsInSegment(b); }
  }

  lemma {:induction false} StringPrefixIsSegmentPrefix(prefix: seq<string>, segs: seq<string>)
    requires Segments(prefix) && Segments(segs) && prefix != [] && Render(prefix) + "/" <= Render(segs)
    ensures prefix <= segs
  {
    var tail := Render(segs)[|Render(prefix)| + 1..];
    assert ([""] + prefix)[1..] == prefix;
    assert Render(segs) == Join([""] + prefix, '/') + "/" + tail;
    SplitJoinAnd([""] + prefix, tail);
    SplitOfRender(segs);
    RenderEndsInSegment(prefix);
    assert segs != [] by { assert |Render(segs)| > 1; }
    assert ([""] + prefix + Split(tail, '/'))[1..] == prefix + Split(tail, '/');
    assert ([""] + segs)[1..] == segs;
  }

  lemma {:induction false} SegmentPrefixIsStringPrefix(prefix: seq<string>, segs: seq<string>)
    requires prefix != [] && prefix < segs
    ensures Render(prefix) + "/" <= Render(segs)
  {
    var more := segs[|prefix|..];
    JoinAppends(prefix, more);
    assert segs == prefix + more;
  }

  /** String matching agrees with segment matching. */
  lemma {:induction false} PrefixMatchIsSegmentMatch(prefix: seq<string>, segs: seq<string>)
    requires Segments(prefix) && Segments(segs)
    ensures PathMatchesPrefix(Render(segs), Render(prefix)) <==> Matches(prefix, segs)
    ensures prefix != [] ==> (Excluded(Render(segs), Render(prefix)) <==> Matches(prefix, segs))
  {
    assert Render([]) == "/";
    assert prefix <= segs ==> prefix == segs || prefix < segs;
    if prefix == [] {
      if segs != [] { RenderEndsInSegment(segs); }
    } else {
      RenderEndsInSegment(prefix);
      if Render(prefix) + "/" <= Render(segs) {
        StringPrefixIsSegmentPrefix(prefix, segs);
      } else if Render(prefix) == Render(segs) {
        RenderIsInjective(prefix, segs);
      } else if prefix < segs {
        SegmentPrefixIsStringPrefix(prefix, segs);
      }
    }
  }

  // ---- What the scope decision means --------------------------------------------------------

  /** The same prefixes as lists of segments. */
  ghost predicate Renders(prefixes: seq<string>, asSegments: seq<seq<string>>) {
    && |asSegments| == |prefixes|
    && forall i :: 0 <= i < |prefixes| ==> Segments(asSegments[i]) && prefixes[i] == Render(asSegments[i])
  }

  ghost predicate InScope(prefixes: seq<seq<string>>, rest: seq<string>) {
    && (exists i :: 0 <= i < |prefixes| && Matches(prefixes[i], rest))
    && !Matches(["dashboard", "teacher"], rest)
    && !Matches(["inbox", "audiences"], rest)
    && !Matches(["inbox", "oversight"], rest)
  }

  lemma {:induction false} ExclusionIsSegmentMatch(first: string, second: string, rest: seq<string>)
    requires Segments([first, second]) && Segments(rest)
    ensures Excluded(Render(rest), "/" + first + "/" + second) <==> Matches([first, second], rest)
  {
    assert [first, second][1..] == [second];
    assert Join([first, second], '/') == first + "/" + second;
    assert Render([first, second]) == "/" + first + "/" + second;
    PrefixMatchIsSegmentMatch([first, second], rest);
  }

  lemma {:induction false} SegmentsWithoutLocale(segs: seq<string>, locales: seq<string>)
    requires Segments(segs)
    ensures Segments(WithoutLocale(segs, locales))
  {
  }

  lemma {:induction false} LiteralSegments()
    ensures Segments(["dashboard", "teacher"]) && Segments(["inbox", "audiences"]) && Segments(["inbox", "oversight"])
  {
  }

  /** For a normalised path the decision is segment-wise, and the out-of-scope list plays no part in it. */
  lemma {:induction false} ScopeIsSegmentWise(scope: Scope, prefixes: seq<seq<string>>, segs: seq<string>)
    requires Segments(segs) && Renders(scope.inScope, prefixes)
    ensures IsPathInTier2Scope(scope, Render(segs)) <==> InScope(prefixes, WithoutLocale(segs, scope.locales))
  {
    hide StripLocalePrefix, PathMatchesPrefix, Excluded, Render, Matches;
    var rest := WithoutLocale(segs, scope.locales);
    SegmentsWithoutLocale(segs, scope.locales);
    StripRendersRest(segs, scope.locales);
    LiteralSegments();
    ExclusionIsSegmentMatch("dashboard", "teacher", rest);
    ExclusionIsSegmentMatch("inbox", "audiences", rest);
    ExclusionIsSegmentMatch("inbox", "oversight", rest);
    assert "/" + "dashboard" + "/" + "teacher" == "/dashboard/teacher";
    assert "/" + "inbox" + "/" + "audiences" == "/inbox/audiences";
    assert "/" + "inbox" + "/" + "oversight" == "/inbox/oversight";
    forall i | 0 <= i < |prefixes|
      ensures PathMatchesPrefix(Render(rest), scope.inScope[i]) <==> Matches(prefixes[i], rest)
    {
      PrefixMatchIsSegmentMatch(prefixes[i], rest);
    }
  }

  /** Putting a locale in front of a path that has none never changes the answer. */
  lemma {:induction false} LocaleDoesNotMatter(
    scope: Scope, prefixes: seq<seq<string>>, segs: seq<string>, locale: string)
    requires Segments(segs) && Segments([locale]) && Renders(scope.inScope, prefixes)
    requires locale in scope.locales && (segs == [] || segs[0] !in scope.locales)
    ensures IsPathInTier2Scope(scope, Render([locale] + segs)) == IsPathInTier2Scope(scope, Render(segs))
  {
    ScopeIsSegmentWise(scope, prefixes, segs);
    ScopeIsSegmentWise(scope, prefixes, [locale] + segs);
    assert ([locale] + segs)[1..] == segs;
  }

  /** Whatever is listed as out of scope, for every path at all. */
  lemma {:induction false} OutOfScopeListIsRedundant(scope: Scope, other: seq<string>, path: string)
    ensures IsPathInTier2Scope(scope, path) == IsPathInTier2Scope(scope.(outOfScope := other), path)
  {
  }
}
