/** LIKE with '%' as the only wildcard (filter.cc: compare_like; utils.h: split). */
module Like {
  // ---------------------------------------------------------------- what LIKE means

  /** v from i on matches p from j on. */
  ghost predicate MatchAt(v: string, i: nat, p: string, j: nat)
    requires i <= |v| && j <= |p|
    decreases |p| - j
  {
    if j == |p| then i == |v|
    else if p[j] == '%' then exists k {:trigger MatchAt(v, k, p, j + 1)} :: i <= k <= |v| && MatchAt(v, k, p, j + 1)
    else i < |v| && v[i] == p[j] && MatchAt(v, i + 1, p, j + 1)
  }

  ghost predicate Matches(v: string, p: string) {
    MatchAt(v, 0, p, 0)
  }

  // ---------------------------------------------------------------- what the filter does

  predicate Occurs(v: string, i: nat, t: string) {
    i + |t| <= |v| && v[i..i + |t|] == t
  }

  /** string::find; -1 for npos. */
  function Find(v: string, t: string, start: nat): (r: int)
    ensures r == -1 || (start <= r && Occurs(v, r, t))
    ensures forall k: nat :: start <= k && Occurs(v, k, t) ==> 0 <= r <= k
    decreases |v| - start
  {
    if start + |t| > |v| then -1 else if Occurs(v, start, t) then start else Find(v, t, start + 1)
  }

  /** The end of the run without '%' that starts at j. */
  function RunEnd(p: string, j: nat): (e: nat)
    requires j <= |p|
    ensures j <= e <= |p| && (e < |p| ==> p[e] == '%') && forall k :: j <= k < e ==> p[k] != '%'
    decreases |p| - j
  {
    if j == |p| || p[j] == '%' then j else RunEnd(p, j + 1)
  }

  /** The non-empty pieces between the '%' of p from j on. */
  function Parts(p: string, j: nat): seq<string>
    requires j <= |p|
    decreases |p| - j
  {
    if j == |p| then [] else if p[j] == '%' then Parts(p, j + 1) else [p[j..RunEnd(p, j)]] + Parts(p, RunEnd(p, j))
  }

  /** The search loop from part i on. The next search starts at the old start plus the length of
      the part plus the position of the hit. */
  predicate FindAll(v: string, parts: seq<string>, i: nat, start: nat)
    requires i <= |parts|
    decreases |parts| - i
  {
    i == |parts| || var o := Find(v, parts[i], start);
                    o >= 0 && FindAll(v, parts, i + 1, start + |parts[i]| + o)
  }

  predicate Accepts(v: string, p: string)
    requires p != ""
  {
    var parts := Parts(p, 0);
    && FindAll(v, parts, 0, 0)
    && (p[0] != '%' ==> |parts| > 0 && Find(v, parts[0], 0) == 0)
    && (p[|p| - 1] != '%' ==> |parts| > 0 && Find(v, parts[|parts| - 1], 0) == |v| - |parts[|parts| - 1]|)
  }

  lemma FirstPart(p: string)
    requires p != "" && p[0] != '%'
    ensures |Parts(p, 0)| > 0 && Parts(p, 0)[0] == p[..RunEnd(p, 0)]
  {
  }

  lemma {:induction false} LastPart(p: string, j: nat)
    requires j < |p| && p[|p| - 1] != '%'
    ensures |Parts(p, j)| > 0
    decreases |p| - j
  {
    if p[j] == '%' {
      LastPart(p, j + 1);
    }
  }

  method Split(p: string) returns (parts: seq<string>)
    ensures parts == Parts(p, 0)
  {
    parts := [];
    var temp := "";
    for i := 0 to |p|
      invariant |temp| <= i && temp == p[i - |temp|..i] && forall k :: i - |temp| <= k < i ==> p[k] != '%'
      invariant parts + Parts(p, i - |temp|) == Parts(p, 0)
    {
      if p[i] == '%' {
        if temp != "" {
          RunEndIs(p, i - |temp|, i);
          parts := parts + [temp];
        }
        temp := "";
      } else {
        temp := temp + [p[i]];
      }
    }
    if temp != "" {
      RunEndIs(p, |p| - |temp|, |p|);
      parts := parts + [temp];
    }
  }

  lemma {:induction false} RunEndIs(p: string, j: nat, e: nat)
    requires j <= e <= |p| && (e < |p| ==> p[e] == '%') && forall k :: j <= k < e ==> p[k] != '%'
    ensures RunEnd(p, j) == e
    decreases e - j
  {
    if j < e {
      RunEndIs(p, j + 1, e);
    }
  }

  method CompareLike(v: string, p: string) returns (passed: bool)
    requires p != ""
    ensures passed == Accepts(v, p)
  {
    var parts := Split(p);
    var start: nat, i: nat := 0, 0;
    passed := true;
    while i < |parts| && passed
      invariant 0 <= i <= |parts|
      invariant FindAll(v, parts, 0, 0) == (passed && FindAll(v, parts, i, start))
      decreases |parts| - i, passed
    {
      var offset := Find(v, parts[i], start);
      if offset < 0 {
        passed := false;
      } else {
        start := start + |parts[i]| + offset;
        i := i + 1;
      }
    }
    if passed {
      if p[0] != '%' {
        FirstPart(p);
        if Find(v, parts[0], 0) != 0 {
          passed := false;
        }
      }
      if p[|p| - 1] != '%' {
        LastPart(p, 0);
        if Find(v, parts[|parts| - 1], 0) != |v| - |parts[|parts| - 1]| {
          passed := false;
        }
      }
    }
  }

  // ---------------------------------------------------------------- where the parts are found

  /** h is the first place from `start` on where t occurs. */
  predicate FirstFrom(v: string, t: string, start: nat, h: nat) {
    start <= h && Occurs(v, h, t) && forall k :: start <= k < h ==> !Occurs(v, k, t)
  }

  lemma FindIsFirst(v: string, t: string, start: nat, h: nat)
    ensures Find(v, t, start) == h <==> FirstFrom(v, t, start, h)
  {
  }

  /** Where the search for part j begins: all lengths and all places before it, added up. */
  function Begin(parts: seq<string>, hs: seq<nat>, j: nat): nat
    requires j <= |hs| && j <= |parts|
  {
    if j == 0 then 0 else Begin(parts, hs, j - 1) + |parts[j - 1]| + hs[j - 1]
  }

  predicate PlacedAt(v: string, parts: seq<string>, hs: seq<nat>, j: nat)
    requires j < |hs| && j < |parts|
  {
    FirstFrom(v, parts[j], Begin(parts, hs, j), hs[j])
  }

  predicate Placed(v: string, parts: seq<string>, hs: seq<nat>) {
    |hs| <= |parts| && forall j :: 0 <= j < |hs| ==> PlacedAt(v, parts, hs, j)
  }

  lemma {:induction false} BeginPrefix(parts: seq<string>, hs: seq<nat>, more: seq<nat>, j: nat)
    requires j <= |hs| <= |more| <= |parts| && forall i :: 0 <= i < |hs| ==> more[i] == hs[i]
    ensures Begin(parts, more, j) == Begin(parts, hs, j)
    decreases j
  {
    if j > 0 {
      BeginPrefix(parts, hs, more, j - 1);
    }
  }

  lemma PlacedSnoc(v: string, parts: seq<string>, hs: seq<nat>, h: nat) returns (more: seq<nat>)
    requires Placed(v, parts, hs) && |hs| < |parts| && FirstFrom(v, parts[|hs|], Begin(parts, hs, |hs|), h)
    ensures Placed(v, parts, more) && |more| == |hs| + 1
    ensures Begin(parts, more, |more|) == Begin(parts, hs, |hs|) + |parts[|hs|]| + h
  {
    more := hs + [h];
    forall j | 0 <= j < |more| ensures PlacedAt(v, parts, more, j) {
      BeginPrefix(parts, hs, more, j);
      assert j < |hs| ==> PlacedAt(v, parts, hs, j);
    }
    BeginPrefix(parts, hs, more, |hs|);
  }

  lemma {:induction false} FoundPlaces(v: string, parts: seq<string>, hs: seq<nat>) returns (all: seq<nat>)
    requires Placed(v, parts, hs) && FindAll(v, parts, |hs|, Begin(parts, hs, |hs|))
    ensures Placed(v, parts, all) && |all| == |parts|
    decreases |parts| - |hs|
  {
    if |hs| == |parts| {
      all := hs;
    } else {
      var start := Begin(parts, hs, |hs|);
      var h := Find(v, parts[|hs|], start);
      FindIsFirst(v, parts[|hs|], start, h);
      var more := PlacedSnoc(v, parts, hs, h);
      all := FoundPlaces(v, parts, more);
    }
  }

  lemma {:induction false} PlacesFound(v: string, parts: seq<string>, all: seq<nat>, i: nat)
    requires Placed(v, parts, all) && |all| == |parts| && i <= |parts|
    ensures FindAll(v, parts, i, Begin(parts, all, i))
    decreases |parts| - i
  {
    if i < |parts| {
      assert PlacedAt(v, parts, all, i);
      FindIsFirst(v, parts[i], Begin(parts, all, i), all[i]);
      PlacesFound(v, parts, all, i + 1);
    }
  }

  /** The search loop succeeds exactly when there are such places. */
  lemma SearchExactly(v: string, parts: seq<string>)
    ensures FindAll(v, parts, 0, 0) <==> exists hs: seq<nat> :: |hs| == |parts| && Placed(v, parts, hs)
  {
    if FindAll(v, parts, 0, 0) {
      var hs := FoundPlaces(v, parts, []);
    }
    if hs: seq<nat> :| |hs| == |parts| && Placed(v, parts, hs) {
      PlacesFound(v, parts, hs, 0);
    }
  }

  lemma SearchFindsLast(v: string, parts: seq<string>)
    requires parts != [] && FindAll(v, parts, 0, 0)
    ensures |parts[|parts| - 1]| <= |v|
  {
    var hs := FoundPlaces(v, parts, []);
    assert PlacedAt(v, parts, hs, |parts| - 1);
  }

  /** t occurs at the end of v and nowhere before. */
  predicate FirstAtEnd(v: string, t: string) {
    |t| <= |v| && FirstFrom(v, t, 0, |v| - |t|)
  }

  /** For every pattern and value: LIKE accepts if and only if each part in turn has a first place from
      the sum of all earlier places and lengths on, a pattern without a leading '%' begins the value
      with its first part, and one without a trailing '%' has the first occurrence of its last part
      at the end of the value. */
  lemma AcceptsExactly(v: string, p: string)
    requires p != ""
    ensures var parts := Parts(p, 0);
      Accepts(v, p) <==>
      && (exists hs: seq<nat> :: |hs| == |parts| && Placed(v, parts, hs))
      && (p[0] != '%' ==> |parts| > 0 && Occurs(v, 0, parts[0]))
      && (p[|p| - 1] != '%' ==> |parts| > 0 && FirstAtEnd(v, parts[|parts| - 1]))
  {
    var parts := Parts(p, 0);
    SearchExactly(v, parts);
    if parts != [] {
      FindIsFirst(v, parts[0], 0, 0);
      if FindAll(v, parts, 0, 0) {
        SearchFindsLast(v, parts);
        EndPlace(v, parts[|parts| - 1]);
      }
    }
  }

  lemma EndPlace(v: string, t: string)
    requires |t| <= |v|
    ensures Find(v, t, 0) == |v| - |t| <==> FirstAtEnd(v, t)
  {
    FindIsFirst(v, t, 0, |v| - |t|);
  }

  // ---------------------------------------------------------------- the same search along the pattern

  predicate FindFrom(v: string, p: string, j: nat, start: nat)
    requires j <= |p|
    decreases |p| - j
  {
    if j == |p| then true
    else if p[j] == '%' then FindFrom(v, p, j + 1, start)
    else
      var e := RunEnd(p, j);
      var o := Find(v, p[j..e], start);
      o >= 0 && FindFrom(v, p, e, start + (e - j) + o)
  }

  lemma {:induction false} FindAllIs(v: string, parts: seq<string>, i: nat, p: string, j: nat, start: nat)
    requires i <= |parts| && j <= |p| && parts[i..] == Parts(p, j)
    ensures FindAll(v, parts, i, start) == FindFrom(v, p, j, start)
    decreases |p| - j
  {
    if j < |p| {
      if p[j] == '%' {
        FindAllIs(v, parts, i, p, j + 1, start);
      } else {
        var e := RunEnd(p, j);
        assert parts[i] == parts[i..][0] == p[j..e];
        assert parts[i + 1..] == parts[i..][1..] == Parts(p, e);
        var o := Find(v, parts[i], start);
        if o >= 0 {
          FindAllIs(v, parts, i + 1, p, e, start + (e - j) + o);
        }
      }
    }
  }

  // ---------------------------------------------------------------- literal runs

  predicate Literal(p: string, j: nat, e: nat) {
    j <= e <= |p| && forall k :: j <= k < e ==> p[k] != '%'
  }

  lemma OccursFirst(v: string, i: nat, p: string, j: nat, e: nat)
    requires j < e <= |p|
    ensures Occurs(v, i, p[j..e]) <==> i < |v| && v[i] == p[j] && Occurs(v, i + 1, p[j + 1..e])
  {
    var n := e - j;
    assert p[j..e] == [p[j]] + p[j + 1..e];
    if i + n <= |v| {
      assert v[i..i + n] == [v[i]] + v[i + 1..i + n];
    }
  }

  lemma {:induction false} LiteralMatch(v: string, i: nat, p: string, j: nat, e: nat)
    requires Literal(p, j, e) && i <= |v|
    ensures MatchAt(v, i, p, j) <==> Occurs(v, i, p[j..e]) && MatchAt(v, i + (e - j), p, e)
    decreases e - j
  {
    if j < e {
      OccursFirst(v, i, p, j, e);
      if i < |v| && v[i] == p[j] {
        LiteralMatch(v, i + 1, p, j + 1, e);
      }
    }
  }

  /** Some suffix of v from s on matches p from j on. */
  ghost predicate MatchLater(v: string, s: nat, p: string, j: nat)
    requires j <= |p|
  {
    exists k :: s <= k <= |v| && MatchAt(v, k, p, j)
  }

  lemma MatchWild(v: string, s: nat, p: string, j: nat)
    requires s <= |v| && j < |p| && p[j] == '%'
    ensures MatchAt(v, s, p, j) <==> MatchLater(v, s, p, j + 1)
    ensures MatchLater(v, s, p, j) <==> MatchLater(v, s, p, j + 1)
  {
    if MatchLater(v, s, p, j + 1) {
      assert MatchAt(v, s, p, j);
    }
  }

  // ---------------------------------------------------------------- soundness

  /** A pattern without a final '%' needs its last part at the very end of v, and the first
      occurrence of it too. */
  predicate EndChecked(v: string, p: string, j: nat)
    requires j <= |p|
  {
    forall a :: j <= a < |p| && Literal(p, a, |p|) && (a == 0 || p[a - 1] == '%') ==>
      Find(v, p[a..], 0) == |v| - (|p| - a)
  }

  lemma {:induction false} SearchSound(v: string, p: string, j: nat, start: nat, from: nat)
    requires j <= |p| && from <= start && from <= |v| && (j == 0 || j == |p| || p[j] == '%' || p[j - 1] == '%')
    requires FindFrom(v, p, j, start) && EndChecked(v, p, j) && (j == |p| ==> j > 0 && p[j - 1] == '%')
    ensures MatchLater(v, from, p, j)
    ensures j < |p| && p[j] != '%' ==> var o := Find(v, p[j..RunEnd(p, j)], start);
      0 <= o <= |v| && MatchAt(v, o, p, j)
    decreases |p| - j
  {
    if j == |p| {
      assert MatchAt(v, |v|, p, j);
    } else if p[j] == '%' {
      SearchSound(v, p, j + 1, start, from);
      MatchWild(v, from, p, j);
    } else {
      var e := RunEnd(p, j);
      var o := Find(v, p[j..e], start);
      if e == |p| {
        assert p[j..e] == p[j..];
        assert MatchAt(v, |v|, p, e);
      } else {
        SearchSound(v, p, e, start + (e - j) + o, o + (e - j));
        MatchWild(v, o + (e - j), p, e);
      }
      LiteralMatch(v, o, p, j, e);
    }
  }

  lemma {:induction false} LastPartIs(p: string, j: nat, a: nat)
    requires j <= a < |p| && Literal(p, a, |p|) && (a == j || p[a - 1] == '%')
    ensures |Parts(p, j)| > 0 && Parts(p, j)[|Parts(p, j)| - 1] == p[a..]
    decreases |p| - j
  {
    if p[j] == '%' {
      LastPartIs(p, j + 1, a);
    } else {
      var e := RunEnd(p, j);
      if a == j {
        RunEndIs(p, j, |p|);
        assert Parts(p, |p|) == [];
      } else {
        LastPartIs(p, e, a);
      }
    }
  }

  lemma AcceptsIs(v: string, p: string)
    requires p != ""
    ensures Accepts(v, p) <==>
      FindFrom(v, p, 0, 0) && (p[0] != '%' ==> Find(v, p[..RunEnd(p, 0)], 0) == 0) && EndChecked(v, p, 0)
  {
    var parts := Parts(p, 0);
    assert parts[0..] == parts;
    FindAllIs(v, parts, 0, p, 0, 0);
    if p[|p| - 1] != '%' {
      var a := LastRun(p, |p| - 1);
      LastPartIs(p, 0, a);
      forall b | 0 <= b < |p| && Literal(p, b, |p|) && (b == 0 || p[b - 1] == '%') ensures b == a {
      }
    }
  }

  /** Where the last run begins. */
  function LastRun(p: string, j: nat): (a: nat)
    requires j < |p| && Literal(p, j, |p|)
    ensures a <= j && Literal(p, a, |p|) && (a == 0 || p[a - 1] == '%')
  {
    if j == 0 || p[j - 1] == '%' then j else LastRun(p, j - 1)
  }

  /** Whatever LIKE accepts does match. */
  lemma LikeSound(v: string, p: string)
    requires p != "" && Accepts(v, p)
    ensures Matches(v, p)
  {
    AcceptsIs(v, p);
    SearchSound(v, p, 0, 0, 0);
    if p[0] == '%' {
      MatchWild(v, 0, p, 0);
    }
  }

  // ---------------------------------------------------------------- completeness

  predicate EndsWild(p: string) {
    p != "" && p[|p| - 1] == '%'
  }

  lemma {:induction false} NothingToFind(v: string, p: string, j: nat, start: nat)
    requires j <= |p| && Parts(p, j) == []
    ensures FindFrom(v, p, j, start)
    decreases |p| - j
  {
    if j < |p| {
      NothingToFind(v, p, j + 1, start);
    }
  }

  /** The search finds its parts as long as the start it searches from is not past the truth:
      for one part, and for two when it begins at 0. */
  lemma {:induction false} SearchComplete(v: string, p: string, j: nat, start: nat)
    requires j <= |p| && EndsWild(p) && start <= |v| && MatchLater(v, start, p, j)
    requires |Parts(p, j)| <= 1 || (start == 0 && |Parts(p, j)| <= 2)
    ensures FindFrom(v, p, j, start)
    decreases |p| - j
  {
    if j < |p| {
      if p[j] == '%' {
        MatchWild(v, start, p, j);
        SearchComplete(v, p, j + 1, start);
      } else {
        var e := RunEnd(p, j);
        var k :| start <= k <= |v| && MatchAt(v, k, p, j);
        LiteralMatch(v, k, p, j, e);
        var o := Find(v, p[j..e], start);
        assert |Parts(p, e)| == |Parts(p, j)| - 1;
        if Parts(p, e) == [] {
          NothingToFind(v, p, e, start + (e - j) + o);
        } else {
          SearchComplete(v, p, e, o + (e - j));
        }
      }
    }
  }

  lemma CompleteWild(v: string, p: string)
    requires EndsWild(p) && |Parts(p, 0)| <= 2 && Matches(v, p)
    ensures Accepts(v, p)
  {
    AcceptsIs(v, p);
    SearchComplete(v, p, 0, 0);
    if p[0] != '%' {
      LiteralMatch(v, 0, p, 0, RunEnd(p, 0));
    }
  }

  lemma PlainPattern(v: string, p: string)
    requires p != "" && '%' !in p
    ensures Accepts(v, p) <==> Matches(v, p)
    ensures Matches(v, p) <==> v == p
  {
    RunEndIs(p, 0, |p|);
    assert p[0..|p|] == p;
    LiteralMatch(v, 0, p, 0, |p|);
    assert Matches(v, p) <==> v == p by {
      if Occurs(v, 0, p) && |v| == |p| {
        assert v[0..|p|] == v;
      }
    }
    if v == p {
      AcceptsIs(v, p);
      assert Occurs(v, 0, p);
      assert Find(v, p, 0) == 0;
    } else if Accepts(v, p) {
      LikeSound(v, p);
    }
  }

  // ---------------------------------------------------------------- where it falls short

  /** p from j on without its '%'. */
  function Strip(p: string, j: nat): string
    requires j <= |p|
    decreases |p| - j
  {
    if j == |p| then "" else if p[j] == '%' then Strip(p, j + 1) else [p[j]] + Strip(p, j + 1)
  }

  /** Searching for the parts costs at least their length. */
  lemma {:induction false} SearchLength(v: string, p: string, j: nat, start: nat)
    requires j <= |p| && FindFrom(v, p, j, start) && Parts(p, j) != []
    ensures start + |Strip(p, j)| <= |v|
    decreases |p| - j
  {
    if p[j] == '%' {
      SearchLength(v, p, j + 1, start);
    } else {
      var e := RunEnd(p, j);
      var o := Find(v, p[j..e], start);
      StripRun(p, j, e);
      if Parts(p, e) == [] {
        StripNothing(p, e);
      } else {
        SearchLength(v, p, e, start + (e - j) + o);
      }
    }
  }

  lemma {:induction false} StripRun(p: string, j: nat, e: nat)
    requires Literal(p, j, e)
    ensures |Strip(p, j)| == (e - j) + |Strip(p, e)|
    decreases e - j
  {
    if j < e {
      StripRun(p, j + 1, e);
    }
  }

  lemma {:induction false} StripLiteral(p: string, a: nat)
    requires Literal(p, a, |p|)
    ensures Strip(p, a) == p[a..]
    decreases |p| - a
  {
    if a < |p| {
      StripLiteral(p, a + 1);
    }
  }

  lemma {:induction false} StripNothing(p: string, j: nat)
    requires j <= |p| && Parts(p, j) == []
    ensures Strip(p, j) == ""
    decreases |p| - j
  {
    if j < |p| {
      StripNothing(p, j + 1);
    }
  }

  /** The text between the wildcards matches: every '%' takes nothing. */
  lemma {:induction false} StripMatches(v: string, i: nat, p: string, j: nat)
    requires i <= |v| && j <= |p| && v[i..] == Strip(p, j)
    ensures MatchAt(v, i, p, j)
    decreases |p| - j
  {
    if j < |p| {
      if p[j] == '%' {
        StripMatches(v, i, p, j + 1);
      } else {
        assert v[i] == v[i..][0] && v[i + 1..] == v[i..][1..];
        StripMatches(v, i + 1, p, j + 1);
      }
    }
  }

  /** So does that text with the last part twice: the last '%' takes the first copy. */
  lemma {:induction false} TwiceMatches(v: string, i: nat, p: string, j: nat, a: nat)
    requires i <= |v| && j < a < |p| && p[a - 1] == '%' && Literal(p, a, |p|) && v[i..] == Strip(p, j) + p[a..]
    ensures MatchAt(v, i, p, j)
    decreases |p| - j
  {
    if j == a - 1 {
      StripLiteral(p, a);
      var k := i + (|p| - a);
      assert v[k..] == v[i..][|p| - a..] == p[a..];
      StripMatches(v, k, p, a);
    } else if p[j] == '%' {
      TwiceMatches(v, i, p, j + 1, a);
    } else {
      assert v[i] == v[i..][0] && v[i + 1..] == v[i..][1..] == Strip(p, j + 1) + p[a..];
      TwiceMatches(v, i + 1, p, j + 1, a);
    }
  }

  /** A pattern with a '%', but none at the end, rejects its own text with the last part twice. */
  lemma EndMissed(p: string, a: nat)
    requires 0 < a < |p| && p[a - 1] == '%' && Literal(p, a, |p|)
    ensures var v := Strip(p, 0) + p[a..]; Matches(v, p) && !Accepts(v, p)
  {
    var v := Strip(p, 0) + p[a..];
    assert v[0..] == v;
    TwiceMatches(v, 0, p, 0, a);
    AcceptsIs(v, p);
    StripSuffix(p, 0, a);
    var o := |v| - 2 * (|p| - a);
    assert v[o..o + (|p| - a)] == p[a..];
    assert Occurs(v, o, p[a..]);
  }

  lemma {:induction false} StripSuffix(p: string, j: nat, a: nat)
    requires j <= a <= |p| && Literal(p, a, |p|)
    ensures EndsWith(Strip(p, j), p[a..])
    decreases a - j
  {
    if j == a {
      StripLiteral(p, a);
    } else {
      StripSuffix(p, j + 1, a);
      EndsWithBehind(p[j], Strip(p, j + 1), p[a..]);
    }
  }

  predicate EndsWith(s: string, end: string) {
    |end| <= |s| && s[|s| - |end|..] == end
  }

  lemma EndsWithBehind(ch: char, s: string, end: string)
    requires EndsWith(s, end)
    ensures EndsWith([ch] + s, end)
  {
  }

  /** Three parts: the third is searched for from too far on. */
  lemma ThirdMissed(p: string)
    requires p != "" && |Parts(p, 0)| >= 3
    ensures Matches(Strip(p, 0), p) && !Accepts(Strip(p, 0), p)
  {
    var v := Strip(p, 0);
    assert v[0..] == v;
    StripMatches(v, 0, p, 0);
    AcceptsIs(v, p);
    if FindFrom(v, p, 0, 0) {
      SkipWild(v, p, 0, 0);
    }
  }

  /** The first two parts push the start ahead by the first one's length. */
  lemma {:induction false} SkipWild(v: string, p: string, j: nat, start: nat)
    requires j <= |p| && |Parts(p, j)| >= 3 && FindFrom(v, p, j, start)
    ensures start + |Strip(p, j)| < |v|
    decreases |p| - j
  {
    if p[j] == '%' {
      SkipWild(v, p, j + 1, start);
    } else {
      var e := RunEnd(p, j);
      var o := Find(v, p[j..e], start);
      StripRun(p, j, e);
      SecondPart(v, p, e, start + (e - j) + o);
    }
  }

  lemma {:induction false} SecondPart(v: string, p: string, j: nat, start: nat)
    requires j <= |p| && |Parts(p, j)| >= 2 && FindFrom(v, p, j, start) && start > 0
    ensures start + |Strip(p, j)| < |v|
    decreases |p| - j
  {
    if p[j] == '%' {
      SecondPart(v, p, j + 1, start);
    } else {
      var e := RunEnd(p, j);
      var o := Find(v, p[j..e], start);
      StripRun(p, j, e);
      SearchLength(v, p, e, start + (e - j) + o);
    }
  }

  /** LIKE is exact for a pattern if and only if the pattern has no '%', or ends in '%' and has
      at most two parts. */
  lemma LikeExact(p: string)
    requires p != ""
    ensures (forall v :: Accepts(v, p) <==> Matches(v, p)) <==> '%' !in p || (EndsWild(p) && |Parts(p, 0)| <= 2)
  {
    if '%' !in p {
      forall v ensures Accepts(v, p) <==> Matches(v, p) {
        PlainPattern(v, p);
      }
    } else if !EndsWild(p) {
      var a := LastRun(p, |p| - 1);
      EndMissed(p, a);
    } else if |Parts(p, 0)| > 2 {
      ThirdMissed(p);
    } else {
      forall v ensures Accepts(v, p) <==> Matches(v, p) {
        if Accepts(v, p) {
          LikeSound(v, p);
        } else if Matches(v, p) {
          CompleteWild(v, p);
        }
      }
    }
  }
}
