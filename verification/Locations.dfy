/** Custom locations: the order the builder stores them in, the slash-collapsed
    path, and the rule that the router dispatches on. */
module Locations {
  import opened Wrappers
  import opened Text

  datatype Location = Location(path: string, upstream: string)

  // ----- Building -----

  /** A `/` rule is dropped on a proxy site, whose main handler owns `/`. */
  function Relevant(ls: seq<Location>, isProxy: bool): seq<Location> {
    if ls == [] then []
    else (if ls[0].path == "/" && isProxy then [] else [ls[0]]) + Relevant(ls[1..], isProxy)
  }

  function Insert(l: Location, sorted: seq<Location>): seq<Location> {
    if sorted == [] || |l.path| >= |sorted[0].path| then [l] + sorted
    else [sorted[0]] + Insert(l, sorted[1..])
  }

  /** The stable sort by descending path length. */
  function SortByLength(ls: seq<Location>): seq<Location> {
    if ls == [] then [] else Insert(ls[0], SortByLength(ls[1..]))
  }

  function BuildLocations(ls: seq<Location>, isProxy: bool): seq<Location> {
    SortByLength(Relevant(ls, isProxy))
  }

  // ----- Matching -----

  predicate LocationMatches(prefix: string, path: string) {
    prefix == "/"
    || (prefix <= path
        && ((prefix != [] && prefix[|prefix| - 1] == '/') || |path| == |prefix| || path[|prefix|] == '/'))
  }

  /** The router takes the first stored rule that matches. */
  function FirstMatch(ls: seq<Location>, path: string): Option<Location> {
    if ls == [] then None
    else if LocationMatches(ls[0].path, path) then Some(ls[0])
    else FirstMatch(ls[1..], path)
  }

  /** The declarative rule: a longest matching prefix, the earliest declared one of those. */
  predicate IsDispatch(ls: seq<Location>, path: string, r: Option<Location>) {
    match r
    case None => forall i | 0 <= i < |ls| :: !LocationMatches(ls[i].path, path)
    case Some(l) =>
      exists i | 0 <= i < |ls| :: ls[i] == l && LocationMatches(l.path, path)
        && (forall j | 0 <= j < |ls| && LocationMatches(ls[j].path, path) :: |ls[j].path| <= |l.path|)
        && (forall j | 0 <= j < i && LocationMatches(ls[j].path, path) :: |ls[j].path| < |l.path|)
  }

  predicate Descending(ls: seq<Location>) {
    forall i, j | 0 <= i < j < |ls| :: |ls[i].path| >= |ls[j].path|
  }

  lemma {:induction false} InsertDescends(l: Location, ls: seq<Location>)
    requires Descending(ls)
    ensures Descending(Insert(l, ls))
    ensures forall x :: x in Insert(l, ls) <==> x == l || x in ls
  {
    if ls != [] && |l.path| < |ls[0].path| {
      InsertDescends(l, ls[1..]);
      var r := Insert(l, ls[1..]);
      forall i | 0 <= i < |r| ensures |ls[0].path| >= |r[i].path| {
        assert r[i] in r;
        if r[i] != l { var k :| 0 <= k < |ls[1..]| && ls[1..][k] == r[i]; }
      }
      forall x ensures x in Insert(l, ls) <==> x == l || x in ls {
        assert x in ls <==> x == ls[0] || x in ls[1..];
      }
    }
  }

  lemma {:induction false} SortDescends(ls: seq<Location>)
    ensures Descending(SortByLength(ls))
  {
    if ls != [] {
      SortDescends(ls[1..]);
      InsertDescends(ls[0], SortByLength(ls[1..]));
    }
  }

  lemma {:induction false} FirstMatchInserted(l: Location, ls: seq<Location>, path: string)
    requires Descending(ls)
    ensures var r := FirstMatch(ls, path);
            FirstMatch(Insert(l, ls), path)
            == if LocationMatches(l.path, path) && (r == None || |l.path| >= |r.value.path|) then Some(l) else r
  {
    if ls != [] {
      if |l.path| < |ls[0].path| {
        FirstMatchInserted(l, ls[1..], path);
        assert Insert(l, ls)[1..] == Insert(l, ls[1..]);
      } else {
        assert Insert(l, ls)[1..] == ls;
        if FirstMatch(ls, path).Some? { LongestAtHead(ls, path); }
      }
    }
  }

  lemma {:induction false} LongestAtHead(ls: seq<Location>, path: string)
    requires Descending(ls) && ls != [] && FirstMatch(ls, path).Some?
    ensures |FirstMatch(ls, path).value.path| <= |ls[0].path|
  {
    if !LocationMatches(ls[0].path, path) { LongestAtHead(ls[1..], path); }
  }

  /** Main result: over any declared list, in any order, dispatch picks the longest matching
      prefix, and the earliest declared of equally long ones. */
  lemma {:induction false} DispatchIsLongest(ls: seq<Location>, path: string)
    ensures IsDispatch(ls, path, FirstMatch(SortByLength(ls), path))
  {
    if ls != [] {
      var rest := ls[1..];
      var r := FirstMatch(SortByLength(rest), path);
      DispatchIsLongest(rest, path);
      SortDescends(rest);
      FirstMatchInserted(ls[0], SortByLength(rest), path);
      DispatchCons(ls, path, r);
    }
  }

  lemma DispatchCons(ls: seq<Location>, path: string, r: Option<Location>)
    requires ls != [] && IsDispatch(ls[1..], path, r)
    ensures IsDispatch(ls, path, if LocationMatches(ls[0].path, path) && (r == None || |ls[0].path| >= |r.value.path|)
                                 then Some(ls[0]) else r)
  {
    var rest := ls[1..];
    assert forall j | 0 < j < |ls| :: ls[j] == rest[j - 1];
    if r.Some? {
      var i :| 0 <= i < |rest| && rest[i] == r.value && LocationMatches(r.value.path, path)
        && (forall j | 0 <= j < |rest| && LocationMatches(rest[j].path, path) :: |rest[j].path| <= |r.value.path|)
        && (forall j | 0 <= j < i && LocationMatches(rest[j].path, path) :: |rest[j].path| < |r.value.path|);
      if !(LocationMatches(ls[0].path, path) && |ls[0].path| >= |r.value.path|) {
        assert ls[i + 1] == r.value;
      }
    }
  }

  /** Rules that start with a slash and match one path at the same length are the same prefix. */
  lemma EqualLengthSamePrefix(a: string, b: string, path: string)
    requires LocationMatches(a, path) && LocationMatches(b, path) && |a| == |b|
    requires a != [] && b != [] && a[0] == '/' && b[0] == '/'
    ensures a == b
  {
    if a == "/" || b == "/" {
      assert a == [a[0]] && b == [b[0]];
    } else {
      assert a == path[..|a|] && b == path[..|b|];
    }
  }

  /** Main result: the order the rules are declared in does not matter for the prefix that is
      picked, nor for the rule when each prefix is declared once. */
  lemma DispatchIgnoresOrder(ls: seq<Location>, ls2: seq<Location>, path: string)
    requires forall l :: l in ls <==> l in ls2
    requires forall l | l in ls :: l.path != [] && l.path[0] == '/'
    ensures var r, r2 := FirstMatch(SortByLength(ls), path), FirstMatch(SortByLength(ls2), path);
            (r.Some? <==> r2.Some?) && (r.Some? ==> r.value.path == r2.value.path)
            && ((forall l, m | l in ls && m in ls && l.path == m.path :: l == m) ==> r == r2)
  {
    DispatchIsLongest(ls, path);
    DispatchIsLongest(ls2, path);
    var r, r2 := FirstMatch(SortByLength(ls), path), FirstMatch(SortByLength(ls2), path);
    if r.Some? {
      assert r.value in ls2;
      var j :| 0 <= j < |ls2| && ls2[j] == r.value;
      assert LocationMatches(ls2[j].path, path);
    }
    if r2.Some? {
      assert r2.value in ls;
      var j :| 0 <= j < |ls| && ls[j] == r2.value;
      assert LocationMatches(ls[j].path, path);
    }
    if r.Some? && r2.Some? { EqualLengthSamePrefix(r.value.path, r2.value.path, path); }
  }

  lemma {:induction false} InsertKeeps(x: Location, ls: seq<Location>, l: Location)
    ensures l in Insert(x, ls) <==> l == x || l in ls
  {
    if ls != [] && !(|x.path| >= |ls[0].path|) { InsertKeeps(x, ls[1..], l); }
  }

  lemma {:induction false} SortKeeps(ls: seq<Location>, l: Location)
    ensures l in SortByLength(ls) <==> l in ls
  {
    if ls != [] {
      SortKeeps(ls[1..], l);
      InsertKeeps(ls[0], SortByLength(ls[1..]), l);
    }
  }

  /** A site's rules are the declared ones, but for a bare slash on a proxy site. */
  lemma {:induction false} BuildKeeps(ls: seq<Location>, isProxy: bool, l: Location)
    ensures l in BuildLocations(ls, isProxy) <==> l in ls && !(isProxy && l.path == "/")
  {
    RelevantKeeps(ls, isProxy, l);
    SortKeeps(Relevant(ls, isProxy), l);
  }

  lemma {:induction false} RelevantKeeps(ls: seq<Location>, isProxy: bool, l: Location)
    ensures l in Relevant(ls, isProxy) <==> l in ls && !(isProxy && l.path == "/")
  {
    if ls != [] { RelevantKeeps(ls[1..], isProxy, l); }
  }

  // ----- Matching, in terms of path segments -----

  lemma {:induction false} JoinAppend(a: seq<string>, b: seq<string>, c: char)
    requires |a| >= 1 && |b| >= 1
    ensures Join(a + b, c) == Join(a, c) + [c] + Join(b, c)
  {
    if |a| == 1 {
      assert (a + b)[1..] == b;
    } else {
      JoinAppend(a[1..], b, c);
      assert (a + b)[1..] == a[1..] + b;
    }
  }

  /** The pieces `p` begin the pieces `q`; where `p` ends in a slash, a further piece must follow. */
  predicate Begins(p: seq<string>, q: seq<string>, slash: bool)
    requires |p| >= 1
  {
    if slash then |p| <= |q| && p[..|p| - 1] == q[..|p| - 1] else p <= q
  }

  lemma MatchGivesSegments(prefix: string, path: string)
    requires prefix != "/" && LocationMatches(prefix, path)
    ensures Begins(Split(prefix, '/'), Split(path, '/'), EndsInSlash(prefix))
  {
    var rest := path[|prefix|..];
    assert path == prefix + rest;
    if EndsInSlash(prefix) {
      var front := prefix[..|prefix| - 1];
      assert prefix == front + ['/'] + "" && path == front + ['/'] + rest;
      SplitAt(front, "", '/');
      SplitAt(front, rest, '/');
    } else if rest == "" {
      assert path == prefix;
    } else {
      assert path == prefix + ['/'] + rest[1..];
      SplitAt(prefix, rest[1..], '/');
    }
  }

  lemma SlashedSegmentsGiveMatch(front: string, path: string)
    requires |Split(front, '/')| < |Split(path, '/')| && Split(front, '/') <= Split(path, '/')
    ensures front + ['/'] <= path
  {
    var p, q := Split(front, '/'), Split(path, '/');
    SplitPieces(front, '/');
    SplitPieces(path, '/');
    assert q == p + q[|p|..];
    JoinAppend(p, q[|p|..], '/');
  }

  lemma SegmentsGiveMatch(prefix: string, path: string)
    requires Begins(Split(prefix, '/'), Split(path, '/'), EndsInSlash(prefix))
    ensures LocationMatches(prefix, path)
  {
    var p, q := Split(prefix, '/'), Split(path, '/');
    if EndsInSlash(prefix) {
      var front := prefix[..|prefix| - 1];
      assert prefix == front + ['/'] && front + ['/'] + "" == prefix;
      SplitAt(front, "", '/');
      assert p == Split(front, '/') + [""] && p[..|p| - 1] == Split(front, '/');
      SlashedSegmentsGiveMatch(front, path);
    } else if |q| == |p| {
      SplitPieces(prefix, '/');
      SplitPieces(path, '/');
      assert p == q;
    } else {
      SlashedSegmentsGiveMatch(prefix, path);
      assert path[|prefix|] == '/';
    }
  }

  /** Main result: a rule other than the bare slash matches exactly the paths whose segments begin with
      its own: never `/apixyz` for `/api`. */
  lemma SegmentsDecide(prefix: string, path: string)
    requires prefix != "/"
    ensures LocationMatches(prefix, path) <==> Begins(Split(prefix, '/'), Split(path, '/'), EndsInSlash(prefix))
    ensures LocationMatches("/", path)
  {
    if LocationMatches(prefix, path) { MatchGivesSegments(prefix, path); }
    if Begins(Split(prefix, '/'), Split(path, '/'), EndsInSlash(prefix)) { SegmentsGiveMatch(prefix, path); }
  }

  // ----- Slash collapsing -----

  /** A slash right after a slash is skipped. */
  function Collapsed(s: string): string {
    if s == [] then []
    else
      var before, c := s[..|s| - 1], s[|s| - 1];
      if c == '/' && EndsInSlash(before) then Collapsed(before) else Collapsed(before) + [c]
  }

  predicate EndsInSlash(s: string) {
    s != [] && s[|s| - 1] == '/'
  }

  predicate NoDoubleSlash(s: string) {
    forall i | 0 < i < |s| :: !(s[i - 1] == '/' && s[i] == '/')
  }

  lemma {:induction false} CollapsedPlain(s: string)
    requires NoDoubleSlash(s)
    ensures Collapsed(s) == s
  {
    if s != [] {
      var before := s[..|s| - 1];
      assert forall i | 0 <= i < |before| :: before[i] == s[i];
      CollapsedPlain(before);
      assert before + [s[|s| - 1]] == s;
    }
  }

  method CollapseSlashes(path: string) returns (out: string)
    ensures out == Collapsed(path)
  {
    if NoDoubleSlash(path) {
      CollapsedPlain(path);
      return path;
    }
    out := "";
    var prevSlash := false;
    for i := 0 to |path|
      invariant out == Collapsed(path[..i]) && (prevSlash <==> EndsInSlash(path[..i]))
    {
      var c := path[i];
      assert path[..i + 1][..i] == path[..i];
      if c == '/' {
        if prevSlash { continue; }
        prevSlash := true;
      } else {
        prevSlash := false;
      }
      out := out + [c];
    }
    assert path[..|path|] == path;
  }

  lemma {:induction false} CollapsedEnds(s: string)
    ensures EndsInSlash(Collapsed(s)) <==> EndsInSlash(s)
  {
    if s != [] { CollapsedEnds(s[..|s| - 1]); }
  }

  lemma {:induction false} CollapsedHasNoDouble(s: string)
    ensures NoDoubleSlash(Collapsed(s))
  {
    if s != [] {
      CollapsedHasNoDouble(s[..|s| - 1]);
      CollapsedEnds(s[..|s| - 1]);
    }
  }

  function NonEmpty(parts: seq<string>): seq<string> {
    if parts == [] then []
    else NonEmpty(parts[..|parts| - 1]) + (if parts[|parts| - 1] == [] then [] else [parts[|parts| - 1]])
  }

  lemma SplitSnoc(s: string, c: char)
    ensures var r := Split(s, '/');
            Split(s + [c], '/') == if c == '/' then r + [[]] else r[..|r| - 1] + [r[|r| - 1] + [c]]
  {
    if c == '/' {
      SplitAt(s, [], '/');
      assert s + ['/'] + [] == s + [c];
    } else {
      SplitSnocLetter(s, c);
    }
  }

  lemma {:induction false} SplitSnocLetter(s: string, c: char)
    requires c != '/'
    ensures var r := Split(s, '/');
            Split(s + [c], '/') == r[..|r| - 1] + [r[|r| - 1] + [c]]
  {
    if s == [] {
      SplitCons(c, [], '/');
      assert s + [c] == [c] + [] && [c] + [] == [] + [c];
      assert Split([], '/') == [[]];
    } else {
      SplitSnocLetter(s[1..], c);
      assert s == [s[0]] + s[1..] && s + [c] == [s[0]] + (s[1..] + [c]);
      SplitCons(s[0], s[1..], '/');
      SplitCons(s[0], s[1..] + [c], '/');
      ConsSnoc(s[0], Split(s[1..], '/'), c);
    }
  }

  lemma ConsSnoc(x: char, r: seq<string>, c: char)
    requires |r| >= 1
    ensures var t := r[..|r| - 1] + [r[|r| - 1] + [c]];
            var u, v := [[]] + r, [[x] + r[0]] + r[1..];
            [[]] + t == u[..|u| - 1] + [u[|u| - 1] + [c]]
            && [[x] + t[0]] + t[1..] == v[..|v| - 1] + [v[|v| - 1] + [c]]
  {
    assert |r| == 1 ==> [x] + (r[0] + [c]) == [x] + r[0] + [c];
  }

  lemma NonEmptySnoc(parts: seq<string>, p: string)
    ensures NonEmpty(parts + [p]) == NonEmpty(parts) + (if p == [] then [] else [p])
  {
    assert (parts + [p])[..|parts|] == parts;
  }

  function Front(parts: seq<string>): seq<string>
    requires |parts| >= 1
  {
    parts[..|parts| - 1]
  }

  function Last(parts: seq<string>): string
    requires |parts| >= 1
  {
    parts[|parts| - 1]
  }

  /** The same non-empty segments, and the same unfinished last one. */
  predicate SameSegments(a: seq<string>, b: seq<string>)
    requires |a| >= 1 && |b| >= 1
  {
    NonEmpty(a) == NonEmpty(b) && Last(a) == Last(b) && NonEmpty(Front(a)) == NonEmpty(Front(b))
  }

  lemma LetterKeepsSame(a: seq<string>, b: seq<string>, c: char)
    requires |a| >= 1 && |b| >= 1 && SameSegments(a, b)
    ensures SameSegments(Front(a) + [Last(a) + [c]], Front(b) + [Last(b) + [c]])
  {
    NonEmptySnoc(Front(a), Last(a) + [c]);
    NonEmptySnoc(Front(b), Last(b) + [c]);
    assert Front(Front(a) + [Last(a) + [c]]) == Front(a) && Front(Front(b) + [Last(b) + [c]]) == Front(b);
  }

  lemma SlashKeepsSame(a: seq<string>, b: seq<string>)
    requires |a| >= 1 && |b| >= 1 && SameSegments(a, b)
    ensures SameSegments(a + [[]], b + [[]])
    ensures Last(b) == [] ==> SameSegments(a, b + [[]])
  {
    NonEmptySnoc(a, []);
    NonEmptySnoc(b, []);
    assert Front(a + [[]]) == a && Front(b + [[]]) == b;
    assert a == Front(a) + [Last(a)];
    NonEmptySnoc(Front(a), Last(a));
  }

  lemma {:induction false} CollapsedSegments(s: string)
    ensures SameSegments(Split(Collapsed(s), '/'), Split(s, '/'))
  {
    if s != [] {
      var before, c := s[..|s| - 1], s[|s| - 1];
      CollapsedSegments(before);
      assert s == before + [c];
      if c == '/' { SlashStep(Collapsed(before), before); } else { LetterStep(Collapsed(before), before, c); }
    }
  }

  lemma LetterStep(kept: string, before: string, c: char)
    requires c != '/' && SameSegments(Split(kept, '/'), Split(before, '/'))
    ensures SameSegments(Split(kept + [c], '/'), Split(before + [c], '/'))
  {
    SplitSnoc(before, c);
    SplitSnoc(kept, c);
    LetterKeepsSame(Split(kept, '/'), Split(before, '/'), c);
  }

  lemma SlashStep(kept: string, before: string)
    requires SameSegments(Split(kept, '/'), Split(before, '/'))
    ensures SameSegments(Split(kept + ['/'], '/'), Split(before + ['/'], '/'))
    ensures EndsInSlash(before) ==> SameSegments(Split(kept, '/'), Split(before + ['/'], '/'))
  {
    SplitSnoc(before, '/');
    SplitSnoc(kept, '/');
    SlashKeepsSame(Split(kept, '/'), Split(before, '/'));
    if EndsInSlash(before) { LastSegmentAfterSlash(before); }
  }

  lemma LastSegmentAfterSlash(s: string)
    requires EndsInSlash(s)
    ensures Split(s, '/')[|Split(s, '/')| - 1] == []
  {
    SplitSnoc(s[..|s| - 1], '/');
    assert s[..|s| - 1] + ['/'] == s;
  }

  /** Main result: collapsing leaves no double slash, does nothing the second time, and keeps
      the non-empty segments in order. */
  lemma CollapseLaws(s: string)
    ensures NoDoubleSlash(Collapsed(s)) && Collapsed(Collapsed(s)) == Collapsed(s)
    ensures NonEmpty(Split(Collapsed(s), '/')) == NonEmpty(Split(s, '/'))
  {
    CollapsedHasNoDouble(s);
    CollapsedPlain(Collapsed(s));
    CollapsedSegments(s);
  }
}
