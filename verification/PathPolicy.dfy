/** Lexical path normalisation, and the bind-mount deny rule that relies on it. */
module PathPolicy {
  import opened Wrappers
  import opened Text

  // ----- Segments -----

  function Push(stack: seq<string>, seg: string): seq<string> {
    if seg == "" || seg == "." then stack
    else if seg == ".." then if stack == [] then [] else stack[..|stack| - 1]
    else stack + [seg]
  }

  function Walk(stack: seq<string>, segs: seq<string>): seq<string>
    decreases |segs|
  {
    if segs == [] then stack else Walk(Push(stack, segs[0]), segs[1..])
  }

  function Render(segs: seq<string>): string {
    if segs == [] then "/" else "/" + Join(segs, '/')
  }

  /** The segments a path resolves to. */
  function Resolved(path: string): seq<string> {
    Walk([], Split(Trim(path), '/'))
  }

  function Normalized(path: string): string {
    Render(Resolved(path))
  }

  lemma {:induction false} WalkAppend(stack: seq<string>, a: seq<string>, b: seq<string>)
    ensures Walk(stack, a + b) == Walk(Walk(stack, a), b)
    decreases |a|
  {
    if a == [] {
      assert a + b == b;
    } else {
      WalkAppend(Push(stack, a[0]), a[1..], b);
      assert (a + b)[1..] == a[1..] + b;
    }
  }

  method NormalizeLexical(path: string) returns (r: string)
    ensures r == Normalized(path)
  {
    var out: seq<string> := [];
    var segs := Split(Trim(path), '/');
    for i := 0 to |segs|
      invariant out == Walk([], segs[..i])
    {
      var seg := segs[i];
      WalkAppend([], segs[..i], [seg]);
      assert segs[..i + 1] == segs[..i] + [seg];
      if seg == "" || seg == "." {
      } else if seg == ".." {
        if out != [] { out := out[..|out| - 1]; }
      } else {
        out := out + [seg];
      }
    }
    assert segs[..|segs|] == segs;
    r := if out == [] then "/" else "/" + Join(out, '/');
  }

  // ----- Normal forms -----

  predicate IsName(seg: string) {
    seg != "" && seg != "." && seg != ".." && '/' !in seg
  }

  predicate Clean(segs: seq<string>) {
    forall i | 0 <= i < |segs| :: IsName(segs[i])
  }

  lemma {:induction false} WalkIsClean(stack: seq<string>, segs: seq<string>)
    requires Clean(stack) && forall i | 0 <= i < |segs| :: '/' !in segs[i]
    ensures Clean(Walk(stack, segs))
    ensures forall s | s in Walk(stack, segs) :: s in stack || s in segs
    decreases |segs|
  {
    if segs != [] { WalkIsClean(Push(stack, segs[0]), segs[1..]); }
  }

  lemma {:induction false} WalkOfClean(stack: seq<string>, segs: seq<string>)
    requires Clean(segs)
    ensures Walk(stack, segs) == stack + segs
    decreases |segs|
  {
    if segs != [] { WalkOfClean(stack + [segs[0]], segs[1..]); }
  }

  lemma ResolvedIsClean(path: string)
    ensures Clean(Resolved(path))
  {
    SplitPieces(Trim(path), '/');
    WalkIsClean([], Split(Trim(path), '/'));
  }

  lemma RenderSplits(segs: seq<string>)
    requires Clean(segs)
    ensures Split(Render(segs), '/') == if segs == [] then ["", ""] else [""] + segs
    ensures Walk([], Split(Render(segs), '/')) == segs
  {
    if segs == [] {
      assert Split("/", '/') == ["", ""] by { SplitAt("", "", '/'); SplitWhole("", '/'); }
    } else {
      SplitJoin(segs, '/');
      SplitCons('/', Join(segs, '/'), '/');
      assert Split(Render(segs), '/') == [""] + segs;
      WalkOfClean([], segs);
      assert ([""] + segs)[1..] == segs;
    }
  }

  lemma RenderInjective(a: seq<string>, b: seq<string>)
    requires Clean(a) && Clean(b) && Render(a) == Render(b)
    ensures a == b
  {
    RenderSplits(a);
    RenderSplits(b);
  }

  /** Main result: the normal form is absolute, and has no empty, `.` or `..` segment. */
  lemma NormalForm(path: string)
    ensures var r := Normalized(path);
            "/" <= r && (r == "/" || (var parts := Split(r, '/');
              parts[0] == "" && |parts| > 1 && forall i | 1 <= i < |parts| :: IsName(parts[i])))
  {
    ResolvedIsClean(path);
    RenderSplits(Resolved(path));
  }

  // ----- Idempotence -----

  function Weight(segs: seq<string>): nat {
    if segs == [] then 0 else |segs[0]| + 1 + Weight(segs[1..])
  }

  lemma {:induction false} WeightAppend(a: seq<string>, b: seq<string>)
    ensures Weight(a + b) == Weight(a) + Weight(b)
  {
    if a == [] {
      assert a + b == b;
    } else {
      WeightAppend(a[1..], b);
      assert (a + b)[1..] == a[1..] + b;
    }
  }

  lemma {:induction false} JoinWeight(segs: seq<string>)
    requires segs != []
    ensures |Join(segs, '/')| + 1 == Weight(segs)
  {
    if |segs| > 1 { JoinWeight(segs[1..]); }
  }

  lemma {:induction false} WalkWeight(stack: seq<string>, segs: seq<string>)
    ensures Weight(Walk(stack, segs)) <= Weight(stack) + Weight(segs)
    decreases |segs|
  {
    if segs != [] {
      WalkWeight(Push(stack, segs[0]), segs[1..]);
      WeightAppend(stack, [segs[0]]);
      if stack != [] {
        WeightAppend(stack[..|stack| - 1], [stack[|stack| - 1]]);
        assert stack[..|stack| - 1] + [stack[|stack| - 1]] == stack;
      }
    }
  }

  lemma {:induction false} TrimEndShape(s: string)
    ensures TrimEnd(s) <= s && (s != [] && IsSpace(s[|s| - 1]) ==> |TrimEnd(s)| < |s|)
    ensures s != [] && !IsSpace(s[0]) ==> TrimEnd(s) != [] && TrimEnd(s)[0] == s[0]
    decreases |s|
  {
    if s != [] && IsSpace(s[|s| - 1]) { TrimEndShape(s[..|s| - 1]); }
  }

  /** Normalising a path that starts with a slash never makes it longer. */
  lemma NeverLonger(q: string)
    requires "/" <= q
    ensures |Render(Walk([], Split(q, '/')))| <= |q|
  {
    var segs := Split(q, '/');
    SplitPieces(q, '/');
    JoinWeight(segs);
    SplitCons('/', q[1..], '/');
    assert ['/'] + q[1..] == q;
    assert segs[0] == "" && segs == [""] + segs[1..];
    WalkWeight([], segs[1..]);
    var r := Walk([], segs);
    assert r == Walk([], segs[1..]);
    if r != [] { JoinWeight(r); }
  }

  predicate EndsInSpace(s: string) {
    s != [] && IsSpace(s[|s| - 1])
  }

  /** The normal form is a fixed point unless it ends in white space, which a second pass trims. */
  lemma FixedUnlessSpace(path: string)
    ensures Normalized(Normalized(path)) == Normalized(path) <==> !EndsInSpace(Normalized(path))
  {
    var r := Normalized(path);
    ResolvedIsClean(path);
    RenderSplits(Resolved(path));
    if EndsInSpace(r) {
      TrimEndShape(r);
      assert Trim(r) == TrimEnd(r);
      NeverLonger(Trim(r));
    } else {
      TrimTight(r);
    }
  }

  lemma {:induction false} JoinEndsLikeLast(segs: seq<string>)
    requires segs != [] && segs[|segs| - 1] != []
    ensures var last := segs[|segs| - 1];
            Join(segs, '/') != [] && Join(segs, '/')[|Join(segs, '/')| - 1] == last[|last| - 1]
  {
    if |segs| > 1 { JoinEndsLikeLast(segs[1..]); }
  }

  /** The last name that no later `..` takes back, read from the end with `up` of them pending. */
  function LastName(segs: seq<string>, up: nat): Option<string>
    decreases |segs|
  {
    if segs == [] then None
    else
      var before, seg := segs[..|segs| - 1], segs[|segs| - 1];
      if seg == "" || seg == "." then LastName(before, up)
      else if seg == ".." then LastName(before, up + 1)
      else if up > 0 then LastName(before, up - 1)
      else Some(seg)
  }

  lemma {:induction false} LastNameSurvives(segs: seq<string>, up: nat)
    ensures var r := Walk([], segs);
            LastName(segs, up) == if |r| > up then Some(r[|r| - 1 - up]) else None
    decreases |segs|
  {
    if segs != [] {
      var before, seg := segs[..|segs| - 1], segs[|segs| - 1];
      assert segs == before + [seg];
      WalkAppend([], before, [seg]);
      assert Walk(Walk([], before), [seg]) == Push(Walk([], before), seg);
      LastNameSurvives(before, if seg == "" || seg == "." then up else if seg == ".." then up + 1
                               else if up > 0 then up - 1 else 0);
    }
  }

  /** The last name that remains of these pieces, if any does, does not end in white space. */
  predicate EndsTight(segs: seq<string>) {
    var last := LastName(segs, 0);
    last.Some? ==> !EndsInSpace(last.value)
  }

  lemma RenderEnds(segs: seq<string>)
    requires Clean(segs)
    ensures EndsInSpace(Render(segs)) <==> segs != [] && EndsInSpace(segs[|segs| - 1])
  {
    if segs != [] {
      assert IsName(segs[|segs| - 1]);
      JoinEndsLikeLast(segs);
    }
  }

  lemma EndsTightIff(segs: seq<string>)
    requires Clean(Walk([], segs))
    ensures EndsTight(segs) <==> !EndsInSpace(Render(Walk([], segs)))
  {
    LastNameSurvives(segs, 0);
    RenderEnds(Walk([], segs));
  }

  /** Main result: normalising twice is normalising once, exactly when the last name that
      remains of the path does not end in white space. */
  lemma IdempotentIff(path: string)
    ensures Normalized(Normalized(path)) == Normalized(path) <==> EndsTight(Split(Trim(path), '/'))
  {
    FixedUnlessSpace(path);
    ResolvedIsClean(path);
    EndsTightIff(Split(Trim(path), '/'));
  }

  lemma NormalizedFrom(path: string, pieces: seq<string>, r: seq<string>)
    requires |pieces| >= 1 && Trim(path) == Join(pieces, '/') && Walk([], pieces) == r
    requires forall p | p in pieces :: '/' !in p
    ensures Normalized(path) == Render(r)
  {
    SplitJoin(pieces, '/');
  }

  /** A path whose normal form is no fixed point: its last slash hides the space from the first pass. */
  lemma NotIdempotent()
    ensures Normalized("/a /") == "/a " && Normalized("/a ") == "/a"
  {
    TrimTight("/a /");
    assert ["", "a ", ""][1..] == ["a ", ""] && ["a ", ""][1..] == [""];
    NormalizedFrom("/a /", ["", "a ", ""], ["a "]);
    TrimsToA();
    assert ["", "a"][1..] == ["a"];
    NormalizedFrom("/a ", ["", "a"], ["a"]);
  }

  lemma TrimsToA()
    ensures Trim("/a ") == "/a"
  {
    assert "/a "[..2] == "/a";
  }

  lemma {:induction false} LastNameIsPiece(segs: seq<string>, up: nat)
    ensures LastName(segs, up).Some? ==> LastName(segs, up).value in segs
    decreases |segs|
  {
    if segs != [] {
      var before := segs[..|segs| - 1];
      LastNameIsPiece(before, up);
      LastNameIsPiece(before, up + 1);
      if up > 0 { LastNameIsPiece(before, up - 1); }
      assert forall p | p in before :: p in segs;
    }
  }

  /** It is enough that no piece between slashes ends in white space. */
  lemma IdempotentIfPiecesTight(path: string)
    requires forall p | p in Split(Trim(path), '/') :: !EndsInSpace(p)
    ensures Normalized(Normalized(path)) == Normalized(path)
  {
    IdempotentIff(path);
    LastNameIsPiece(Split(Trim(path), '/'), 0);
  }

  /** The pieces of a path without white space have none either. */
  lemma {:induction false} PiecesNoSpace(s: string)
    requires NoSpace(s)
    ensures forall p | p in Split(s, '/') :: NoSpace(p)
  {
    if s != [] {
      PiecesNoSpace(s[1..]);
      var r := Split(s[1..], '/');
      assert NoSpace(r[0]) && r[0] in r;
      forall p | p in Split(s, '/') ensures NoSpace(p) {
        assert p == [] || p == [s[0]] + r[0] || p in r;
      }
    }
  }

  /** Every path without white space meets it. */
  lemma IdempotentWithoutSpace(path: string)
    requires NoSpace(path)
    ensures Normalized(Normalized(path)) == Normalized(path)
  {
    TrimTight(path);
    PiecesNoSpace(path);
    IdempotentIfPiecesTight(path);
  }

  // ----- Detours -----

  /** No white space at the outer ends of a path made of two parts. */
  predicate TightAround(a: string, b: string) {
    (a == "" || !IsSpace(a[0])) && (b == "" || !IsSpace(b[|b| - 1]))
  }

  lemma SplitAround(a: string, middle: string, b: string)
    requires TightAround(a, b)
    ensures Resolved(a + "/" + middle + "/" + b)
         == Walk(Walk(Walk([], Split(a, '/')), Split(middle, '/')), Split(b, '/'))
    ensures Resolved(a + "/" + b) == Walk(Walk([], Split(a, '/')), Split(b, '/'))
  {
    TrimTight(a + "/" + middle + "/" + b);
    TrimTight(a + "/" + b);
    SplitAt(a + ['/'] + middle, b, '/');
    SplitAt(a, middle, '/');
    SplitAt(a, b, '/');
    WalkAppend([], Split(a, '/') + Split(middle, '/'), Split(b, '/'));
    WalkAppend([], Split(a, '/'), Split(middle, '/'));
    WalkAppend([], Split(a, '/'), Split(b, '/'));
  }

  /** Main result: a doubled slash, a `/./` or a `/name/../` anywhere after a slash changes nothing. */
  lemma DetoursVanish(a: string, name: string, b: string)
    requires TightAround(a, b) && IsName(name)
    ensures Normalized(a + "/" + "" + "/" + b) == Normalized(a + "/" + b)
    ensures Normalized(a + "/" + "." + "/" + b) == Normalized(a + "/" + b)
    ensures Normalized(a + "/" + (name + "/" + "..") + "/" + b) == Normalized(a + "/" + b)
  {
    var stack := Walk([], Split(a, '/'));
    SplitAround(a, "", b);
    SplitAround(a, ".", b);
    SplitAround(a, name + "/" + "..", b);
    SplitWhole("", '/');
    SplitWhole(".", '/');
    SplitWhole("..", '/');
    SplitWhole(name, '/');
    SplitAt(name, "..", '/');
    assert Split(name + "/" + "..", '/') == [name] + [".."];
    WalkAppend(stack, [name], [".."]);
    assert Walk(stack, [name]) == stack + [name];
    assert Push(stack + [name], "..") == stack;
    assert Walk(stack + [name], [".."]) == stack;
    assert Walk(stack, [""]) == stack && Walk(stack, ["."]) == stack;
  }

  /** Main result: a step up from the root stays at the root. */
  lemma RootIsTop(b: string)
    requires b == "" || !IsSpace(b[|b| - 1])
    ensures Normalized("/.." + "/" + b) == Normalized("" + "/" + b)
  {
    assert "/.." == "" + "/" + "..";
    SplitAround("/..", "", b);
    SplitAround("", "", b);
    SplitWhole("", '/');
    SplitWhole("..", '/');
    SplitAt("", "..", '/');
    assert Split("/..", '/') == [""] + [".."];
    assert Walk([], [""] + [".."]) == Walk(Push([], ""), ([""] + [".."])[1..]);
    assert ([""] + [".."])[1..] == [".."] && Walk([], [".."]) == Walk(Push([], ".."), []);
    assert Walk([], [""]) == Walk(Push([], ""), []);
  }

  /** Main result: a path that is clean already, without white space at its end, stays as it is. */
  lemma CleanPathStays(segs: seq<string>)
    requires Clean(segs) && (segs != [] ==> !EndsInSpace(segs[|segs| - 1]))
    ensures Normalized(Render(segs)) == Render(segs)
  {
    RenderSplits(segs);
    RenderEnds(segs);
    TrimTight(Render(segs));
  }

  // ----- The deny rule -----

  const TREES: seq<string> := ["/etc", "/root", "/boot", "/proc", "/sys", "/dev"]

  predicate HostBindDenied(path: string) {
    var p := Normalized(path);
    p == "/var/run/docker.sock" || p == "/run/docker.sock"
    || p == "/"
    || exists i | 0 <= i < |TREES| :: UnderTreeAt(p, i)
  }

  const DENIED_ROOTS: seq<string> := ["etc", "root", "boot", "proc", "sys", "dev"]

  /** The rule on segments: the root, a denied first segment, or one of the two socket paths. */
  predicate DeniedBySegments(segs: seq<string>) {
    segs == [] || segs[0] in DENIED_ROOTS
    || segs == ["var", "run", "docker.sock"] || segs == ["run", "docker.sock"]
  }

  lemma TreeHoldsName(segs: seq<string>, name: string)
    requires Clean(segs) && segs != [] && segs[0] == name
    ensures Render(segs) == "/" + name || "/" + name + "/" <= Render(segs)
  {
    if |segs| > 1 { assert Render(segs) == "/" + name + "/" + Join(segs[1..], '/'); }
  }

  lemma UnderTreeHasName(segs: seq<string>, name: string)
    requires Clean(segs) && segs != [] && IsName(name) && "/" + name + "/" <= Render(segs)
    ensures segs[0] == name
  {
    var p, tree := Render(segs), "/" + name;
    RenderSplits(segs);
    RenderOne(name);
    var rest := p[|tree| + 1..];
    assert p == tree + ['/'] + rest;
    SplitAt(tree, rest, '/');
    assert Split(p, '/')[1] == name;
  }

  lemma UnderTree(segs: seq<string>, name: string)
    requires Clean(segs) && segs != [] && IsName(name)
    ensures Render(segs) == "/" + name || "/" + name + "/" <= Render(segs) <==> segs[0] == name
  {
    if segs[0] == name { TreeHoldsName(segs, name); }
    if "/" + name + "/" <= Render(segs) { UnderTreeHasName(segs, name); }
    if Render(segs) == "/" + name {
      RenderOne(name);
      RenderInjective(segs, [name]);
    }
  }

  lemma RenderOne(name: string)
    requires IsName(name)
    ensures Render([name]) == "/" + name && Split("/" + name, '/') == ["", name]
  {
    RenderSplits([name]);
  }

  lemma SocketPath(segs: seq<string>)
    requires Clean(segs)
    ensures Render(segs) == "/var/run/docker.sock" <==> segs == ["var", "run", "docker.sock"]
    ensures Render(segs) == "/run/docker.sock" <==> segs == ["run", "docker.sock"]
    ensures Render(segs) == "/" <==> segs == []
  {
    RenderSockets();
    if Render(segs) == "/var/run/docker.sock" { RenderInjective(segs, ["var", "run", "docker.sock"]); }
    if Render(segs) == "/run/docker.sock" { RenderInjective(segs, ["run", "docker.sock"]); }
    if Render(segs) == "/" { RenderInjective(segs, []); }
  }

  lemma RenderSockets()
    ensures Render(["var", "run", "docker.sock"]) == "/var/run/docker.sock"
    ensures Render(["run", "docker.sock"]) == "/run/docker.sock"
  {
    var a, b := ["var", "run", "docker.sock"], ["run", "docker.sock"];
    assert b[1..] == ["docker.sock"] && a[1..] == b;
  }

  predicate UnderTreeAt(p: string, i: nat)
    requires i < |TREES|
  {
    p == TREES[i] || TREES[i] + "/" <= p
  }

  lemma TreeIsRoot(i: nat)
    requires i < |TREES|
    ensures i < |DENIED_ROOTS| && TREES[i] == "/" + DENIED_ROOTS[i] && IsName(DENIED_ROOTS[i])
  {
    assert i == 0 || i == 1 || i == 2 || i == 3 || i == 4 || i == 5;
  }

  lemma UnderSomeTree(segs: seq<string>)
    requires Clean(segs) && segs != []
    ensures (exists i | 0 <= i < |TREES| :: UnderTreeAt(Render(segs), i)) <==> segs[0] in DENIED_ROOTS
  {
    if i :| 0 <= i < |TREES| && UnderTreeAt(Render(segs), i) {
      TreeIsRoot(i);
      UnderTree(segs, DENIED_ROOTS[i]);
    }
    if i :| 0 <= i < |DENIED_ROOTS| && DENIED_ROOTS[i] == segs[0] {
      TreeIsRoot(i);
      UnderTree(segs, DENIED_ROOTS[i]);
      assert UnderTreeAt(Render(segs), i);
    }
  }

  /** Main result: the string rule is the segment rule on what the path resolves to. */
  lemma DeniedIffBySegments(path: string)
    ensures HostBindDenied(path) <==> DeniedBySegments(Resolved(path))
  {
    var segs := Resolved(path);
    ResolvedIsClean(path);
    SocketPath(segs);
    if segs != [] { UnderSomeTree(segs); }
  }

  /** So no detour gets a denied path past the rule, nor an allowed one caught by it. */
  lemma DetoursDoNotMatter(a: string, name: string, b: string)
    requires TightAround(a, b) && IsName(name)
    ensures HostBindDenied(a + "/" + "" + "/" + b) == HostBindDenied(a + "/" + b)
    ensures HostBindDenied(a + "/" + "." + "/" + b) == HostBindDenied(a + "/" + b)
    ensures HostBindDenied(a + "/" + (name + "/" + "..") + "/" + b) == HostBindDenied(a + "/" + b)
  {
    DetoursVanish(a, name, b);
  }
}
