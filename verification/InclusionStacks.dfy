/**
 Reading header inclusion stacks from the compiler's level listing
 (blade/inclusion_check.py), compared with a walk over the include forest.
 */
module InclusionStacks {
  import opened Common

  // ---- Strings ----

  predicate StartsWith(s: string, prefix: string) {
    prefix <= s
  }

  function RStrip(s: string): string {
    if s != "" && IsSpace(s[|s| - 1]) then RStrip(s[..|s| - 1]) else s
  }

  /** The first index of a blank, or -1. */
  function FindSpace(s: string): (pos: int)
    ensures -1 <= pos < |s|
    ensures pos == -1 <==> ' ' !in s
    ensures pos >= 0 ==> s[pos] == ' ' && ' ' !in s[..pos]
  {
    if s == "" then -1
    else if s[0] == ' ' then 0
    else
      var p := FindSpace(s[1..]);
      assert p >= 0 ==> s[..p + 1] == [s[0]] + s[1..][..p];
      if p == -1 then -1 else p + 1
  }

  /** A path as it is tracked: without a leading "./". */
  function Clean(path: string): string {
    if StartsWith(path, "./") then path[2..] else path
  }

  /** Level and header of a listing line; level -1 when the line has no blank. */
  function ParseHdrLevelLine(line: string): (int, string) {
    var pos := FindSpace(line);
    if pos == -1 then (-1, "") else (pos, Clean(line[pos + 1..]))
  }

  function RemoveBuildDirPrefix(path: string, buildDir: string): (r: string)
    ensures path == r || path == buildDir + "/" + r
    ensures StartsWith(path, buildDir + "/") ==> path == buildDir + "/" + r
  {
    var prefix := buildDir + "/";
    if StartsWith(path, prefix) then path[|prefix|..] else path
  }

  /** os.path.normpath and the build directory. */
  datatype Env = Env(norm: string -> string, buildDir: string) {
    function Name(hdr: string): string {
      RemoveBuildDirPrefix(norm(hdr), buildDir)
    }

    predicate Absolute(hdr: string) {
      StartsWith(hdr, "/")
    }

    predicate Generated(hdr: string) {
      !Absolute(hdr) && StartsWith(hdr, buildDir)
    }
  }

  // ---- The parser ----

  datatype Scan = Scan(
    direct: seq<string>, stacks: seq<seq<string>>, hdrsStack: seq<string>, currentLevel: int, skipLevel: int)

  datatype Outcome = Parsed(direct: seq<string>, stacks: seq<seq<string>>) | LevelAssertionFails

  const Start := Scan([], [], [], 0, -1)

  /** Handles one header that is not inside a skipped one. */
  function ProcessHdr(env: Env, s: Scan, level: int, hdr: string): Scan {
    if env.Absolute(hdr) then s.(skipLevel := level)
    else if env.Generated(hdr) then s.(skipLevel := level, stacks := s.stacks + [s.hdrsStack + [env.Name(hdr)]])
    else s.(currentLevel := level, hdrsStack := s.hdrsStack + [env.Name(hdr)], skipLevel := -1)
  }

  /** Pops the stack down to the parent of a header of the given level. */
  function PopTo(s: Scan, level: int): Scan
    decreases |s.hdrsStack|
  {
    if s.currentLevel >= level && s.hdrsStack != []
    then PopTo(s.(currentLevel := s.currentLevel - 1, hdrsStack := s.hdrsStack[..|s.hdrsStack| - 1]), level)
    else s
  }

  function NoteDirect(env: Env, s: Scan, level: int, hdr: string): Scan {
    if level == 1 && !env.Absolute(hdr) then s.(direct := s.direct + [env.Name(hdr)]) else s
  }

  /** One line; None stands for the failing level assertion. */
  datatype Next = Go(s: Scan) | Bad

  function OneHdr(env: Env, s0: Scan, level: int, hdr: string): Next {
    var s := NoteDirect(env, s0, level, hdr);
    if level > s.currentLevel then
      if s.skipLevel != -1 && level > s.skipLevel then Go(s)
      else if level != s.currentLevel + 1 then Bad
      else Go(ProcessHdr(env, s, level, hdr))
    else Go(ProcessHdr(env, PopTo(s, level), level, hdr))
  }

  predicate Stops(line: string) {
    !StartsWith(line, ".") || ParseHdrLevelLine(line).0 == -1
  }

  /** The whole file from a given state on. */
  function Run(env: Env, s: Scan, lines: seq<string>): Outcome
    decreases |lines|
  {
    if lines == [] then Parsed(s.direct, s.stacks)
    else
      var line := RStrip(lines[0]);
      if Stops(line) then Parsed(s.direct, s.stacks)
      else
        var (level, hdr) := ParseHdrLevelLine(line);
        match OneHdr(env, s, level, hdr)
        case Bad => LevelAssertionFails
        case Go(s') => Run(env, s', lines[1..])
  }

  ghost predicate StackRight(s: Scan) {
    s.currentLevel == |s.hdrsStack| && (s.skipLevel == -1 || s.skipLevel == |s.hdrsStack| + 1)
  }

  /** The stack always has as many headers as the current level says. */
  method ParseInclusionStacks(env: Env, lines: seq<string>) returns (r: Outcome)
    ensures r == Run(env, Start, lines)
  {
    hide RStrip, FindSpace, ParseHdrLevelLine;
    var direct: seq<string>, stacks: seq<seq<string>>, hdrsStack: seq<string> := [], [], [];
    var currentLevel, skipLevel := 0, -1;
    assert lines[0..] == lines;
    for i := 0 to |lines|
      invariant Run(env, Start, lines) == Run(env, Scan(direct, stacks, hdrsStack, currentLevel, skipLevel), lines[i..])
      invariant StackRight(Scan(direct, stacks, hdrsStack, currentLevel, skipLevel))
    {
      ghost var s := Scan(direct, stacks, hdrsStack, currentLevel, skipLevel);
      assert lines[i..][0] == lines[i] && lines[i..][1..] == lines[i + 1..];
      var line := RStrip(lines[i]);
      if !StartsWith(line, ".") {
        return Parsed(direct, stacks);
      }
      var (level, hdr) := ParseHdrLevelLine(line);
      if level == -1 {
        return Parsed(direct, stacks);
      }
      LevelPositive(line);
      if level == 1 && !env.Absolute(hdr) {
        direct := direct + [env.Name(hdr)];
      }
      if level > currentLevel {
        if skipLevel != -1 && level > skipLevel {
          continue;
        }
        if level != currentLevel + 1 {
          return LevelAssertionFails;
        }
      } else {
        PopToParent(Scan(direct, stacks, hdrsStack, currentLevel, skipLevel), level);
        ghost var full := hdrsStack;
        while currentLevel >= level
          invariant level - 1 <= currentLevel <= |full| && hdrsStack == full[..currentLevel]
        {
          currentLevel := currentLevel - 1;
          hdrsStack := hdrsStack[..|hdrsStack| - 1];
        }
      }
      if env.Absolute(hdr) {
        skipLevel := level;
      } else if env.Generated(hdr) {
        skipLevel := level;
        stacks := stacks + [hdrsStack + [env.Name(hdr)]];
      } else {
        currentLevel := level;
        hdrsStack := hdrsStack + [env.Name(hdr)];
        skipLevel := -1;
      }
    }
    r := Parsed(direct, stacks);
  }

  // ---- The include forest ----

  /** A header, with the path the compiler prints and the headers it includes. */
  datatype Hdr = Hdr(path: string, kids: seq<Hdr>)

  function Dots(level: nat): (s: string)
    ensures |s| == level && forall i | 0 <= i < level :: s[i] == '.'
  {
    if level == 0 then "" else "." + Dots(level - 1)
  }

  function Line(level: nat, path: string): string {
    Dots(level) + " " + path + "\n"
  }

  /** The preorder listing of a forest whose roots have the given level. */
  function Listing(forest: seq<Hdr>, level: nat): seq<string>
    decreases forest
  {
    if forest == [] then []
    else [Line(level, forest[0].path)] + Listing(forest[0].kids, level + 1) + Listing(forest[1..], level)
  }

  /** Printed paths are not empty and do not end in white space. */
  ghost predicate Printable(forest: seq<Hdr>)
    decreases forest
  {
    forest == [] ||
    (&& forest[0].path != "" && !IsSpace(forest[0].path[|forest[0].path| - 1])
     && Printable(forest[0].kids) && Printable(forest[1..]))
  }

  /** The headers included directly, absolute ones left out. */
  function Direct(env: Env, forest: seq<Hdr>): seq<string> {
    if forest == [] then []
    else
      var hdr := Clean(forest[0].path);
      (if env.Absolute(hdr) then [] else [env.Name(hdr)]) + Direct(env, forest[1..])
  }

  /** The stacks below a given stack, cut at the first generated or absolute header. */
  function Walk(env: Env, forest: seq<Hdr>, stack: seq<string>): seq<seq<string>>
    decreases forest
  {
    if forest == [] then []
    else
      var hdr := Clean(forest[0].path);
      (if env.Absolute(hdr) then []
       else if env.Generated(hdr) then [stack + [env.Name(hdr)]]
       else Walk(env, forest[0].kids, stack + [env.Name(hdr)]))
      + Walk(env, forest[1..], stack)
  }

  /** A printed line, whatever white space ends it, parses back to its level and path. */
  lemma LineParses(level: nat, path: string, end: string)
    requires level >= 1 && path != "" && !IsSpace(path[|path| - 1]) && forall i | 0 <= i < |end| :: IsSpace(end[i])
    ensures var line := RStrip(Dots(level) + " " + path + end);
      StartsWith(line, ".") && ParseHdrLevelLine(line) == (level, Clean(path))
  {
    hide RStrip, FindSpace;
    LineEndStripped(Dots(level) + " " + path, end);
    BlankAfterDots(level, path);
    assert (Dots(level) + " " + path)[level + 1..] == path;
  }

  lemma {:induction false} LineEndStripped(body: string, end: string)
    requires body != "" && !IsSpace(body[|body| - 1]) && forall i | 0 <= i < |end| :: IsSpace(end[i])
    ensures RStrip(body + end) == body
    decreases |end|
  {
    if end == "" {
      assert body + end == body;
    } else {
      assert (body + end)[..|body + end| - 1] == body + end[..|end| - 1];
      LineEndStripped(body, end[..|end| - 1]);
    }
  }

  lemma BlankAfterDots(level: nat, path: string)
    requires level >= 1
    ensures var body := Dots(level) + " " + path;
      FindSpace(body) == level && StartsWith(body, ".")
  {
    hide FindSpace;
    var body := Dots(level) + " " + path;
    assert body[level] == ' ' && body[0] == '.';
    assert body[..level] == Dots(level);
    FirstBlank(body, level);
  }

  lemma {:induction false} FirstBlank(s: string, k: nat)
    requires k < |s| && s[k] == ' ' && ' ' !in s[..k]
    ensures FindSpace(s) == k
  {
    if k > 0 {
      assert s[..k][0] == s[0] && s[..k][1..] == s[1..][..k - 1];
      FirstBlank(s[1..], k - 1);
    }
  }

  lemma LevelPositive(line: string)
    requires StartsWith(line, ".")
    ensures ParseHdrLevelLine(line).0 == -1 || ParseHdrLevelLine(line).0 >= 1
  {
    hide FindSpace;
    assert line[0] == '.';
  }

  lemma {:induction false} PopToParent(s: Scan, level: int)
    requires StackRight(s) && 1 <= level && |s.hdrsStack| >= level - 1
    ensures PopTo(s, level) == s.(currentLevel := level - 1, hdrsStack := s.hdrsStack[..level - 1])
    decreases |s.hdrsStack|
  {
    if s.currentLevel >= level {
      var s1 := s.(currentLevel := s.currentLevel - 1, hdrsStack := s.hdrsStack[..|s.hdrsStack| - 1], skipLevel := -1);
      PopToParent(s1, level);
      PopIgnoresSkip(s1, level, s.skipLevel);
      assert s1.hdrsStack[..level - 1] == s.hdrsStack[..level - 1];
    } else {
      assert s.hdrsStack[..level - 1] == s.hdrsStack;
    }
  }

  lemma {:induction false} PopIgnoresSkip(s: Scan, level: int, skip: int)
    ensures PopTo(s.(skipLevel := skip), level) == PopTo(s, level).(skipLevel := skip)
    decreases |s.hdrsStack|
  {
    if s.currentLevel >= level && s.hdrsStack != [] {
      PopIgnoresSkip(s.(currentLevel := s.currentLevel - 1, hdrsStack := s.hdrsStack[..|s.hdrsStack| - 1]), level, skip);
    }
  }

  /** A header that is not inside a skipped one is handled below the stack of its parent. */
  lemma HdrHandled(env: Env, s: Scan, level: int, hdr: string)
    requires StackRight(s) && 1 <= level && |s.hdrsStack| >= level - 1
    ensures OneHdr(env, s, level, hdr) == Go(ProcessHdr(env,
      NoteDirect(env, s, level, hdr).(currentLevel := level - 1, hdrsStack := s.hdrsStack[..level - 1]), level, hdr))
  {
    var s1 := NoteDirect(env, s, level, hdr);
    if level > s.currentLevel {
      assert s.hdrsStack[..level - 1] == s.hdrsStack;
    } else {
      PopToParent(s1, level);
    }
  }

  lemma RunOne(env: Env, s: Scan, level: nat, path: string, rest: seq<string>)
    requires level >= 1 && path != "" && !IsSpace(path[|path| - 1])
    ensures Run(env, s, [Line(level, path)] + rest) ==
      match OneHdr(env, s, level, Clean(path)) case Bad => LevelAssertionFails case Go(s') => Run(env, s', rest)
  {
    LineParses(level, path, "\n");
    assert ([Line(level, path)] + rest)[1..] == rest;
  }

  /** Everything included by a generated or absolute header is passed over. */
  lemma {:induction false} SkippedOver(env: Env, s: Scan, forest: seq<Hdr>, level: nat, rest: seq<string>)
    requires Printable(forest) && level >= 2
    requires s.skipLevel != -1 && level > s.skipLevel && level > s.currentLevel
    ensures Run(env, s, Listing(forest, level) + rest) == Run(env, s, rest)
    decreases forest
  {
    hide Run, Line;
    if forest == [] {
      assert Listing(forest, level) + rest == rest;
    } else {
      var kids, others := Listing(forest[0].kids, level + 1), Listing(forest[1..], level);
      ListingSplit(forest, level, rest);
      RunOne(env, s, level, forest[0].path, kids + (others + rest));
      SkippedOver(env, s, forest[0].kids, level + 1, others + rest);
      SkippedOver(env, s, forest[1..], level, rest);
    }
  }

  /** What the state says after the listing of a forest has been read. */
  ghost predicate Scanned(env: Env, s: Scan, s': Scan, forest: seq<Hdr>, level: nat)
    requires level >= 1 && |s.hdrsStack| >= level - 1
  {
    && StackRight(s') && |s'.hdrsStack| >= level - 1
    && s'.hdrsStack[..level - 1] == s.hdrsStack[..level - 1]
    && s'.stacks == s.stacks + Walk(env, forest, s.hdrsStack[..level - 1])
    && s'.direct == s.direct + (if level == 1 then Direct(env, forest) else [])
  }

  lemma WalkRoot(env: Env, h: Hdr, stack: seq<string>)
    ensures var hdr := Clean(h.path);
      && Walk(env, [h], stack) == (
          if env.Absolute(hdr) then []
          else if env.Generated(hdr) then [stack + [env.Name(hdr)]]
          else Walk(env, h.kids, stack + [env.Name(hdr)]))
      && Direct(env, [h]) == (if env.Absolute(hdr) then [] else [env.Name(hdr)])
  {
    assert [h][1..] == [];
  }

  /** The state right after the line of a root. */
  lemma RootLine(env: Env, s: Scan, h: Hdr, level: nat, rest: seq<string>) returns (s1: Scan)
    requires h.path != "" && !IsSpace(h.path[|h.path| - 1])
    requires level >= 1 && StackRight(s) && |s.hdrsStack| >= level - 1
    ensures Run(env, s, [Line(level, h.path)] + rest) == Run(env, s1, rest)
    ensures StackRight(s1)
    ensures s1.direct == s.direct + (if level == 1 then Direct(env, [h]) else [])
    ensures var hdr, parent := Clean(h.path), s.hdrsStack[..level - 1];
      if env.Absolute(hdr) || env.Generated(hdr)
      then s1.hdrsStack == parent && s1.skipLevel == level && s1.stacks == s.stacks + Walk(env, [h], parent)
      else s1.hdrsStack == parent + [env.Name(hdr)] && s1.skipLevel == -1 && s1.stacks == s.stacks
  {
    hide Run, Walk, Direct, Line;
    RunOne(env, s, level, h.path, rest);
    HdrHandled(env, s, level, Clean(h.path));
    s1 := OneHdr(env, s, level, Clean(h.path)).s;
    WalkRoot(env, h, s.hdrsStack[..level - 1]);
  }

  /** Reading one root and all it includes. */
  lemma {:induction false} RootScanned(env: Env, s: Scan, h: Hdr, level: nat, rest: seq<string>) returns (s': Scan)
    requires h.path != "" && !IsSpace(h.path[|h.path| - 1]) && Printable(h.kids)
    requires level >= 1 && StackRight(s) && |s.hdrsStack| >= level - 1
    ensures Run(env, s, [Line(level, h.path)] + (Listing(h.kids, level + 1) + rest)) == Run(env, s', rest)
    ensures Scanned(env, s, s', [h], level)
    decreases h, 0
  {
    hide Run, Walk, Direct, Line, Listing, Printable;
    var hdr, parent := Clean(h.path), s.hdrsStack[..level - 1];
    var s1 := RootLine(env, s, h, level, Listing(h.kids, level + 1) + rest);
    if env.Absolute(hdr) || env.Generated(hdr) {
      SkippedOver(env, s1, h.kids, level + 1, rest);
      s' := s1;
      assert s'.hdrsStack[..level - 1] == parent;
    } else {
      s' := ForestScanned(env, s1, h.kids, level + 1, rest);
      assert s1.hdrsStack[..level] == s1.hdrsStack;
      assert s'.hdrsStack[..level - 1] == s'.hdrsStack[..level][..level - 1];
      assert (parent + [env.Name(hdr)])[..level - 1] == parent;
      WalkRoot(env, h, parent);
    }
  }

  lemma {:induction false} ForestScanned(env: Env, s: Scan, forest: seq<Hdr>, level: nat, rest: seq<string>)
    returns (s': Scan)
    requires Printable(forest) && level >= 1 && StackRight(s) && |s.hdrsStack| >= level - 1
    ensures Run(env, s, Listing(forest, level) + rest) == Run(env, s', rest)
    ensures Scanned(env, s, s', forest, level)
    decreases forest, 1
  {
    hide Run, Line;
    if forest == [] {
      assert Listing(forest, level) + rest == rest;
      s' := s;
    } else {
      s' := MoreScanned(env, s, forest, level, rest);
    }
  }

  lemma {:induction false} MoreScanned(env: Env, s: Scan, forest: seq<Hdr>, level: nat, rest: seq<string>)
    returns (s': Scan)
    requires forest != [] && Printable(forest) && level >= 1 && StackRight(s) && |s.hdrsStack| >= level - 1
    ensures Run(env, s, Listing(forest, level) + rest) == Run(env, s', rest)
    ensures Scanned(env, s, s', forest, level)
    decreases forest, 0
  {
    hide Run, Walk, Direct, Line, Listing;
    var h, others := forest[0], Listing(forest[1..], level);
    ListingSplit(forest, level, rest);
    var s1 := RootScanned(env, s, h, level, others + rest);
    s' := ForestScanned(env, s1, forest[1..], level, rest);
    OneRootMore(env, forest, s.hdrsStack[..level - 1]);
  }

  lemma ListingSplit(forest: seq<Hdr>, level: nat, rest: seq<string>)
    requires forest != []
    ensures Listing(forest, level) + rest
         == [Line(level, forest[0].path)] + (Listing(forest[0].kids, level + 1) + (Listing(forest[1..], level) + rest))
  {
  }

  lemma OneRootMore(env: Env, forest: seq<Hdr>, stack: seq<string>)
    requires forest != []
    ensures Walk(env, forest, stack) == Walk(env, [forest[0]], stack) + Walk(env, forest[1..], stack)
    ensures Direct(env, forest) == Direct(env, [forest[0]]) + Direct(env, forest[1..])
  {
    WalkRoot(env, forest[0], stack);
  }

  /**
   For the listing of any include forest, followed by nothing or by other compiler
   output, the parser finds the direct headers and stacks of the tree walk, and
   its level assertion never fails.
   */
  lemma ListingGivesTreeWalk(env: Env, forest: seq<Hdr>, tail: seq<string>)
    requires Printable(forest)
    requires tail == [] || Stops(RStrip(tail[0]))
    ensures Run(env, Start, Listing(forest, 1) + tail) == Parsed(Direct(env, forest), Walk(env, forest, []))
  {
    var s' := ForestScanned(env, Start, forest, 1, tail);
    assert Start.hdrsStack[..0] == [];
  }

  // ---- Other lines ----

  /** Reading ends at a line that does not start with a dot or has no blank. */
  lemma StopsIff(line: string)
    ensures Stops(line) <==> line == "" || line[0] != '.' || ' ' !in line
  {
    hide FindSpace;
  }

  /** A listing whose levels jump makes the level assertion fail. */
  lemma JumpFails(env: Env, level: nat, path: string, rest: seq<string>)
    requires level >= 2 && path != "" && !IsSpace(path[|path| - 1])
    ensures Run(env, Start, [Line(level, path)] + rest) == LevelAssertionFails
  {
    hide Run, Line;
    RunOne(env, Start, level, path, rest);
  }

  // ---- What the stacks are ----

  /**
   A trail of inclusions from a root down to its first generated header: no header on it is
   an absolute path, and only the last starts with the build directory.
   */
  ghost predicate Trail(env: Env, forest: seq<Hdr>, trail: seq<Hdr>)
    decreases |trail|
  {
    && trail != [] && trail[0] in forest
    && !("/" <= Clean(trail[0].path))
    && (env.buildDir <= Clean(trail[0].path) <==> |trail| == 1)
    && (|trail| > 1 ==> Trail(env, trail[0].kids, trail[1..]))
  }

  function Names(env: Env, trail: seq<Hdr>): seq<string> {
    if trail == [] then [] else [env.Name(Clean(trail[0].path))] + Names(env, trail[1..])
  }

  lemma {:induction false} TrailOfStack(env: Env, forest: seq<Hdr>, stack: seq<string>, st: seq<string>)
    returns (trail: seq<Hdr>)
    requires st in Walk(env, forest, stack)
    ensures Trail(env, forest, trail) && st == stack + Names(env, trail)
    decreases forest
  {
    hide Walk, Direct;
    WalkNothing(env, stack);
    var h, hdr := forest[0], Clean(forest[0].path);
    OneRootMore(env, forest, stack);
    if st in Walk(env, forest[1..], stack) {
      trail := TrailOfStack(env, forest[1..], stack, st);
    } else {
      WalkRoot(env, h, stack);
      if env.Generated(hdr) {
        trail := [h];
        assert trail[1..] == [] && st == stack + [env.Name(hdr)];
      } else {
        var rest := TrailOfStack(env, h.kids, stack + [env.Name(hdr)], st);
        trail := [h] + rest;
        assert trail[1..] == rest;
        assert stack + [env.Name(hdr)] + Names(env, rest) == stack + ([env.Name(hdr)] + Names(env, rest));
      }
    }
  }

  lemma {:induction false} RootWalked(env: Env, forest: seq<Hdr>, h: Hdr, stack: seq<string>, st: seq<string>)
    requires h in forest && st in Walk(env, [h], stack)
    ensures st in Walk(env, forest, stack)
    decreases |forest|
  {
    hide Walk;
    OneRootMore(env, forest, stack);
    if h != forest[0] {
      RootWalked(env, forest[1..], h, stack, st);
    }
  }

  lemma {:induction false} StackOfTrail(env: Env, forest: seq<Hdr>, stack: seq<string>, trail: seq<Hdr>)
    requires Trail(env, forest, trail)
    ensures stack + Names(env, trail) in Walk(env, forest, stack)
    decreases |trail|
  {
    hide Walk;
    var h, name := trail[0], env.Name(Clean(trail[0].path));
    WalkRoot(env, h, stack);
    if |trail| == 1 {
      assert trail[1..] == [] && stack + Names(env, trail) == stack + [name];
    } else {
      StackOfTrail(env, h.kids, stack + [name], trail[1..]);
      assert stack + [name] + Names(env, trail[1..]) == stack + Names(env, trail);
    }
    RootWalked(env, forest, h, stack, stack + Names(env, trail));
  }

  /** The stacks found are exactly the trails of inclusions that end in a generated header. */
  lemma StacksAreTrails(env: Env, forest: seq<Hdr>, st: seq<string>)
    ensures st in Walk(env, forest, []) <==> exists trail :: Trail(env, forest, trail) && st == Names(env, trail)
  {
    hide Walk, Trail;
    if st in Walk(env, forest, []) {
      var trail := TrailOfStack(env, forest, [], st);
      assert [] + Names(env, trail) == Names(env, trail);
    }
    if trail :| Trail(env, forest, trail) && st == Names(env, trail) {
      StackOfTrail(env, forest, [], trail);
      assert [] + Names(env, trail) == Names(env, trail);
    }
  }

  // ---- The documented example ----

  /** A source header, printed with a leading "./". */
  predicate Source(env: Env, name: string) {
    && name != "" && !IsSpace(name[|name| - 1]) && !("/" <= name) && !(env.buildDir <= name)
    && env.norm(name) == name
  }

  predicate Built(env: Env, name: string) {
    && name != "" && !IsSpace(name[|name| - 1])
    && !("/" <= env.buildDir + "/" + name) && !("./" <= env.buildDir + "/" + name)
    && env.norm(env.buildDir + "/" + name) == env.buildDir + "/" + name
  }

  function SourceHdr(name: string, kids: seq<Hdr>): Hdr {
    Hdr("./" + name, kids)
  }

  function BuiltHdr(env: Env, name: string, kids: seq<Hdr>): Hdr {
    Hdr(env.buildDir + "/" + name, kids)
  }

  lemma SourceName(env: Env, name: string)
    requires Source(env, name)
    ensures Clean("./" + name) == name && env.Name(name) == name && !env.Absolute(name) && !env.Generated(name)
  {
    assert ("./" + name)[2..] == name && "./" <= "./" + name;
    assert env.buildDir + "/" <= name ==> env.buildDir <= name;
  }

  lemma BuiltName(env: Env, name: string)
    requires Built(env, name)
    ensures var hdr := env.buildDir + "/" + name;
      Clean(hdr) == hdr && env.Name(hdr) == name && !env.Absolute(hdr) && env.Generated(hdr)
  {
    var hdr := env.buildDir + "/" + name;
    assert hdr[|env.buildDir + "/"|..] == name && env.buildDir <= hdr;
  }

  /** The forest of the example: foo includes a generated header, then a generated one, then client with one. */
  function Example(env: Env, foo: string, fooPb: string, service: string, bar: string, client: string, options: string):
    seq<Hdr>
  {
    [SourceHdr(foo, [BuiltHdr(env, fooPb, [BuiltHdr(env, service, [])])]),
     BuiltHdr(env, bar, []),
     SourceHdr(client, [BuiltHdr(env, options, [])])]
  }

  lemma WalkSource(env: Env, name: string, kids: seq<Hdr>, rest: seq<Hdr>, stack: seq<string>)
    requires Source(env, name)
    ensures var forest := [SourceHdr(name, kids)] + rest;
      && Walk(env, forest, stack) == Walk(env, kids, stack + [name]) + Walk(env, rest, stack)
      && Direct(env, forest) == [name] + Direct(env, rest)
  {
    hide Walk, Direct;
    SourceName(env, name);
    var h := SourceHdr(name, kids);
    assert ([h] + rest)[1..] == rest;
    OneRootMore(env, [h] + rest, stack);
    WalkRoot(env, h, stack);
  }

  lemma WalkBuilt(env: Env, name: string, kids: seq<Hdr>, rest: seq<Hdr>, stack: seq<string>)
    requires Built(env, name)
    ensures var forest := [BuiltHdr(env, name, kids)] + rest;
      && Walk(env, forest, stack) == [stack + [name]] + Walk(env, rest, stack)
      && Direct(env, forest) == [name] + Direct(env, rest)
  {
    hide Walk, Direct;
    BuiltName(env, name);
    var h := BuiltHdr(env, name, kids);
    assert ([h] + rest)[1..] == rest;
    OneRootMore(env, [h] + rest, stack);
    WalkRoot(env, h, stack);
  }

  lemma WalkNothing(env: Env, stack: seq<string>)
    ensures Walk(env, [], stack) == [] && Direct(env, []) == []
  {
  }

  /** The documented listing gives the documented result, the build directory removed from the names. */
  lemma ExampleStacks(env: Env, foo: string, fooPb: string, service: string, bar: string, client: string, options: string)
    requires Source(env, foo) && Source(env, client)
    requires Built(env, fooPb) && Built(env, service) && Built(env, bar) && Built(env, options)
    ensures var forest := Example(env, foo, fooPb, service, bar, client, options);
      && Direct(env, forest) == [foo, bar, client]
      && Walk(env, forest, []) == [[foo, fooPb], [bar], [client, options]]
  {
    hide Walk, Direct, Source, Built;
    var inner := [BuiltHdr(env, service, [])];
    var third := [SourceHdr(client, [BuiltHdr(env, options, [])])];
    var second := [BuiltHdr(env, bar, [])] + third;
    var first := [BuiltHdr(env, fooPb, inner)];
    assert Example(env, foo, fooPb, service, bar, client, options) == [SourceHdr(foo, first)] + second;
    assert first + [] == first && third + [] == third;
    WalkNothing(env, []);
    WalkNothing(env, [foo]);
    WalkNothing(env, [client]);
    WalkSource(env, foo, first, second, []);
    WalkBuilt(env, fooPb, inner, [], [foo]);
    WalkBuilt(env, bar, [], third, []);
    WalkSource(env, client, [BuiltHdr(env, options, [])], [], []);
    WalkBuilt(env, options, [], [], [client]);
    assert [BuiltHdr(env, options, [])] + [] == [BuiltHdr(env, options, [])];
    assert [] + [foo] == [foo] && [] + [bar] == [bar] && [] + [client] == [client];
    assert [foo] + [fooPb] == [foo, fooPb] && [client] + [options] == [client, options];
  }

  lemma BuiltPrintable(env: Env, name: string, kids: seq<Hdr>, rest: seq<Hdr>)
    requires Built(env, name) && Printable(kids) && Printable(rest)
    ensures Printable([BuiltHdr(env, name, kids)] + rest)
  {
    var hdr := env.buildDir + "/" + name;
    assert hdr[|hdr| - 1] == name[|name| - 1];
    assert ([BuiltHdr(env, name, kids)] + rest)[1..] == rest;
  }

  lemma SourcePrintable(env: Env, name: string, kids: seq<Hdr>, rest: seq<Hdr>)
    requires Source(env, name) && Printable(kids) && Printable(rest)
    ensures Printable([SourceHdr(name, kids)] + rest)
  {
    var hdr := "./" + name;
    assert hdr[|hdr| - 1] == name[|name| - 1];
    assert ([SourceHdr(name, kids)] + rest)[1..] == rest;
  }

  lemma ExamplePrintable(
    env: Env, foo: string, fooPb: string, service: string, bar: string, client: string, options: string)
    requires Source(env, foo) && Source(env, client)
    requires Built(env, fooPb) && Built(env, service) && Built(env, bar) && Built(env, options)
    ensures Printable(Example(env, foo, fooPb, service, bar, client, options))
  {
    hide Source, Built;
    var inner := [BuiltHdr(env, service, [])];
    var below := [BuiltHdr(env, options, [])];
    var third := [SourceHdr(client, below)];
    var second := [BuiltHdr(env, bar, [])] + third;
    var first := [BuiltHdr(env, fooPb, inner)];
    assert inner + [] == inner && below + [] == below && third + [] == third && first + [] == first;
    assert Example(env, foo, fooPb, service, bar, client, options) == [SourceHdr(foo, first)] + second;
    BuiltPrintable(env, service, [], []);
    BuiltPrintable(env, options, [], []);
    BuiltPrintable(env, fooPb, inner, []);
    SourcePrintable(env, client, below, []);
    BuiltPrintable(env, bar, [], third);
    SourcePrintable(env, foo, first, second);
  }

  /** The parser on the documented listing. */
  lemma DocumentedListing(
    env: Env, foo: string, fooPb: string, service: string, bar: string, client: string, options: string)
    requires Source(env, foo) && Source(env, client)
    requires Built(env, fooPb) && Built(env, service) && Built(env, bar) && Built(env, options)
    ensures var dir := env.buildDir + "/";
      Run(env, Start,
          [Line(1, "./" + foo), Line(2, dir + fooPb), Line(3, dir + service), Line(1, dir + bar),
           Line(1, "./" + client), Line(2, dir + options)])
      == Parsed([foo, bar, client], [[foo, fooPb], [bar], [client, options]])
  {
    hide Source, Built, Run, Line, Walk, Direct;
    var forest := Example(env, foo, fooPb, service, bar, client, options);
    ExamplePrintable(env, foo, fooPb, service, bar, client, options);
    ExampleStacks(env, foo, fooPb, service, bar, client, options);
    ListingGivesTreeWalk(env, forest, []);
    ExampleListing(env, foo, fooPb, service, bar, client, options);
    assert Listing(forest, 1) + [] == Listing(forest, 1);
  }

  lemma ListingOne(h: Hdr, rest: seq<Hdr>, level: nat)
    ensures Listing([h] + rest, level) == [Line(level, h.path)] + Listing(h.kids, level + 1) + Listing(rest, level)
  {
    assert ([h] + rest)[1..] == rest;
  }

  lemma ExampleListing(
    env: Env, foo: string, fooPb: string, service: string, bar: string, client: string, options: string)
    ensures var dir := env.buildDir + "/";
      Listing(Example(env, foo, fooPb, service, bar, client, options), 1) ==
        [Line(1, "./" + foo), Line(2, dir + fooPb), Line(3, dir + service), Line(1, dir + bar),
         Line(1, "./" + client), Line(2, dir + options)]
  {
    hide Line, Listing;
    var inner := BuiltHdr(env, service, []);
    var below := BuiltHdr(env, options, []);
    var third := SourceHdr(client, [below]);
    var second := BuiltHdr(env, bar, []);
    var first := BuiltHdr(env, fooPb, [inner]);
    assert [inner] + [] == [inner] && [below] + [] == [below] && [third] + [] == [third] && [first] + [] == [first];
    assert Example(env, foo, fooPb, service, bar, client, options) == [SourceHdr(foo, [first])] + ([second] + [third]);
    ListingNothing(1);
    ListingNothing(2);
    ListingNothing(3);
    ListingNothing(4);
    ListingOne(SourceHdr(foo, [first]), [second] + [third], 1);
    ListingOne(first, [], 2);
    ListingOne(inner, [], 3);
    ListingOne(second, [third], 1);
    ListingOne(third, [], 1);
    ListingOne(below, [], 2);
  }

  lemma ListingNothing(level: nat)
    ensures Listing([], level) == []
  {
  }
}
