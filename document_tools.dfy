/**
 * The guide-directory search of the document tools: the ordered list of
 * directories in which guide files may be looked up. The inputs that the
 * program reads from its environment are parameters here:
 *   - `override`: the override captured from GUIDES_DIR when the module loads;
 *   - `env`: the value of GUIDES_DIR at the time of the call;
 *   - `cwd`: the working directory;
 *   - `fileDir`: the directory of the module's own source file.
 */
module DocumentTools {
  import opened Wrappers
  import opened Paths
  import opened InsertionOrder

  /** The walk up from the module's directory visits at most this many levels. */
  const MaxLevels: nat := 8

  /** Override, environment value, three working-directory spots, three per level. */
  const MaxCandidates: nat := 2 + 3 + 3 * MaxLevels

  const Guides: Path := ["guides"]
  const GuidesInstructions: Path := ["guides", "instructions"]
  const ContextGuides: Path := ["context", "guides"]

  /** JavaScript truthiness of an optional string: set and not empty. */
  predicate Truthy(v: Option<string>)
  {
    v.Some? && |v.value| > 0
  }

  /** What an optional value pushes: itself when truthy, nothing otherwise. */
  function Given(v: Option<string>): seq<string>
  {
    if Truthy(v) then [v.value] else []
  }

  /** The three places looked at under one directory, in the order they are pushed. */
  function Spots(dir: Path): seq<string>
  {
    [Resolve(dir, Guides), Resolve(dir, GuidesInstructions), Resolve(dir, ContextGuides)]
  }

  /**
   * The candidates pushed by the walk up from `cur` with `n` iterations left:
   * each iteration pushes the spots of the current directory and stops once
   * the parent is the directory itself.
   */
  function WalkUp(cur: Path, n: nat): seq<string>
    decreases n
  {
    if n == 0 then []
    else Spots(cur) + (if Dirname(cur) == cur then [] else WalkUp(Dirname(cur), n - 1))
  }

  /** Every candidate, duplicates included, in push order. */
  function Candidates(override: Option<string>, env: Option<string>, cwd: Path, fileDir: Path): seq<string>
  {
    Given(override) + Given(env) + Spots(cwd) + WalkUp(fileDir, MaxLevels)
  }

  /** The list that the search returns. */
  function CandidateDirs(override: Option<string>, env: Option<string>, cwd: Path, fileDir: Path): seq<string>
  {
    Dedupe(Candidates(override, env, cwd, fileDir))
  }

  /** How many iterations the walk up from `fileDir` performs. */
  function Iterations(fileDir: Path): nat
  {
    if |fileDir| + 1 < MaxLevels then |fileDir| + 1 else MaxLevels
  }

  /**
   * The search as the program performs it: pushes onto a growing list, a
   * counted loop that walks up and leaves when `dirname` no longer changes
   * the string, then removal of duplicates.
   */
  method BuildCandidateDirs(override: Option<string>, env: Option<string>, cwd: Path, fileDir: Path)
    returns (dirs: seq<string>)
    ensures dirs == CandidateDirs(override, env, cwd, fileDir)
    ensures NoDuplicates(dirs)
    ensures forall p :: p in dirs <==> p in Candidates(override, env, cwd, fileDir)
    ensures |dirs| <= MaxCandidates
    ensures Truthy(override) ==> dirs[0] == override.value
  {
    ghost var total := Candidates(override, env, cwd, fileDir);
    var candidates: seq<string> := [];
    if Truthy(override) {
      candidates := candidates + [override.value];
    }
    assert candidates == Given(override);
    if Truthy(env) {
      candidates := candidates + [env.value];
    }
    assert candidates == Given(override) + Given(env);
    candidates := candidates + [Resolve(cwd, Guides), Resolve(cwd, GuidesInstructions), Resolve(cwd, ContextGuides)];
    var cur := fileDir;
    ghost var left: nat := MaxLevels;
    assert candidates + WalkUp(cur, left) == total;
    var i := 0;
    while i < MaxLevels
      invariant 0 <= i <= MaxLevels && left == MaxLevels - i
      invariant candidates + WalkUp(cur, left) == total
    {
      ghost var before := candidates;
      candidates := candidates + [Resolve(cur, Guides), Resolve(cur, GuidesInstructions), Resolve(cur, ContextGuides)];
      var parent := Dirname(cur);
      RenderDirnameFixedPoint(cur);
      if Render(parent) == Render(cur) {
        WalkUpAtRoot(cur, left);
        PushLast(before, Spots(cur), candidates, WalkUp(cur, left), total);
        break;
      }
      ghost var nextLeft: nat := left - 1;
      WalkUpBelowRoot(cur, left, parent, nextLeft);
      PushStep(before, Spots(cur), candidates, WalkUp(cur, left), WalkUp(parent, nextLeft), total);
      cur := parent;
      left := nextLeft;
      i := i + 1;
    }
    if left == 0 {
      PushNothing(candidates, WalkUp(cur, left), total);
    }

    dirs := Dedupe(candidates);
    forall p ensures p in dirs <==> p in candidates {
      DedupeMembers(candidates, p);
    }
    CandidateDirsDistinct(override, env, cwd, fileDir);
    CandidateDirsBounded(override, env, cwd, fileDir);
    if Truthy(override) {
      OverrideComesFirst(override, env, cwd, fileDir);
    }
  }

  /** One iteration of the loop: the pushed spots move from what is left to what is done. */
  lemma PushStep<T>(before: seq<T>, spots: seq<T>, after: seq<T>, rest: seq<T>, next: seq<T>, total: seq<T>)
    requires after == before + spots && before + rest == total && rest == spots + next
    ensures after + next == total
  {
  }

  /** The iteration that leaves the loop pushes all that was left. */
  lemma PushLast<T>(before: seq<T>, spots: seq<T>, after: seq<T>, rest: seq<T>, total: seq<T>)
    requires after == before + spots && before + rest == total && rest == spots
    ensures after == total
  {
  }

  /** Once nothing is left, everything has been pushed. */
  lemma PushNothing<T>(done: seq<T>, rest: seq<T>, total: seq<T>)
    requires done + rest == total && rest == []
    ensures done == total
  {
    assert done + rest == done;
  }

  /** The last iteration: at the root the walk up pushes its spots and stops. */
  lemma WalkUpAtRoot(cur: Path, n: nat)
    requires n > 0 && cur == []
    ensures WalkUp(cur, n) == Spots(cur)
  {
  }

  /** Below the root an iteration pushes the spots and continues with the parent. */
  lemma WalkUpBelowRoot(cur: Path, n: nat, parent: Path, next: nat)
    requires cur != [] && parent == Dirname(cur) && next + 1 == n
    ensures WalkUp(cur, n) == Spots(cur) + WalkUp(parent, next)
  {
    DirnameFixedPoint(cur);
  }

  /** The walk up performs `Iterations` iterations of three pushes each. */
  lemma {:induction false} WalkUpLength(cur: Path, n: nat)
    ensures |WalkUp(cur, n)| == 3 * (if |cur| + 1 < n then |cur| + 1 else n)
    decreases n
  {
    if n > 0 {
      if cur == [] {
        WalkUpAtRoot(cur, n);
      } else {
        var parent, next := Dirname(cur), n - 1;
        WalkUpBelowRoot(cur, n, parent, next);
        WalkUpLength(parent, next);
        assert |parent| + 1 == |cur|;
      }
    }
  }

  /** Three elements found at block j of `rest` are at block j + 1 of `here + rest`. */
  lemma BlockAfter<T>(whole: seq<T>, here: seq<T>, rest: seq<T>, block: seq<T>, i: nat, j: nat)
    requires whole == here + rest && |here| == 3 && j + 1 == i
    requires 3 * j + 3 <= |rest| && rest[3 * j..3 * j + 3] == block
    ensures 3 * i + 3 <= |whole| && whole[3 * i..3 * i + 3] == block
  {
    assert whole[3 * i..3 * i + 3] == rest[3 * j..3 * j + 3];
  }

  /** The first three elements of `here + rest`, when `here` has three. */
  lemma BlockFirst<T>(whole: seq<T>, here: seq<T>, rest: seq<T>)
    requires whole == here + rest && |here| == 3
    ensures 3 <= |whole| && whole[0..3] == here
  {
    assert whole[0..3] == here;
  }

  /** Iteration i (from 0) pushes the spots of the directory reached by i applications of `dirname`. */
  lemma {:induction false} WalkUpIteration(cur: Path, n: nat, i: nat)
    requires i < n && i <= |cur|
    ensures 3 * i + 3 <= |WalkUp(cur, n)| && WalkUp(cur, n)[3 * i..3 * i + 3] == Spots(Ancestor(cur, i))
    decreases i
  {
    if i == 0 {
      WalkUpFirstIteration(cur, n);
    } else {
      var parent, next, j := Dirname(cur), n - 1, i - 1;
      WalkUpIteration(parent, next, j);
      WalkUpLaterIteration(cur, n, parent, next, i, j);
    }
  }

  /** The first iteration pushes the spots of the starting directory. */
  lemma WalkUpFirstIteration(cur: Path, n: nat)
    requires n > 0
    ensures 3 <= |WalkUp(cur, n)| && WalkUp(cur, n)[0..3] == Spots(cur)
  {
    if cur == [] {
      WalkUpAtRoot(cur, n);
    } else {
      var parent, next := Dirname(cur), n - 1;
      WalkUpBelowRoot(cur, n, parent, next);
      BlockFirst(WalkUp(cur, n), Spots(cur), WalkUp(parent, next));
    }
  }

  /** Iteration i + 1 from a directory is iteration i from its parent. */
  lemma WalkUpLaterIteration(cur: Path, n: nat, parent: Path, next: nat, i: nat, j: nat)
    requires cur != [] && parent == Dirname(cur) && next + 1 == n && j + 1 == i
    requires 3 * j + 3 <= |WalkUp(parent, next)| && WalkUp(parent, next)[3 * j..3 * j + 3] == Spots(Ancestor(parent, j))
    ensures 3 * i + 3 <= |WalkUp(cur, n)| && WalkUp(cur, n)[3 * i..3 * i + 3] == Spots(Ancestor(cur, i))
  {
    WalkUpBelowRoot(cur, n, parent, next);
    AncestorOfParent(cur, parent, i, j);
    BlockAfter(WalkUp(cur, n), Spots(cur), WalkUp(parent, next), Spots(Ancestor(cur, i)), i, j);
  }

  /**
   * Iteration i of the search's walk up pushes the spots of the directory
   * that drops the last i segments of the module's directory.
   */
  lemma WalkUpVisitsPrefixes(fileDir: Path, i: nat)
    requires i < Iterations(fileDir)
    ensures 3 * i + 3 <= |WalkUp(fileDir, MaxLevels)|
    ensures WalkUp(fileDir, MaxLevels)[3 * i..3 * i + 3] == Spots(fileDir[..|fileDir| - i])
  {
    WalkUpIteration(fileDir, MaxLevels, i);
    AncestorIsPrefix(fileDir, i);
  }

  /** Every value the walk up pushes is a spot of one of the directories it visits. */
  lemma {:induction false} WalkUpVisited(cur: Path, n: nat, x: string) returns (i: nat)
    requires x in WalkUp(cur, n)
    ensures i < n && i <= |cur| && x in Spots(Ancestor(cur, i))
    decreases n
  {
    if cur == [] {
      WalkUpAtRoot(cur, n);
      i := 0;
    } else {
      var parent, next := Dirname(cur), n - 1;
      WalkUpBelowRoot(cur, n, parent, next);
      if x in Spots(cur) {
        i := 0;
      } else {
        InSuffix(Spots(cur), WalkUp(parent, next), x);
        var j := WalkUpVisited(parent, next, x);
        i := j + 1;
        AncestorOfParent(cur, parent, i, j);
      }
    }
  }

  /** A value of `a + b` that is not in `a` is in `b`. */
  lemma InSuffix<T>(a: seq<T>, b: seq<T>, x: T)
    requires x in a + b && x !in a
    ensures x in b
  {
  }

  /** Every spot of every visited directory is pushed by the walk up. */
  lemma WalkUpVisits(cur: Path, n: nat, i: nat, x: string)
    requires i < n && i <= |cur| && x in Spots(Ancestor(cur, i))
    ensures x in WalkUp(cur, n)
  {
    WalkUpIteration(cur, n, i);
    var w := WalkUp(cur, n);
    assert x in w[3 * i..3 * i + 3];
  }

  /** There are at most 2 + 3 + 3 * 8 candidates, hence at most that many results. */
  lemma CandidateDirsBounded(override: Option<string>, env: Option<string>, cwd: Path, fileDir: Path)
    ensures |Candidates(override, env, cwd, fileDir)|
      == |Given(override)| + |Given(env)| + 3 + 3 * Iterations(fileDir)
    ensures |CandidateDirs(override, env, cwd, fileDir)| <= MaxCandidates
  {
    WalkUpLength(fileDir, MaxLevels);
    DedupeLength(Candidates(override, env, cwd, fileDir));
  }

  /**
   * Every result was pushed, and every pushed value is in the result: the
   * truthy override, the truthy environment value, the three working-directory
   * spots, and the three spots of each ancestor the walk up visits.
   */
  lemma CandidateDirsMembers(override: Option<string>, env: Option<string>, cwd: Path, fileDir: Path, x: string)
    ensures x in CandidateDirs(override, env, cwd, fileDir) <==>
      || (Truthy(override) && x == override.value)
      || (Truthy(env) && x == env.value)
      || x in Spots(cwd)
      || exists i :: 0 <= i < Iterations(fileDir) && x in Spots(Ancestor(fileDir, i))
  {
    var w := WalkUp(fileDir, MaxLevels);
    DedupeMembers(Candidates(override, env, cwd, fileDir), x);
    InConcat(Given(override), Given(env), Spots(cwd), w, x);
    WalkUpMembers(fileDir, x);
  }

  /** Membership in a concatenation of four parts. */
  lemma InConcat<T>(a: seq<T>, b: seq<T>, c: seq<T>, d: seq<T>, x: T)
    ensures x in a + b + c + d <==> x in a || x in b || x in c || x in d
  {
  }

  /** The walk up pushes exactly the spots of the directories its iterations visit. */
  lemma WalkUpMembers(fileDir: Path, x: string)
    ensures x in WalkUp(fileDir, MaxLevels) <==>
      exists i :: 0 <= i < Iterations(fileDir) && x in Spots(Ancestor(fileDir, i))
  {
    if x in WalkUp(fileDir, MaxLevels) {
      var i := WalkUpVisited(fileDir, MaxLevels, x);
      assert i < Iterations(fileDir);
    }
    if exists i :: 0 <= i < Iterations(fileDir) && x in Spots(Ancestor(fileDir, i)) {
      var i :| 0 <= i < Iterations(fileDir) && x in Spots(Ancestor(fileDir, i));
      WalkUpVisits(fileDir, MaxLevels, i, x);
    }
  }

  /** The results have no duplicates. */
  lemma CandidateDirsDistinct(override: Option<string>, env: Option<string>, cwd: Path, fileDir: Path)
    ensures NoDuplicates(CandidateDirs(override, env, cwd, fileDir))
  {
    DedupeDistinct(Candidates(override, env, cwd, fileDir));
  }

  /** A truthy override comes first and nowhere else. */
  lemma OverrideComesFirst(override: Option<string>, env: Option<string>, cwd: Path, fileDir: Path)
    requires Truthy(override)
    ensures var r := CandidateDirs(override, env, cwd, fileDir);
      r != [] && r[0] == override.value && forall k :: 0 < k < |r| ==> r[k] != override.value
  {
    var s := Candidates(override, env, cwd, fileDir);
    DedupeHead(s);
    DedupeDistinct(s);
  }

  /**
   * When the environment value equals the override (as it does unless
   * GUIDES_DIR changed after loading), it adds nothing.
   */
  lemma RepeatedEnvIgnored(override: Option<string>, cwd: Path, fileDir: Path)
    ensures CandidateDirs(override, override, cwd, fileDir) == CandidateDirs(override, None, cwd, fileDir)
  {
    if Truthy(override) {
      var x, s, w := override.value, Spots(cwd), WalkUp(fileDir, MaxLevels);
      assert Given(override) == [x] && Given(None) == [];
      RepeatShape(x, s, w);
      DedupeSkipsRepeat([x], x, s + w);
    } else {
      assert Given(override) == Given(None);
    }
  }

  /** How the candidates with a repeated value regroup. */
  lemma RepeatShape<T>(x: T, s: seq<T>, w: seq<T>)
    ensures [x] + [x] + s + w == [x] + [x] + (s + w)
    ensures [x] + [] + s + w == [x] + (s + w)
  {
  }

  /** An unset or empty override pushes nothing. */
  lemma FalsyOverrideIgnored(override: Option<string>, env: Option<string>, cwd: Path, fileDir: Path)
    requires !Truthy(override)
    ensures Candidates(override, env, cwd, fileDir) == Candidates(None, env, cwd, fileDir)
  {
    assert Given(override) == Given(None);
  }

  /** An unset or empty environment value pushes nothing. */
  lemma FalsyEnvIgnored(override: Option<string>, env: Option<string>, cwd: Path, fileDir: Path)
    requires !Truthy(env)
    ensures Candidates(override, env, cwd, fileDir) == Candidates(override, None, cwd, fileDir)
  {
    assert Given(env) == Given(None);
  }

  /** With both values empty, only the working-directory spots and the walk up remain. */
  lemma EmptyValuesIgnored(cwd: Path, fileDir: Path)
    ensures Candidates(Some(""), Some(""), cwd, fileDir) == Spots(cwd) + WalkUp(fileDir, MaxLevels)
  {
    assert Given(Some("")) == [];
  }

  /** The three spots under one directory are different paths. */
  lemma SpotsDistinct(dir: Path)
    ensures NoDuplicates(Spots(dir))
  {
    RenderInjective(dir + Guides, dir + GuidesInstructions);
    RenderInjective(dir + Guides, dir + ContextGuides);
    RenderInjective(dir + GuidesInstructions, dir + ContextGuides);
    assert (dir + GuidesInstructions)[|dir|] != (dir + ContextGuides)[|dir|];
  }

  /**
   * A working-directory spot comes before every walk-up candidate that is not
   * also an earlier candidate.
   */
  lemma WorkingDirectoryBeforeWalkUp(override: Option<string>, env: Option<string>, cwd: Path, fileDir: Path, i: nat, j: nat)
    requires i < |CandidateDirs(override, env, cwd, fileDir)| && j < |CandidateDirs(override, env, cwd, fileDir)|
    requires CandidateDirs(override, env, cwd, fileDir)[i] in Spots(cwd)
    requires CandidateDirs(override, env, cwd, fileDir)[j] !in Given(override) + Given(env) + Spots(cwd)
    ensures i < j
  {
    var s := Candidates(override, env, cwd, fileDir);
    var r := CandidateDirs(override, env, cwd, fileDir);
    var pre := Given(override) + Given(env) + Spots(cwd);
    assert s == pre + WalkUp(fileDir, MaxLevels);
    DedupeMembers(s, r[i]);
    DedupeMembers(s, r[j]);
    assert r[i] in pre;
    FirstIndexAppend(pre, WalkUp(fileDir, MaxLevels), r[i]);
    FirstIndexPastPrefix(pre, WalkUp(fileDir, MaxLevels), r[j]);
    EarlierFirstOccurrenceComesFirst(s, i, j);
  }

  /**
   * When no earlier candidate names one of them, the working-directory spots
   * follow the override and environment value directly, in the order
   * guides, guides/instructions, context/guides.
   */
  lemma WorkingDirectorySpotsInOrder(override: Option<string>, env: Option<string>, cwd: Path, fileDir: Path)
    requires forall k :: 0 <= k < 3 ==> Spots(cwd)[k] !in Given(override) + Given(env)
    ensures var g := |Dedupe(Given(override) + Given(env))|;
      var r := CandidateDirs(override, env, cwd, fileDir);
      g + 3 <= |r| && r[g..g + 3] == [Resolve(cwd, Guides), Resolve(cwd, GuidesInstructions), Resolve(cwd, ContextGuides)]
  {
    var g, s, w := Given(override) + Given(env), Spots(cwd), WalkUp(fileDir, MaxLevels);
    SpotsDistinct(cwd);
    DedupeAppendFresh(g, s);
    DedupePrefix(g + s, w);
    SliceOfPrefix(Dedupe(g), s, Dedupe(g + s + w));
  }

  lemma SliceOfPrefix<T>(a: seq<T>, b: seq<T>, r: seq<T>)
    requires a + b <= r
    ensures |a| + |b| <= |r| && r[|a|..|a| + |b|] == b
  {
  }
}
