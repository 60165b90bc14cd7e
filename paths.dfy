/**
 * Absolute POSIX paths as sequences of segments, with the two path
 * operations the guide-directory search uses: `dirname` and `resolve`
 * against a base directory. A path is rendered to the string form that
 * Node's `path.resolve` and `path.dirname` return ("/" for the root,
 * "/a/b" otherwise); candidate directories are compared as such strings.
 */
module Paths {

  /** One path component: never empty and never containing a separator. */
  type Segment = s: string | s != "" && '/' !in s witness "a"

  /** An absolute, normalised path; the root is the empty sequence. */
  type Path = seq<Segment>

  /** The parent directory; the root is its own parent. */
  function Dirname(p: Path): (r: Path)
  {
    if p == [] then [] else p[..|p| - 1]
  }

  /** "/s1/s2/.../sn" without a special case for the root. */
  function Join(p: Path): string
  {
    if p == [] then "" else Join(p[..|p| - 1]) + "/" + p[|p| - 1]
  }

  /** The string form of a path, as `path.resolve` prints it. */
  function Render(p: Path): string
  {
    if p == [] then "/" else Join(p)
  }

  /** `path.resolve(base, rel)` for a relative path `rel` without `.` or `..`. */
  function Resolve(base: Path, rel: Path): string
  {
    Render(base + rel)
  }

  /** Applying `dirname` i times. */
  function Ancestor(p: Path, i: nat): Path
    decreases i
  {
    if i == 0 then p else Ancestor(Dirname(p), i - 1)
  }

  /** The ancestor i + 1 levels up is the parent's ancestor i levels up. */
  lemma AncestorOfParent(p: Path, parent: Path, i: nat, j: nat)
    requires parent == Dirname(p) && j + 1 == i
    ensures Ancestor(p, i) == Ancestor(parent, j)
  {
  }

  /** The i-th ancestor is the prefix that drops the last i segments, or the root. */
  lemma {:induction false} AncestorIsPrefix(p: Path, i: nat)
    ensures i <= |p| ==> Ancestor(p, i) == p[..|p| - i]
    ensures i >= |p| ==> Ancestor(p, i) == []
  {
    if i > 0 {
      AncestorIsPrefix(Dirname(p), i - 1);
      if p != [] && i <= |p| {
        assert Dirname(p)[..|Dirname(p)| - (i - 1)] == p[..|p| - i];
      }
    }
  }

  /** `dirname` reaches a fixed point exactly at the root. */
  lemma DirnameFixedPoint(p: Path)
    ensures Dirname(p) == p <==> p == []
  {
    if p != [] {
      assert |Dirname(p)| != |p|;
    }
  }

  /** Rendering is injective: equal strings name equal paths. */
  lemma {:induction false} JoinInjective(p: Path, q: Path)
    requires Join(p) == Join(q)
    ensures p == q
    decreases |p|
  {
    if p != [] && q != [] {
      var p', x := p[..|p| - 1], p[|p| - 1];
      var q', y := q[..|q| - 1], q[|q| - 1];
      LastSegmentsAgree(Join(p'), x, Join(q'), y);
      assert Join(p') == Join(p)[..|Join(p)| - |x| - 1];
      assert Join(q') == Join(q)[..|Join(q)| - |y| - 1];
      JoinInjective(p', q');
      assert p == p' + [x] && q == q' + [y];
    }
  }

  /** Two strings ".../x" and ".../y" with the same text have the same last segment. */
  lemma LastSegmentsAgree(jp: string, x: Segment, jq: string, y: Segment)
    requires jp + "/" + x == jq + "/" + y
    ensures x == y
  {
    var s := jp + "/" + x;
    assert s[|s| - |x| - 1] == '/' && s[|s| - |y| - 1] == '/';
    assert |x| == |y|;
    assert x == s[|s| - |x|..];
    assert y == s[|s| - |y|..];
  }

  lemma RenderInjective(p: Path, q: Path)
    ensures Render(p) == Render(q) <==> p == q
  {
    if Render(p) == Render(q) {
      if p == [] && q != [] {
        JoinNotRoot(q);
      } else if q == [] && p != [] {
        JoinNotRoot(p);
      } else if p != [] && q != [] {
        JoinInjective(p, q);
      }
    }
  }

  /** No non-empty path renders as the root's "/". */
  lemma JoinNotRoot(p: Path)
    requires p != []
    ensures Join(p) != "/"
  {
    assert |Join(p)| >= 1 + |p[|p| - 1]|;
  }

  /** The comparison `dirname(cur) === cur` on strings holds exactly at the root. */
  lemma RenderDirnameFixedPoint(p: Path)
    ensures Render(Dirname(p)) == Render(p) <==> p == []
  {
    RenderInjective(Dirname(p), p);
    DirnameFixedPoint(p);
  }
}
