/**
 * Paths as Rust's `std::path::Path` compares them: through their components.
 * A path is absolute when it starts at the root; its other components are the
 * non-empty pieces between separators. Only Unix separators are modelled.
 */
module Paths {

  datatype Path = Path(absolute: bool, components: seq<string>)

  /** A normal component: what `Path::components` yields between separators. */
  predicate IsComponent(c: string) {
    c != [] && c != "." && '/' !in c
  }

  /** Length of the leading run of `s` up to the first separator. */
  function SegmentLength(s: string): (n: nat)
    ensures n <= |s|
    ensures forall i :: 0 <= i < n ==> s[i] != '/'
    ensures n < |s| ==> s[n] == '/'
  {
    if s == [] || s[0] == '/' then 0 else 1 + SegmentLength(s[1..])
  }

  /** The normal components of the path text `s`: repeated separators and `.` are skipped. */
  function Components(s: string): (r: seq<string>)
    ensures forall i :: 0 <= i < |r| ==> IsComponent(r[i])
    decreases |s|
  {
    if s == [] then []
    else if s[0] == '/' then Components(s[1..])
    else
      var n := SegmentLength(s);
      var rest := Components(s[n..]);
      assert '/' !in s[..n] by {
        forall i | 0 <= i < n ensures s[..n][i] != '/' { }
      }
      if s[..n] == "." then rest else [s[..n]] + rest
  }

  /** `Path::new(s)` / `PathBuf::from(s)`. */
  function FromString(s: string): (p: Path)
    ensures p.absolute <==> |s| > 0 && s[0] == '/'
    ensures forall i :: 0 <= i < |p.components| ==> IsComponent(p.components[i])
  {
    Path(|s| > 0 && s[0] == '/', Components(s))
  }

  /** `base.join(p)`: an absolute `p` replaces `base`, a relative one is appended to it. */
  function Join(base: Path, p: Path): (r: Path)
    ensures p.absolute ==> r == p
    ensures !p.absolute ==> StartsWith(r, base)
    ensures EndsWith(r, p)
  {
    if p.absolute then p else Path(base.absolute, base.components + p.components)
  }

  /** Joining a relative path keeps the base's root and adds exactly `p`'s components after the base's. */
  lemma JoinRelative(base: Path, p: Path)
    ensures !p.absolute ==> Join(base, p).absolute == base.absolute
    ensures !p.absolute ==> |Join(base, p).components| == |base.components| + |p.components|
  {
  }

  /** `PathBuf::push(s)`, equally `base.join(s)` for a string `s`. */
  function Push(base: Path, s: string): Path {
    Join(base, FromString(s))
  }

  /** `base` with one more component `name` below it. */
  function Child(base: Path, name: string): Path {
    Path(base.absolute, base.components + [name])
  }

  /** `Path::starts_with`: `prefix`'s components, root included, lead `p`'s. */
  predicate StartsWith(p: Path, prefix: Path) {
    (prefix.absolute || prefix.components != [] ==> p.absolute == prefix.absolute) &&
    |prefix.components| <= |p.components| &&
    p.components[..|prefix.components|] == prefix.components
  }

  /** `Path::ends_with`: `suffix`'s components, root included, close `p`'s. */
  predicate EndsWith(p: Path, suffix: Path) {
    if suffix.absolute then p == suffix
    else |suffix.components| <= |p.components| &&
         p.components[|p.components| - |suffix.components|..] == suffix.components
  }

  /** A string that is one normal component is pushed as exactly that component. */
  lemma {:induction false} SingleComponent(s: string)
    requires IsComponent(s)
    ensures FromString(s) == Path(false, [s])
  {
    var n := SegmentLength(s);
    assert s[0] != '/' by { assert s[0] in s; }
    assert s[..n] == s;
    assert s[n..] == [];
    assert Components(s) == [s] + Components([]);
  }

  /** Pushing a string that is one normal component adds exactly that child. */
  lemma PushComponent(base: Path, s: string)
    requires IsComponent(s)
    ensures Push(base, s) == Child(base, s)
  {
    SingleComponent(s);
  }

  /**
   * Every path starts with the empty relative path; otherwise `p.starts_with(prefix)`
   * holds exactly when `p` is `prefix` joined with the rest of `p`'s components.
   */
  lemma StartsWithIsJoin(p: Path, prefix: Path)
    ensures prefix == Path(false, []) ==> StartsWith(p, prefix)
    ensures prefix != Path(false, []) ==>
      (StartsWith(p, prefix) <==>
        |prefix.components| <= |p.components| && Join(prefix, Path(false, p.components[|prefix.components|..])) == p)
  {
    if prefix != Path(false, []) && |prefix.components| <= |p.components| {
      var rest := p.components[|prefix.components|..];
      if StartsWith(p, prefix) {
        assert prefix.components + rest == p.components;
      }
      if Join(prefix, Path(false, rest)) == p {
        assert p.components[..|prefix.components|] == prefix.components;
      }
    }
  }

  /**
   * A path ends with an absolute path only when it is that path; for a relative `suffix`,
   * `p.ends_with(suffix)` holds exactly when `p` is the rest of its components joined with `suffix`.
   */
  lemma EndsWithIsJoin(p: Path, suffix: Path)
    ensures suffix.absolute ==> (EndsWith(p, suffix) <==> p == suffix)
    ensures !suffix.absolute ==>
      (EndsWith(p, suffix) <==>
        |suffix.components| <= |p.components| &&
        Join(Path(p.absolute, p.components[..|p.components| - |suffix.components|]), suffix) == p)
  {
    if !suffix.absolute && |suffix.components| <= |p.components| {
      var rest := p.components[..|p.components| - |suffix.components|];
      if EndsWith(p, suffix) {
        assert rest + suffix.components == p.components;
      }
      if Join(Path(p.absolute, rest), suffix) == p {
        assert p.components[|p.components| - |suffix.components|..] == suffix.components;
      }
    }
  }

  /**
   * Pushing an absolute string replaces the path; pushing a relative one keeps the path
   * as a prefix and adds exactly the string's components; the result ends with what was pushed.
   */
  lemma PushExtends(base: Path, s: string)
    ensures |s| > 0 && s[0] == '/' ==> Push(base, s) == FromString(s)
    ensures (|s| == 0 || s[0] != '/') ==>
      StartsWith(Push(base, s), base) &&
      |Push(base, s).components| == |base.components| + |FromString(s).components|
    ensures EndsWith(Push(base, s), FromString(s))
  {
  }
}
