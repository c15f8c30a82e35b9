/**
 Lexical path normalization and containment. A path is its sequence of components;
 Windows prefixes are not part of this model.
 */
module Paths {
  import opened Outcomes

  datatype Component = RootDir | CurDir | ParentDir | Normal(name: string)

  type Path = seq<Component>

  /** The component sequences a path parses to: a root only in front. */
  predicate WellFormed(path: Path) {
    forall i :: 0 < i < |path| ==> path[i] != RootDir
  }

  predicate IsAbsolute(path: Path) {
    path != [] && path[0] == RootDir
  }

  /** What normalization does with one more component. */
  function Push(normalized: Path, c: Component): Path {
    match c
    case RootDir => normalized + [c]
    case Normal(_) => normalized + [c]
    case CurDir => normalized
    case ParentDir =>
      if normalized == [] || normalized[|normalized| - 1] == ParentDir then normalized + [c]
      else if normalized[|normalized| - 1].Normal? then normalized[..|normalized| - 1]
      else normalized
  }

  function PushAll(normalized: Path, path: Path): Path
    decreases |path|
  {
    if path == [] then normalized else PushAll(Push(normalized, path[0]), path[1..])
  }

  function Normalized(path: Path): Path { PushAll([], path) }

  method NormalizePath(path: Path) returns (normalized: Path)
    ensures normalized == Normalized(path)
  {
    normalized := [];
    for i := 0 to |path|
      invariant PushAll(normalized, path[i..]) == Normalized(path)
    {
      match path[i] {
        case RootDir => normalized := normalized + [path[i]];
        case Normal(_) => normalized := normalized + [path[i]];
        case CurDir =>
        case ParentDir =>
          if normalized != [] && normalized[|normalized| - 1].Normal? {
            normalized := normalized[..|normalized| - 1];
          } else if normalized == [] || normalized[|normalized| - 1] == ParentDir {
            normalized := normalized + [path[i]];
          }
      }
    }
  }

  // -------------------------------------------------------- the normal form

  /**
   No `.`; a root only in front; `..` only as a leading run of a relative path.
   */
  predicate Canonical(path: Path) {
    forall i :: 0 <= i < |path| ==>
      && path[i] != CurDir
      && (path[i] == RootDir ==> i == 0)
      && (path[i] == ParentDir ==> i == 0 || path[i - 1] == ParentDir)
  }

  lemma {:induction false} PushAllIsCanonical(normalized: Path, path: Path)
    requires Canonical(normalized)
    requires forall i :: 0 <= i < |path| && path[i] == RootDir ==> i == 0 && normalized == []
    ensures Canonical(PushAll(normalized, path))
    decreases |path|
  {
    if path != [] { PushAllIsCanonical(Push(normalized, path[0]), path[1..]); }
  }

  lemma {:induction false} PushAllOfCanonical(normalized: Path, path: Path)
    requires Canonical(normalized + path)
    ensures PushAll(normalized, path) == normalized + path
    decreases |path|
  {
    if path == [] {
      assert normalized + path == normalized;
    } else {
      var whole := normalized + path;
      assert whole[|normalized|] == path[0];
      assert normalized != [] ==> whole[|normalized| - 1] == normalized[|normalized| - 1];
      assert Push(normalized, path[0]) + path[1..] == whole;
      PushAllOfCanonical(Push(normalized, path[0]), path[1..]);
    }
  }

  lemma {:induction false} PushAllAppend(normalized: Path, a: Path, b: Path)
    ensures PushAll(normalized, a + b) == PushAll(PushAll(normalized, a), b)
    decreases |a|
  {
    if a == [] {
      assert a + b == b;
    } else {
      assert (a + b)[1..] == a[1..] + b;
      PushAllAppend(Push(normalized, a[0]), a[1..], b);
    }
  }

  /** Normalizing yields a normal form, which normalizing again leaves alone. */
  lemma NormalizationIsIdempotent(path: Path)
    requires WellFormed(path)
    ensures Canonical(Normalized(path)) && WellFormed(Normalized(path))
    ensures Normalized(Normalized(path)) == Normalized(path)
    ensures IsAbsolute(path) ==> IsAbsolute(Normalized(path)) && ParentDir !in Normalized(path)
  {
    PushAllIsCanonical([], path);
    PushAllOfCanonical([], Normalized(path));
    assert [] + Normalized(path) == Normalized(path);
    if IsAbsolute(path) {
      KeepsRoot([RootDir], path[1..]);
      assert Push([], path[0]) == [RootDir];
      CanonicalAbsolute(Normalized(path));
    }
  }

  lemma {:induction false} KeepsRoot(normalized: Path, path: Path)
    requires IsAbsolute(normalized)
    ensures IsAbsolute(PushAll(normalized, path))
    decreases |path|
  {
    if path != [] { KeepsRoot(Push(normalized, path[0]), path[1..]); }
  }

  lemma {:induction false} CanonicalAbsolute(path: Path)
    requires Canonical(path) && IsAbsolute(path)
    ensures forall i :: 0 < i < |path| ==> path[i].Normal?
    decreases |path|
  {
    if |path| > 1 {
      CanonicalAbsolute(path[..|path| - 1]);
      assert path[..|path| - 1][|path| - 2] == path[|path| - 2];
      assert forall i :: 0 <= i < |path| - 1 ==> path[..|path| - 1][i] == path[i];
    }
  }

  // ------------------------------------------------------------ the meaning

  /**
   One lexical simplification, independent of how normalization works: a `.` means
   nothing, a name followed by `..` cancels, and the parent of the root is the root.
   */
  ghost predicate Simplifies(path: Path, simpler: Path) {
    || (exists i :: Drops(path, i, simpler))
    || (exists i :: Cancels(path, i, simpler))
    || (|path| >= 2 && path[0] == RootDir && path[1] == ParentDir && simpler == [RootDir] + path[2..])
  }

  ghost predicate Drops(path: Path, i: int, simpler: Path) {
    0 <= i < |path| && path[i] == CurDir && simpler == path[..i] + path[i + 1..]
  }

  ghost predicate Cancels(path: Path, i: int, simpler: Path) {
    0 <= i < |path| - 1 && path[i].Normal? && path[i + 1] == ParentDir && simpler == path[..i] + path[i + 2..]
  }

  /** One simplification, in either direction, between well-formed paths. */
  ghost predicate Neighbours(a: Path, b: Path) {
    WellFormed(a) && WellFormed(b) && (Simplifies(a, b) || Simplifies(b, a))
  }

  /** A chain of neighbours from `a` to `b`. */
  ghost predicate Links(chain: seq<Path>, a: Path, b: Path) {
    && chain != [] && chain[0] == a && chain[|chain| - 1] == b
    && forall i :: 0 <= i < |chain| - 1 ==> Neighbours(chain[i], chain[i + 1])
  }

  /** The paths that simplification makes equal, in either direction and any number of steps. */
  ghost predicate SameMeaning(a: Path, b: Path) {
    exists chain :: Links(chain, a, b)
  }

  lemma DropKeepsNormalized(path: Path, i: int, simpler: Path)
    requires Drops(path, i, simpler)
    ensures Normalized(path) == Normalized(simpler)
  {
    assert path == path[..i] + ([CurDir] + path[i + 1..]);
    PushAllAppend([], path[..i], [CurDir] + path[i + 1..]);
    PushAllAppend([], path[..i], path[i + 1..]);
    assert ([CurDir] + path[i + 1..])[1..] == path[i + 1..];
  }

  lemma CancelKeepsNormalized(path: Path, i: int, simpler: Path)
    requires Cancels(path, i, simpler)
    ensures Normalized(path) == Normalized(simpler)
  {
    assert path == path[..i] + ([path[i], ParentDir] + path[i + 2..]);
    PushAllAppend([], path[..i], [path[i], ParentDir] + path[i + 2..]);
    PushAllAppend([], path[..i], path[i + 2..]);
    PushPop(PushAll([], path[..i]), path[i], path[i + 2..]);
  }

  /** A simplification does not change what a path normalizes to. */
  lemma SimplifiesKeepsNormalized(path: Path, simpler: Path)
    requires WellFormed(path) && Simplifies(path, simpler)
    ensures Normalized(path) == Normalized(simpler)
  {
    if i :| Drops(path, i, simpler) {
      DropKeepsNormalized(path, i, simpler);
    } else if i :| Cancels(path, i, simpler) {
      CancelKeepsNormalized(path, i, simpler);
    } else {
      RootParentIsRoot(path[2..]);
      assert path == [RootDir, ParentDir] + path[2..];
    }
  }

  lemma RootParentIsRoot(rest: Path)
    ensures Normalized([RootDir, ParentDir] + rest) == Normalized([RootDir] + rest)
  {
    var path := [RootDir, ParentDir] + rest;
    assert path[1..] == [ParentDir] + rest && path[1..][1..] == rest && ([RootDir] + rest)[1..] == rest;
    assert Push([], RootDir) == [RootDir] && Push([RootDir], ParentDir) == [RootDir];
    assert Normalized(path) == PushAll([RootDir], path[1..]) == PushAll([RootDir], rest);
  }

  lemma PushPop(normalized: Path, name: Component, rest: Path)
    requires name.Normal?
    ensures PushAll(normalized, [name, ParentDir] + rest) == PushAll(normalized, rest)
  {
    var path := [name, ParentDir] + rest;
    assert path[1..] == [ParentDir] + rest && path[1..][1..] == rest;
    assert Push(Push(normalized, name), ParentDir) == normalized;
  }

  lemma {:induction false} LinkedNormalizeAlike(chain: seq<Path>, a: Path, b: Path)
    requires Links(chain, a, b)
    ensures Normalized(a) == Normalized(b)
    decreases |chain|
  {
    if |chain| > 1 {
      var m := chain[1];
      assert Neighbours(chain[0], m);
      if Simplifies(a, m) { SimplifiesKeepsNormalized(a, m); } else { SimplifiesKeepsNormalized(m, a); }
      hide Neighbours, Normalized;
      LinkedNormalizeAlike(chain[1..], m, b);
    }
  }

  lemma LinkFirst(a: Path, m: Path, chain: seq<Path>, b: Path)
    requires Neighbours(a, m) && Links(chain, m, b)
    ensures Links([a] + chain, a, b)
  {
    hide Neighbours;
    var longer := [a] + chain;
    forall i | 0 <= i < |longer| - 1 ensures Neighbours(longer[i], longer[i + 1]) {
      if i > 0 { assert longer[i] == chain[i - 1]; }
    }
  }

  /** Taking in one component either keeps the whole path or simplifies it once. */
  lemma PushSimplifies(normalized: Path, path: Path)
    requires Canonical(normalized) && WellFormed(normalized + path) && path != []
    ensures var whole, m := normalized + path, Push(normalized, path[0]) + path[1..];
            m == whole || Simplifies(whole, m)
  {
    var whole, c, k := normalized + path, path[0], |normalized|;
    var m := Push(normalized, c) + path[1..];
    assert whole[k] == c;
    if c == CurDir {
      assert Drops(whole, k, m);
    } else if Push(normalized, c) != normalized + [c] {
      assert whole[k - 1] == normalized[k - 1];
      if normalized[k - 1].Normal? {
        assert m == whole[..k - 1] + whole[k - 1 + 2..];
        assert Cancels(whole, k - 1, m);
      } else {
        assert k == 1 && m == [RootDir] + whole[2..];
      }
    } else {
      assert m == whole;
    }
  }

  /** Every path simplifies, step by step, to its normal form. */
  lemma {:induction false} SimplifiesToNormalized(normalized: Path, path: Path) returns (chain: seq<Path>)
    requires Canonical(normalized) && WellFormed(normalized + path)
    ensures Links(chain, normalized + path, PushAll(normalized, path))
    decreases |path|
  {
    if path == [] {
      assert normalized + path == normalized;
      chain := [normalized];
    } else {
      var whole, next := normalized + path, Push(normalized, path[0]);
      var m := next + path[1..];
      PushSimplifies(normalized, path);
      PushKeepsCanonical(normalized, path);
      if m != whole { WellFormedPart(whole, m); }
      hide Simplifies, Canonical, WellFormed, Push, Links;
      chain := SimplifiesToNormalized(next, path[1..]);
      if m != whole {
        LinkFirst(whole, m, chain, PushAll(next, path[1..]));
        chain := [whole] + chain;
      }
    }
  }

  lemma PushKeepsCanonical(normalized: Path, path: Path)
    requires Canonical(normalized) && WellFormed(normalized + path) && path != []
    ensures Canonical(Push(normalized, path[0]))
  {
    assert (normalized + path)[|normalized|] == path[0];
  }

  lemma WellFormedPart(path: Path, simpler: Path)
    requires WellFormed(path) && Simplifies(path, simpler)
    ensures WellFormed(simpler)
  {
  }

  lemma {:induction false} LinksJoin(first: seq<Path>, second: seq<Path>, a: Path, m: Path, b: Path)
    requires Links(first, a, m) && Links(second, m, b)
    ensures Links(first + second[1..], a, b)
  {
    hide Neighbours;
    var joined := first + second[1..];
    forall i | 0 <= i < |joined| - 1 ensures Neighbours(joined[i], joined[i + 1]) {
      if i >= |first| - 1 {
        var k := i - (|first| - 1);
        assert joined[i] == second[k] && joined[i + 1] == second[k + 1];
      }
    }
  }

  lemma LinksReverse(chain: seq<Path>, a: Path, b: Path) returns (reversed: seq<Path>)
    requires Links(chain, a, b)
    ensures Links(reversed, b, a)
  {
    hide Simplifies;
    var n := |chain|;
    reversed := seq(n, i requires 0 <= i < n => chain[n - 1 - i]);
    forall i | 0 <= i < n - 1 ensures Neighbours(reversed[i], reversed[i + 1]) {
      assert Neighbours(chain[n - 2 - i], chain[n - 2 - i + 1]);
    }
  }

  /** Two paths mean the same lexically exactly when they normalize to the same path. */
  lemma NormalizationDecidesMeaning(a: Path, b: Path)
    requires WellFormed(a) && WellFormed(b)
    ensures SameMeaning(a, Normalized(a))
    ensures SameMeaning(a, b) <==> Normalized(a) == Normalized(b)
  {
    assert [] + a == a && [] + b == b;
    var first := SimplifiesToNormalized([], a);
    var second := SimplifiesToNormalized([], b);
    hide Neighbours, WellFormed, PushAll;
    if chain :| Links(chain, a, b) {
      LinkedNormalizeAlike(chain, a, b);
    }
    if Normalized(a) == Normalized(b) {
      hide Links;
      var back := LinksReverse(second, b, Normalized(b));
      LinksJoin(first, back, a, Normalized(a), b);
    }
  }

  // ------------------------------------------------------------- containment

  predicate IsPathWithin(path: Path, directory: Path) {
    var p, d := Normalized(path), Normalized(directory);
    p != d && d <= p
  }

  /** `p` goes down from `d` by one or more names. */
  ghost predicate Below(p: Path, d: Path) {
    d < p && forall i :: |d| <= i < |p| ==> p[i].Normal?
  }

  /**
   A contained path fails to go down from the directory exactly when its next
   component is no name. That takes a relative directory that is nothing but a run of
   `..`, and a path that climbs further, or that is absolute while the directory is
   the current one. For an absolute directory containment is descent.
   */
  lemma WithinMeansBelowExactlyWhen(path: Path, directory: Path)
    requires WellFormed(path) && WellFormed(directory)
    ensures IsPathWithin(path, directory) ==>
              var p, d := Normalized(path), Normalized(directory);
              && (Below(p, d) <==> p[|d|].Normal?)
              && (!p[|d|].Normal? ==>
                    && (forall i :: 0 <= i < |d| ==> d[i] == ParentDir)
                    && (p[|d|] == ParentDir || (d == [] && IsAbsolute(p))))
    ensures IsAbsolute(directory) ==>
              (IsPathWithin(path, directory) <==> Below(Normalized(path), Normalized(directory)))
  {
    var p, d := Normalized(path), Normalized(directory);
    NormalizationIsIdempotent(path);
    NormalizationIsIdempotent(directory);
    if IsPathWithin(path, directory) {
      if IsAbsolute(directory) {
        assert p[0] == d[0];
        CanonicalAbsolute(p);
      }
      if p[|d|] == ParentDir {
        ParentsLead(p, |d|);
        assert forall i :: 0 <= i < |d| ==> d[i] == p[i];
      } else if p[|d|].Normal? {
        NamesFollowNames(p, |d|);
      }
    }
  }

  lemma {:induction false} ParentsLead(p: Path, k: nat)
    requires Canonical(p) && k < |p| && p[k] == ParentDir
    ensures forall i :: 0 <= i <= k ==> p[i] == ParentDir
    decreases k
  {
    if k > 0 { ParentsLead(p, k - 1); }
  }

  lemma {:induction false} NamesFollowNames(p: Path, k: nat)
    requires Canonical(p) && k < |p| && p[k].Normal?
    ensures forall i :: k <= i < |p| ==> p[i].Normal?
    decreases |p| - k
  {
    if k + 1 < |p| { NamesFollowNames(p, k + 1); }
  }

  /** Going below a directory is always containment. */
  lemma BelowIsWithin(path: Path, directory: Path)
    ensures Below(Normalized(path), Normalized(directory)) ==> IsPathWithin(path, directory)
  {
  }

  /** `..` and every absolute path count as being within `.`. */
  lemma CurrentDirectoryContainsTooMuch(name: string)
    ensures IsPathWithin([ParentDir], [CurDir]) && !Below(Normalized([ParentDir]), Normalized([CurDir]))
    ensures var path := [RootDir, Normal(name)];
            IsPathWithin(path, [CurDir]) && !Below(Normalized(path), Normalized([CurDir]))
  {
    assert [ParentDir][1..] == [] && [CurDir][1..] == [];
    assert Normalized([ParentDir]) == [ParentDir] && Normalized([CurDir]) == [];
    var path := [RootDir, Normal(name)];
    PushAllOfCanonical([], path);
    assert [] + path == path;
  }

  lemma CanonicalIsNormalized(path: Path)
    requires Canonical(path)
    ensures Normalized(path) == path
  {
    assert [] + path == path;
    PushAllOfCanonical([], path);
  }

  lemma DotMeansNothing(path: Path)
    ensures Normalized(path + [CurDir]) == Normalized(path)
  {
    var dotted := path + [CurDir];
    assert dotted[..|path|] == path && dotted[|path| + 1..] == [];
    assert path + [] == path;
    DropKeepsNormalized(dotted, |path|, path);
  }

  /** A name at the end of a path is a name at the end of its normal form. */
  lemma NormalizedName(path: Path, name: string)
    ensures Normalized(path + [Normal(name)]) == Normalized(path) + [Normal(name)]
  {
    PushAllAppend([], path, [Normal(name)]);
    assert [Normal(name)][1..] == [];
  }

  /**
   Between canonical absolute paths, starting with the directory is being it or going
   down from it by names.
   */
  lemma PrefixIsRootOrBelow(path: Path, directory: Path)
    requires Canonical(path) && IsAbsolute(path) && Canonical(directory) && IsAbsolute(directory)
    ensures directory <= path <==> path == directory || Below(path, directory)
  {
    CanonicalAbsolute(path);
  }

  // ---------------------------------------------------------- configured paths

  /** A path as it is when absolute, otherwise joined to the root. */
  function AbsolutePath(root: Path, raw: Path): Path {
    if IsAbsolute(raw) then raw else root + raw
  }

  lemma AbsolutePathIsAbsolute(root: Path, raw: Path)
    requires IsAbsolute(root) && WellFormed(root) && WellFormed(raw)
    ensures IsAbsolute(AbsolutePath(root, raw)) && WellFormed(AbsolutePath(root, raw))
  {
  }

  function Parent(path: Path): Option<Path> {
    if path == [] || path == [RootDir] then None else Some(path[..|path| - 1])
  }

  /** The path itself, or the nearest of its ancestors, that is present. */
  function NearestPresent(path: Path, present: Path -> bool): Option<Path>
    decreases |path|
  {
    if present(path) then Some(path)
    else
      match Parent(path)
      case None => None
      case Some(parent) => NearestPresent(parent, present)
  }

  // ------------------------------------------------------- the origin pattern

  predicate IsMeta(c: char) {
    || c == '.' || c == '^' || c == '$' || c == '*' || c == '+' || c == '?' || c == '(' || c == ')'
    || c == '[' || c == ']' || c == '{' || c == '}' || c == '|' || c == '\\'
  }

  function Escaped(value: string): string {
    if value == [] then [] else (if IsMeta(value[0]) then ['\\', value[0]] else [value[0]]) + Escaped(value[1..])
  }

  method ExactGitRegex(value: string) returns (pattern: string)
    ensures pattern == "^" + Escaped(value) + "$"
  {
    pattern := "^";
    for i := 0 to |value|
      invariant pattern + Escaped(value[i..]) == "^" + Escaped(value)
    {
      assert value[i..] == [value[i]] + value[i + 1..];
      ghost var before := pattern;
      if IsMeta(value[i]) { pattern := pattern + "\\"; }
      pattern := pattern + [value[i]];
      assert pattern + Escaped(value[i + 1..]) == before + Escaped(value[i..]);
    }
    assert value[|value|..] == [];
    assert pattern + [] == pattern;
    pattern := pattern + "$";
  }

  /**
   Matching the body of an anchored pattern in the fragment of extended regular
   expressions that uses only ordinary characters and escaped ones; any other
   pattern is outside the fragment.
   */
  function MatchesBody(pattern: string, text: string): Option<bool>
    decreases |pattern|
  {
    if pattern == [] then Some(text == [])
    else if pattern[0] == '\\' && |pattern| >= 2 then
      if text != [] && text[0] == pattern[1] then MatchesBody(pattern[2..], text[1..])
      else if InFragment(pattern[2..]) then Some(false) else None
    else if IsMeta(pattern[0]) then None
    else
      if text != [] && text[0] == pattern[0] then MatchesBody(pattern[1..], text[1..])
      else if InFragment(pattern[1..]) then Some(false) else None
  }

  predicate InFragment(pattern: string)
    decreases |pattern|
  {
    pattern == [] ||
    (if pattern[0] == '\\' && |pattern| >= 2 then InFragment(pattern[2..])
     else !IsMeta(pattern[0]) && InFragment(pattern[1..]))
  }

  lemma {:induction false} EscapedInFragment(value: string)
    ensures InFragment(Escaped(value))
    decreases |value|
  {
    if value != [] {
      EscapedInFragment(value[1..]);
      EscapedTail(value);
    }
  }

  lemma EscapedTail(value: string)
    requires value != []
    ensures var e := Escaped(value);
            if IsMeta(value[0]) then |e| >= 2 && e[0] == '\\' && e[1] == value[0] && e[2..] == Escaped(value[1..])
            else e != [] && e[0] == value[0] && e[1..] == Escaped(value[1..])
  {
  }

  /** The pattern matches the configured repository and nothing else. */
  lemma {:induction false} PatternMatchesExactly(value: string, text: string)
    ensures MatchesBody(Escaped(value), text) == Some(text == value)
    decreases |value|
  {
    if value != [] {
      EscapedTail(value);
      EscapedInFragment(value[1..]);
      if text != [] {
        PatternMatchesExactly(value[1..], text[1..]);
        assert text == [text[0]] + text[1..] && value == [value[0]] + value[1..];
      }
    }
  }
}
