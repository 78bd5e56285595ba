/** Lexical path normalisation: `.` and `..` removed without asking the disk. */
module Paths {
  import opened Wrappers

  datatype Component = RootDir | CurDir | ParentDir | Normal(name: string)

  /** The components of an absolute path: the root first and nowhere else. */
  predicate Absolute(path: seq<Component>) {
    path != [] && path[0] == RootDir && RootDir !in path[1..]
  }

  /** The result of normalising: the root, then names. */
  predicate Normalized(path: seq<Component>) {
    path != [] && path[0] == RootDir && forall i :: 1 <= i < |path| ==> path[i].Normal?
  }

  /** Joining onto the current directory leaves an absolute path alone. The
      empty path is refused, and a relative one when the directory is unknown. */
  function MakeAbsolute(cwd: Option<seq<Component>>, path: seq<Component>): Result<seq<Component>> {
    if path == [] then Err
    else if path[0] == RootDir then Ok(path)
    else if cwd.None? then Err
    else Ok(cwd.value + path)
  }

  /** Removing the last name; the root has no parent to fall back to. */
  function Pop(path: seq<Component>): seq<Component> {
    if path == [] || path[|path| - 1] == RootDir then path else path[..|path| - 1]
  }

  /** Pushing the root replaces the whole path. */
  function Push(path: seq<Component>, c: Component): seq<Component> {
    match c
    case RootDir => [RootDir]
    case CurDir => path
    case ParentDir => Pop(path)
    case Normal(_) => path + [c]
  }

  function PushAll(path: seq<Component>, cs: seq<Component>): seq<Component>
    decreases |cs|
  {
    if cs == [] then path else PushAll(Push(path, cs[0]), cs[1..])
  }

  function Normalize(path: seq<Component>): seq<Component> {
    PushAll([], path)
  }

  method AbsoluteLexical(cwd: Option<seq<Component>>, path: seq<Component>) returns (r: Result<seq<Component>>)
    ensures r.Err? <==> MakeAbsolute(cwd, path).Err?
    ensures r.Ok? ==> r.value == Normalize(MakeAbsolute(cwd, path).value)
  {
    var made := MakeAbsolute(cwd, path);
    if made.Err? { return Err; }
    var absolute, normalized := made.value, [];
    assert absolute[..0] == [];
    for i := 0 to |absolute|
      invariant normalized == PushAll([], absolute[..i])
    {
      assert absolute[..i + 1] == absolute[..i] + [absolute[i]];
      PushAllAppend([], absolute[..i], [absolute[i]]);
      match absolute[i] {
        case CurDir =>
        case ParentDir => normalized := Pop(normalized);
        case RootDir => normalized := [RootDir];
        case Normal(_) => normalized := normalized + [absolute[i]];
      }
    }
    assert absolute[..|absolute|] == absolute;
    return Ok(normalized);
  }

  lemma {:induction false} PushAllAppend(path: seq<Component>, a: seq<Component>, b: seq<Component>)
    ensures PushAll(path, a + b) == PushAll(PushAll(path, a), b)
    decreases |a|
  {
    if a == [] {
      assert a + b == b;
    } else {
      assert (a + b)[1..] == a[1..] + b;
      PushAllAppend(Push(path, a[0]), a[1..], b);
    }
  }

  lemma {:induction false} PushAllNormalized(path: seq<Component>, cs: seq<Component>)
    requires Normalized(path)
    ensures Normalized(PushAll(path, cs))
    decreases |cs|
  {
    if cs != [] { PushAllNormalized(Push(path, cs[0]), cs[1..]); }
  }

  /** The result starts at the root, holds only names after it, and so never
      climbs above the root; a relative path is read from an absolute one. */
  lemma NormalizeShape(cwd: Option<seq<Component>>, path: seq<Component>)
    requires cwd.Some? ==> Absolute(cwd.value)
    requires MakeAbsolute(cwd, path).Ok?
    ensures Normalized(Normalize(MakeAbsolute(cwd, path).value))
  {
    var full := MakeAbsolute(cwd, path).value;
    assert Push([], full[0]) == [RootDir];
    PushAllNormalized([RootDir], full[1..]);
  }

  /** A normalised path is left exactly as it is, and nothing else is. */
  lemma {:induction false} NormalizeFixes(path: seq<Component>)
    requires Absolute(path)
    ensures Normalize(path) == path <==> Normalized(path)
  {
    NormalizeShape(None, path);
    if Normalized(path) { PushNames([RootDir], path[1..]); assert [RootDir] + path[1..] == path; }
  }

  lemma {:induction false} PushNames(path: seq<Component>, names: seq<Component>)
    requires forall i :: 0 <= i < |names| ==> names[i].Normal?
    ensures PushAll(path, names) == path + names
    decreases |names|
  {
    if names == [] {
      assert path + names == path;
    } else {
      PushNames(path + [names[0]], names[1..]);
      assert path + [names[0]] + names[1..] == path + names;
    }
  }

  lemma NormalizeIdempotent(path: seq<Component>)
    requires Absolute(path)
    ensures Normalize(Normalize(path)) == Normalize(path)
  {
    NormalizeShape(None, path);
    var n := Normalize(path);
    forall i | 1 <= i < |n| ensures n[i] != RootDir {}
    assert Absolute(n);
    NormalizeFixes(n);
  }

  /** A name followed by `..` can be struck out anywhere, and so can `.`. */
  lemma CancelAnywhere(a: seq<Component>, name: string, b: seq<Component>)
    ensures Normalize(a + [Normal(name), ParentDir] + b) == Normalize(a + b)
    ensures Normalize(a + [CurDir] + b) == Normalize(a + b)
  {
    var before := Normalize(a);
    var pair := [Normal(name), ParentDir];
    PushAllAppend([], a + pair, b);
    PushAllAppend([], a, pair);
    PushAllAppend([], a + [CurDir], b);
    PushAllAppend([], a, [CurDir]);
    PushAllAppend([], a, b);
    assert pair[1..] == [ParentDir] && [ParentDir][1..] == [];
    assert PushAll(before, pair) == PushAll(before + [Normal(name)], [ParentDir]);
    assert PushAll(before + [Normal(name)], [ParentDir]) == PushAll(Pop(before + [Normal(name)]), []);
    assert Pop(before + [Normal(name)]) == before;
    assert PushAll(before, pair) == before;
    assert PushAll(before, [CurDir]) == before;
  }

  /** `..` at the root stays at the root. */
  lemma ClampedAtRoot(b: seq<Component>)
    ensures Normalize([RootDir, ParentDir] + b) == Normalize([RootDir] + b)
  {
    PushAllAppend([], [RootDir, ParentDir], b);
    PushAllAppend([], [RootDir], b);
    assert [RootDir, ParentDir][1..] == [ParentDir];
  }

  /** A relative path of names lies below the current directory, its names kept
      in order; an absolute one ignores the current directory. */
  lemma RelativeStaysBelow(cwd: seq<Component>, names: seq<Component>)
    requires Normalized(cwd) && names != [] && forall i :: 0 <= i < |names| ==> names[i].Normal?
    ensures var made := MakeAbsolute(Some(cwd), names); made.Ok? && Normalize(made.value) == cwd + names
    ensures forall other :: MakeAbsolute(other, [RootDir] + names) == Ok([RootDir] + names)
  {
    var full := cwd + names;
    assert Normalized(full);
    forall i | 1 <= i < |full| ensures full[i] != RootDir {}
    assert Absolute(full);
    NormalizeFixes(full);
  }
}
