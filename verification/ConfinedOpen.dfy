/** Opening a regular file under a root without following links, on a file
    system that others may rearrange between any two steps. */
module ConfinedOpen {
  import opened Wrappers
  import opened Machine

  /** A link is given by the file it leads to. */
  datatype Node = Directory(entries: map<string, Ino>) | Regular(modifiedSecs: int) | Link(to: Ino) | Other

  type Tree = map<Ino, Node>

  datatype Component = Normal(name: string) | NotNormal

  datatype Guard = Guard(parent: Ino, name: string, modifiedSecs: nat)

  datatype Opened = File(guard: Guard) | Retire | OutsideRoot

  /** Something else at that name, or nothing, is `Changed`; a call that fails
      for any other reason is `Trouble`. */
  datatype Lookup = Found(i: Ino, node: Node) | Changed | Trouble

  /** What the calls of one opening meet: the file system at each step, and
      whether the call of that step fails for want of permission, descriptors
      or the like. */
  datatype Run = Run(at: nat -> Tree, fails: nat -> bool)

  /** Where the root is: the top of the file system, or a name in a directory. */
  datatype Root = Top(i: Ino) | Named(parent: Ino, name: string)

  predicate HoldsDirectory(t: Tree, d: Ino) {
    d in t && t[d].Directory?
  }

  function Entry(t: Tree, d: Ino, name: string): Lookup {
    if !HoldsDirectory(t, d) || name !in t[d].entries || t[d].entries[name] !in t then Changed
    else Found(t[d].entries[name], t[t[d].entries[name]])
  }

  /** One look at `name` in directory `d` at step `k`. */
  function Look(run: Run, k: nat, d: Ino, name: string): Lookup {
    if run.fails(k) || '\0' in name then Trouble else Entry(run.at(k), d, name)
  }

  /** Opening a directory by name refuses links and files. */
  function OpenDirectoryAt(run: Run, k: nat, d: Ino, name: string): Lookup {
    var found := Look(run, k, d, name);
    if found.Found? && !found.node.Directory? then Changed else found
  }

  function OpenRoot(run: Run, root: Root): Lookup {
    match root
    case Named(parent, name) => OpenDirectoryAt(run, 0, parent, name)
    case Top(i) =>
      if run.fails(0) then Trouble
      else if HoldsDirectory(run.at(0), i) then Found(i, run.at(0)[i]) else Changed
  }

  /** The names of a path, if it is made of nothing else. */
  function Names(path: seq<Component>): (r: Option<seq<string>>)
    ensures r.Some? <==> forall i :: 0 <= i < |path| ==> path[i].Normal?
    ensures r.Some? ==> |r.value| == |path| && forall i :: 0 <= i < |path| ==> path[i] == Normal(r.value[i])
  {
    if path == [] then Some([])
    else if path[0].NotNormal? then None
    else
      var rest := Names(path[1..]);
      if rest.None? then None else Some([path[0].name] + rest.value)
  }

  function ModifiedSecs(secs: int): nat {
    if secs > 0 then secs else 0
  }

  // ---- The answer ---------------------------------------------------------

  /** The file itself, in the directory it was reached through. */
  function Inspect(run: Run, d: Ino, names: seq<string>): Result<Opened>
    requires names != []
  {
    match Look(run, |names|, d, names[|names| - 1])
    case Changed => Ok(Retire)
    case Trouble => Err
    case Found(_, node) =>
      if node.Regular? then Ok(File(Guard(d, names[|names| - 1], ModifiedSecs(node.modifiedSecs)))) else Ok(Retire)
  }

  /** The answer for the rest of a path, from directory `d` before step `k + 1`. */
  function Walk(run: Run, d: Ino, names: seq<string>, k: nat): Result<Opened>
    requires k < |names|
    decreases |names| - k
  {
    if k == |names| - 1 then Inspect(run, d, names)
    else
      match OpenDirectoryAt(run, k + 1, d, names[k])
      case Changed => Ok(Retire)
      case Trouble => Err
      case Found(i, _) => Walk(run, i, names, k + 1)
  }

  /** The answer for names below the root. */
  function Below(run: Run, root: Root, names: seq<string>): Result<Opened>
    requires names != []
  {
    match OpenRoot(run, root)
    case Changed => Ok(Retire)
    case Trouble => Err
    case Found(i, _) => Walk(run, i, names, 0)
  }

  /** Missing entries, links and files in the way retire the path; only the
      unexpected is an error. */
  function Answer(run: Run, root: Root, relative: Option<seq<Component>>): Result<Opened> {
    if relative.None? then Ok(OutsideRoot)
    else
      var names := Names(relative.value);
      if names.None? || names.value == [] then Ok(Retire) else Below(run, root, names.value)
  }

  // ---- The descent --------------------------------------------------------

  /** In `t` the directory `d` names the file `i` as `name`. */
  ghost predicate IsEntry(t: Tree, d: Ino, name: string, i: Ino) {
    d in t && t[d].Directory? && name in t[d].entries && t[d].entries[name] == i && i in t
  }

  ghost predicate IsDirectory(t: Tree, i: Ino) {
    i in t && t[i].Directory?
  }

  /** A regular file, its time clamped at zero. */
  ghost predicate IsRegular(t: Tree, i: Ino, modifiedSecs: nat) {
    && i in t && t[i].Regular?
    && (t[i].modifiedSecs < 0 ==> modifiedSecs == 0) && (t[i].modifiedSecs >= 0 ==> modifiedSecs == t[i].modifiedSecs)
  }

  /** No entry of that name is a directory, or none a regular file. */
  ghost predicate NoDirectoryThere(t: Tree, d: Ino, name: string) {
    forall i :: IsEntry(t, d, name, i) ==> !IsDirectory(t, i)
  }

  ghost predicate NoRegularThere(t: Tree, d: Ino, name: string) {
    forall i, secs :: IsEntry(t, d, name, i) ==> !IsRegular(t, i, secs)
  }

  /** The call of a step cannot be made, or fails by itself. */
  ghost predicate Broken(run: Run, k: nat, name: string) {
    run.fails(k) || '\0' in name
  }

  /** Step `k` enters `i` from `d`: a real entry, to a real directory. */
  ghost predicate Entered(run: Run, k: nat, d: Ino, name: string, i: Ino) {
    !Broken(run, k, name) && IsEntry(run.at(k), d, name, i) && IsDirectory(run.at(k), i)
  }

  /** Step 0 opens `i` as the root. */
  ghost predicate RootEntered(run: Run, root: Root, i: Ino) {
    match root
    case Top(top) => !run.fails(0) && i == top && IsDirectory(run.at(0), i)
    case Named(parent, name) => Entered(run, 0, parent, name, i)
  }

  /** `trail` is a descent: the root and each directory after it was entered
      through a real entry, at its own moment, no link among them. */
  ghost predicate Descent(run: Run, root: Root, names: seq<string>, trail: seq<Ino>) {
    && 1 <= |trail| <= |names| + 1 && RootEntered(run, root, trail[0])
    && forall k :: 1 <= k < |trail| ==> Entered(run, k, trail[k - 1], names[k - 1], trail[k])
  }

  /** At step `k` a regular file of that age is entered as `name` in `d`. */
  ghost predicate RegularThere(run: Run, k: nat, d: Ino, name: string, modifiedSecs: nat) {
    !Broken(run, k, name) && exists i :: IsEntry(run.at(k), d, name, i) && IsRegular(run.at(k), i, modifiedSecs)
  }

  /** The guard names a regular file at the end of the descent. */
  ghost predicate Confined(run: Run, root: Root, names: seq<string>, trail: seq<Ino>, g: Guard) {
    && names != [] && |trail| == |names| && Descent(run, root, names, trail)
    && g.parent == trail[|trail| - 1] && g.name == names[|names| - 1]
    && RegularThere(run, |names|, g.parent, g.name, g.modifiedSecs)
  }

  // ---- The answer, read off the trees -------------------------------------

  /** The root cannot be opened for a reason of its own. */
  ghost predicate RootBroken(run: Run, root: Root) {
    run.fails(0) || (root.Named? && '\0' in root.name)
  }

  /** The first call that goes wrong is broken: the root's, or the one after
      the descent `trail`. */
  ghost predicate Breaks(run: Run, root: Root, names: seq<string>, trail: seq<Ino>) {
    if trail == [] then RootBroken(run, root)
    else |trail| <= |names| && Descent(run, root, names, trail) && Broken(run, |trail|, names[|trail| - 1])
  }

  /** The first call that goes wrong meets something else or nothing: no
      directory on the way, no regular file at the end. */
  ghost predicate Blocks(run: Run, root: Root, names: seq<string>, trail: seq<Ino>) {
    if trail == [] then !RootBroken(run, root) && forall i :: !RootEntered(run, root, i)
    else
      && |trail| <= |names| && Descent(run, root, names, trail)
      && !Broken(run, |trail|, names[|trail| - 1])
      && (if |trail| == |names| then NoRegularThere(run.at(|trail|), trail[|trail| - 1], names[|trail| - 1])
          else NoDirectoryThere(run.at(|trail|), trail[|trail| - 1], names[|trail| - 1]))
  }

  /** One entered step, as the calls see it. */
  lemma StepSeen(run: Run, k: nat, d: Ino, name: string)
    ensures var found := OpenDirectoryAt(run, k, d, name);
      && (found.Trouble? <==> Broken(run, k, name))
      && (forall i :: Entered(run, k, d, name, i) <==> found.Found? && found.i == i)
      && (found.Changed? <==> !Broken(run, k, name) && NoDirectoryThere(run.at(k), d, name))
  {
    var t := run.at(k);
    if d in t && t[d].Directory? && name in t[d].entries && t[d].entries[name] in t {
      assert IsEntry(t, d, name, t[d].entries[name]);
    }
  }

  lemma RootSeen(run: Run, root: Root)
    ensures var found := OpenRoot(run, root);
      && (found.Trouble? <==> RootBroken(run, root))
      && (forall i :: RootEntered(run, root, i) <==> found.Found? && found.i == i)
      && (found.Changed? <==> !RootBroken(run, root) && forall i :: !RootEntered(run, root, i))
  {
    if root.Named? { StepSeen(run, 0, root.parent, root.name); }
    var found := OpenRoot(run, root);
    if found.Found? { assert RootEntered(run, root, found.i); }
  }

  /** The last call, as it is seen. */
  lemma FileSeen(run: Run, d: Ino, names: seq<string>)
    requires names != []
    ensures var r, n := Inspect(run, d, names), |names|;
      var name := names[n - 1];
      && (r.Err? <==> Broken(run, n, name))
      && (forall g :: r == Ok(File(g)) <==>
            g.parent == d && g.name == name && RegularThere(run, n, d, name, g.modifiedSecs))
      && (r == Ok(Retire) <==> !Broken(run, n, name) && NoRegularThere(run.at(n), d, name))
      && r != Ok(OutsideRoot)
  {
    var t, name := run.at(|names|), names[|names| - 1];
    if d in t && t[d].Directory? && name in t[d].entries && t[d].entries[name] in t {
      assert IsEntry(t, d, name, t[d].entries[name]);
    }
  }

  /** A descent is what the walk follows. */
  lemma {:induction false} WalkFollows(run: Run, root: Root, names: seq<string>, trail: seq<Ino>)
    requires Descent(run, root, names, trail) && |trail| <= |names|
    ensures OpenRoot(run, root).Found?
    ensures Walk(run, OpenRoot(run, root).i, names, 0) == Walk(run, trail[|trail| - 1], names, |trail| - 1)
    decreases |trail|
  {
    RootSeen(run, root);
    assert RootEntered(run, root, trail[0]);
    var n := |trail| - 1;
    if n > 0 {
      WalkFollows(run, root, names, trail[..n]);
      assert Entered(run, n, trail[n - 1], names[n - 1], trail[n]);
      StepSeen(run, n, trail[n - 1], names[n - 1]);
    }
  }

  /** Where a call first goes wrong, and what is read when none does, decides. */
  lemma TrailDecides(run: Run, root: Root, names: seq<string>, trail: seq<Ino>)
    requires names != []
    ensures var r := Below(run, root, names);
      && (Breaks(run, root, names, trail) ==> r == Err)
      && (Blocks(run, root, names, trail) ==> r == Ok(Retire))
      && (forall g :: Confined(run, root, names, trail, g) ==> r == Ok(File(g)))
  {
    RootSeen(run, root);
    if 1 <= |trail| <= |names| && Descent(run, root, names, trail) {
      var n := |trail|;
      WalkFollows(run, root, names, trail);
      StepSeen(run, n, trail[n - 1], names[n - 1]);
      if n == |names| { FileSeen(run, trail[n - 1], names); }
    }
  }

  /** The descent as far as it goes. */
  lemma {:induction false} Stops(run: Run, root: Root, names: seq<string>, trail: seq<Ino>) returns (end: seq<Ino>)
    requires names != [] && Descent(run, root, names, trail) && |trail| <= |names|
    ensures Breaks(run, root, names, end) || Blocks(run, root, names, end)
            || exists g :: Confined(run, root, names, end, g)
    decreases |names| - |trail|
  {
    var n := |trail|;
    end := trail;
    if n == |names| {
      FileSeen(run, trail[n - 1], names);
      var r := Inspect(run, trail[n - 1], names);
      if r.Ok? && r.value.File? { assert Confined(run, root, names, trail, r.value.guard); }
    } else {
      StepSeen(run, n, trail[n - 1], names[n - 1]);
      var found := OpenDirectoryAt(run, n, trail[n - 1], names[n - 1]);
      if found.Found? {
        DescentExtends(run, root, names, trail, found.i);
        end := Stops(run, root, names, trail + [found.i]);
      }
    }
  }

  /** Some trail tells why the answer is what it is. */
  lemma SomeTrailDecides(run: Run, root: Root, names: seq<string>) returns (end: seq<Ino>)
    requires names != []
    ensures Breaks(run, root, names, end) || Blocks(run, root, names, end)
            || exists g :: Confined(run, root, names, end, g)
  {
    RootSeen(run, root);
    var first := OpenRoot(run, root);
    if first.Found? {
      assert RootEntered(run, root, first.i);
      end := Stops(run, root, names, [first.i]);
    } else {
      end := [];
    }
  }

  lemma BelowMeaning(run: Run, root: Root, names: seq<string>)
    requires names != []
    ensures var r := Below(run, root, names);
      && (r.Err? <==> exists trail :: Breaks(run, root, names, trail))
      && (r == Ok(Retire) <==> exists trail :: Blocks(run, root, names, trail))
      && (forall g :: r == Ok(File(g)) <==> exists trail :: Confined(run, root, names, trail, g))
      && r != Ok(OutsideRoot)
  {
    forall trail
      ensures Breaks(run, root, names, trail) ==> Below(run, root, names) == Err
      ensures Blocks(run, root, names, trail) ==> Below(run, root, names) == Ok(Retire)
    {
      TrailDecides(run, root, names, trail);
    }
    forall trail, g | Confined(run, root, names, trail, g) ensures Below(run, root, names) == Ok(File(g)) {
      TrailDecides(run, root, names, trail);
    }
    var end := SomeTrailDecides(run, root, names);
    forall g | Below(run, root, names) == Ok(File(g)) ensures Confined(run, root, names, end, g) {
      var found :| Confined(run, root, names, end, found);
    }
  }

  /** The answer in terms of the trees and failures alone: a file exactly at
      the end of a descent, an error exactly where a call is broken, and a
      retired path exactly where something else is in the way. */
  lemma AnswerMeaning(run: Run, root: Root, relative: Option<seq<Component>>)
    ensures relative.None? <==> Answer(run, root, relative) == Ok(OutsideRoot)
    ensures relative.Some? && (relative.value == [] || NotNormal in relative.value) ==>
      Answer(run, root, relative) == Ok(Retire)
    ensures relative.Some? && relative.value != [] && NotNormal !in relative.value ==>
      var r, path := Answer(run, root, relative), relative.value;
      exists names: seq<string> ::
        && |names| == |path| && (forall k :: 0 <= k < |path| ==> path[k] == Normal(names[k]))
        && (r.Err? <==> exists trail :: Breaks(run, root, names, trail))
        && (r == Ok(Retire) <==> exists trail :: Blocks(run, root, names, trail))
        && (forall g :: r == Ok(File(g)) <==> exists trail :: Confined(run, root, names, trail, g))
  {
    if relative.Some? {
      var path := relative.value;
      if NotNormal !in path {
        forall i | 0 <= i < |path| ensures path[i].Normal? {
          assert path[i] in path;
        }
        if path != [] { BelowMeaning(run, root, Names(path).value); }
      }
    }
  }

  lemma DescentExtends(run: Run, root: Root, names: seq<string>, trail: seq<Ino>, i: Ino)
    requires Descent(run, root, names, trail) && |trail| <= |names|
    requires Entered(run, |trail|, trail[|trail| - 1], names[|trail| - 1], i)
    ensures Descent(run, root, names, trail + [i])
  {
    var longer := trail + [i];
    forall k | 1 <= k < |longer| ensures Entered(run, k, longer[k - 1], names[k - 1], longer[k]) {
      if k < |trail| { assert longer[k] == trail[k]; }
    }
  }

  /** `relative` is what follows the root in the path, when the path lies under
      it. Step 0 opens the root, step `k` the `k`-th directory, and the last
      step inspects the file. */
  method OpenConfinedRegularFile(run: Run, root: Root, relative: Option<seq<Component>>)
    returns (r: Result<Opened>, ghost trail: seq<Ino>)
    ensures r == Answer(run, root, relative)
    // A file is only ever handed out at the end of a link-free descent.
    ensures r.Ok? && r.value.File? ==>
      && relative.Some? && Names(relative.value).Some?
      && Confined(run, root, Names(relative.value).value, trail, r.value.guard)
  {
    trail := [];
    if relative.None? { return Ok(OutsideRoot), []; }
    var names := Names(relative.value);
    if names.None? || names.value == [] { return Ok(Retire), []; }
    var first := OpenRoot(run, root);
    match first {
      case Changed => return Ok(Retire), [];
      case Trouble => return Err, [];
      case Found(i, _) => r, trail := Descend(run, root, names.value, i);
    }
  }

  method Descend(run: Run, root: Root, names: seq<string>, start: Ino)
    returns (r: Result<Opened>, ghost trail: seq<Ino>)
    requires names != [] && OpenRoot(run, root).Found? && OpenRoot(run, root).i == start
    ensures r == Walk(run, start, names, 0)
    ensures r.Ok? && r.value.File? ==> Confined(run, root, names, trail, r.value.guard)
  {
    var parent := start;
    trail := [start];
    RootSeen(run, root);
    for k := 0 to |names| - 1
      invariant |trail| == k + 1 && trail[k] == parent && Descent(run, root, names, trail)
      invariant Walk(run, parent, names, k) == Walk(run, start, names, 0)
    {
      var next := OpenDirectoryAt(run, k + 1, parent, names[k]);
      match next {
        case Changed => return Ok(Retire), trail;
        case Trouble => return Err, trail;
        case Found(i, _) =>
          StepSeen(run, k + 1, parent, names[k]);
          DescentExtends(run, root, names, trail, i);
          parent := i;
          trail := trail + [i];
      }
    }
    FileSeen(run, parent, names);
    r := Inspect(run, parent, names);
  }

  // ---- Removal ------------------------------------------------------------

  predicate Removable(t: Tree, d: Ino, name: string) {
    && HoldsDirectory(t, d) && name in t[d].entries
    && (t[d].entries[name] in t ==> !t[t[d].entries[name]].Directory?)
  }

  /** In `t` the directory `d` has an entry of that name, and no directory is
      behind it. */
  ghost predicate HasFile(t: Tree, d: Ino, name: string) {
    d in t && t[d].Directory? && name in t[d].entries && !IsDirectory(t, t[d].entries[name])
  }

  /** Unlinking one name in an open directory: links are not followed and
      directories are refused. */
  function RemoveAt(t: Tree, d: Ino, name: string): Result<Tree> {
    if Removable(t, d, name) then Ok(t[d := Directory(t[d].entries - {name})]) else Err
  }

  function RemoveGuarded(t: Tree, g: Guard): Result<Tree> {
    RemoveAt(t, g.parent, g.name)
  }

  /** Nothing but `name` in `d` is different. */
  ghost predicate OnlyEntryGone(t: Tree, t': Tree, d: Ino, name: string) {
    && t'.Keys == t.Keys && (forall i :: i in t && i != d ==> t'[i] == t[i])
    && HoldsDirectory(t, d) && HoldsDirectory(t', d)
    && t'[d].entries.Keys == t[d].entries.Keys - {name}
    && forall n :: n in t'[d].entries ==> t'[d].entries[n] == t[d].entries[n]
  }

  /** Open, let the tree change in any way at all, remove unless denied: only the entry in
      the directory at the end of the link-free descent can go. */
  method OpenThenRemove(
    run: Run, root: Root, relative: Option<seq<Component>>, later: Tree, denied: bool)
    returns (after: Tree, removed: bool, ghost trail: seq<Ino>)
    // It goes when the descent found a file, and an entry of that name that is
    // no directory is still there.
    ensures var answer := Answer(run, root, relative);
      removed <==>
        && answer.Ok? && answer.value.File? && !denied
        && HasFile(later, answer.value.guard.parent, answer.value.guard.name)
    ensures !removed ==> after == later
    ensures removed ==>
      && relative.Some? && Names(relative.value).Some?
      && var names := Names(relative.value).value;
         && names != [] && |trail| == |names| && Descent(run, root, names, trail)
         && OnlyEntryGone(later, after, trail[|trail| - 1], names[|names| - 1])
  {
    var answer;
    answer, trail := OpenConfinedRegularFile(run, root, relative);
    if answer.Err? || !answer.value.File? || denied { return later, false, trail; }
    var result := RemoveGuarded(later, answer.value.guard);
    if result.Err? { return later, false, trail; }
    return result.value, true, trail;
  }

  // ---- Against removing by path -------------------------------------------

  /** Entering a directory by name with links followed. */
  function Follow(t: Tree, d: Ino, name: string): Option<Ino> {
    match Entry(t, d, name)
    case Found(i, Directory(_)) => Some(i)
    case Found(_, Link(to)) => if HoldsDirectory(t, to) then Some(to) else None
    case _ => None
  }

  /** The directory a second walk of the path ends in, names from `k` on. */
  function WalkAgain(t: Tree, d: Ino, names: seq<string>, k: nat): Option<Ino>
    requires k < |names|
    decreases |names| - k
  {
    if k == |names| - 1 then Some(d)
    else
      var next := Follow(t, d, names[k]);
      if next.None? then None else WalkAgain(t, next.value, names, k + 1)
  }

  function RemoveByPath(t: Tree, start: Ino, names: seq<string>): Result<Tree>
    requires names != []
  {
    var d := WalkAgain(t, start, names, 0);
    if d.None? then Err else RemoveAt(t, d.value, names[|names| - 1])
  }

  ghost predicate Leads(t: Tree, d: Ino, name: string, i: Ino) {
    HoldsDirectory(t, d) && HoldsDirectory(t, i) && name in t[d].entries && t[d].entries[name] == i
  }

  /** The descent still stands in `t` as it was made. */
  ghost predicate StillStands(t: Tree, names: seq<string>, trail: seq<Ino>) {
    && names != [] && |trail| == |names|
    && forall k :: 1 <= k < |trail| ==> Leads(t, trail[k - 1], names[k - 1], trail[k])
  }

  lemma {:induction false} SecondWalkAgrees(t: Tree, names: seq<string>, trail: seq<Ino>, k: nat)
    requires StillStands(t, names, trail) && k < |names|
    ensures WalkAgain(t, trail[k], names, k) == Some(trail[|trail| - 1])
    decreases |names| - k
  {
    if k < |names| - 1 {
      assert Leads(t, trail[k + 1 - 1], names[k + 1 - 1], trail[k + 1]);
      assert Follow(t, trail[k], names[k]) == Some(trail[k + 1]);
      SecondWalkAgrees(t, names, trail, k + 1);
    }
  }

  /** While the descent stands, the two ways of removing are one. */
  lemma UndisturbedRemovalsAgree(run: Run, root: Root, names: seq<string>, trail: seq<Ino>, g: Guard, t: Tree)
    requires Confined(run, root, names, trail, g) && StillStands(t, names, trail)
    ensures RemoveByPath(t, trail[0], names) == RemoveGuarded(t, g)
  {
    SecondWalkAgrees(t, names, trail, 0);
  }

  /** The last directory on the way replaced by a link to `victim`. */
  function Swapped(t: Tree, names: seq<string>, trail: seq<Ino>, link: Ino, victim: Ino): Tree
    requires |names| == |trail| >= 2 && HoldsDirectory(t, trail[|trail| - 2])
  {
    var d := trail[|trail| - 2];
    t[link := Link(victim)][d := Directory(t[d].entries[names[|names| - 2] := link])]
  }

  ghost predicate Swappable(t: Tree, names: seq<string>, trail: seq<Ino>, link: Ino, victim: Ino) {
    && |names| >= 2 && StillStands(t, names, trail)
    && (forall j, k :: 0 <= j < k < |trail| ==> trail[j] != trail[k])
    && link !in t && victim !in trail && Removable(t, victim, names[|names| - 1])
    && HoldsDirectory(t, trail[|trail| - 2])
    && t[victim].entries[names[|names| - 1]] != link
  }

  lemma {:induction false} SwappedWalk(t: Tree, names: seq<string>, trail: seq<Ino>, link: Ino, victim: Ino, k: nat)
    requires Swappable(t, names, trail, link, victim) && k <= |names| - 2
    ensures WalkAgain(Swapped(t, names, trail, link, victim), trail[k], names, k) == Some(victim)
    decreases |names| - k
  {
    var t', n := Swapped(t, names, trail, link, victim), |names|;
    if k == n - 2 {
      assert t'[link] == Link(victim) && HoldsDirectory(t', victim);
      assert Follow(t', trail[k], names[k]) == Some(victim);
      assert WalkAgain(t', victim, names, n - 1) == Some(victim);
    } else {
      assert Leads(t, trail[k + 1 - 1], names[k + 1 - 1], trail[k + 1]);
      assert t'[trail[k]] == t[trail[k]];
      assert Follow(t', trail[k], names[k]) == Some(trail[k + 1]);
      SwappedWalk(t, names, trail, link, victim, k + 1);
    }
  }

  /** Why the guard matters: for every descent through at least one directory
      there is a swap after which removing by path deletes from a directory
      outside it, while removal by the guard leaves that one alone. */
  lemma SwapRedirectsOnlyThePath(
    run: Run, root: Root, names: seq<string>, trail: seq<Ino>, g: Guard, t: Tree, link: Ino, victim: Ino)
    requires Confined(run, root, names, trail, g) && Swappable(t, names, trail, link, victim)
    ensures var t' := Swapped(t, names, trail, link, victim);
      var byPath, guarded := RemoveByPath(t', trail[0], names), RemoveGuarded(t', g);
      && byPath.Ok? && OnlyEntryGone(t', byPath.value, victim, g.name)
      && (guarded.Ok? ==> guarded.value[victim] == t'[victim])
  {
    var t' := Swapped(t, names, trail, link, victim);
    SwappedWalk(t, names, trail, link, victim, 0);
    assert t'[victim] == t[victim];
    var i := t[victim].entries[g.name];
    assert i in t' ==> i in t;
  }
}
