/** What creating and removing by path do, said of lookups alone: which paths lead where afterwards,
    and exactly when each error is returned. */
module RamFsEffects {
  import opened Options
  import opened Paths
  import opened RamFs

  /** Walks the parts, with the error that stops the walk. */
  function Follow(fs: Fs, id: Id, parts: seq<string>): Result<Id>
    decreases |parts|
  {
    if parts == [] then Ok(id)
    else if !IsDir(fs, id) then Err(NotADirectory)
    else
      var node := Step(fs, id, parts[0]);
      if node.Err? then node else Follow(fs, node.value, parts[1..])
  }

  lemma {:induction false} LookupFollows(fs: Fs, id: Id, path: string)
    ensures Lookup(fs, id, path) == Follow(fs, id, Split(path))
    decreases |path|
  {
    hide Split, SplitPath, Step;
    PartsOf(path);
    if IsDir(fs, id) {
      if path != "" && path[0] == '/' {
        LeadingSlash(path);
        LookupFollows(fs, id, path[1..]);
        assert Split(path)[1..] == Split(path[1..]);
        StayHere(fs, id);
      } else {
        FirstPart(path);
        var (name, rest) := SplitPath(path);
        var tail := if rest.Some? then Split(rest.value) else [];
        assert Split(path)[1..] == tail;
        var node := Step(fs, id, name);
        if node.Ok? && rest.Some? {
          LookupFollows(fs, node.value, rest.value);
        }
      }
    }
  }

  lemma {:induction false} PartsOf(path: string)
    ensures |Split(path)| > 0
  {
  }

  /** The directory part of a path, and its last component. */
  function Front(path: string): seq<string> {
    PartsOf(path);
    Split(path)[..|Split(path)| - 1]
  }

  function Last(path: string): string {
    PartsOf(path);
    Split(path)[|Split(path)| - 1]
  }

  predicate IsDots(name: string) {
    name == "" || name == "." || name == ".."
  }

  /** The walk from `id` takes entry `name` of directory `d`. */
  predicate Takes(fs: Fs, id: Id, parts: seq<string>, d: Id, name: string)
    decreases |parts|
  {
    parts != [] && IsDir(fs, id) &&
      ((id == d && parts[0] == name)
       || (Step(fs, id, parts[0]).Ok? && Takes(fs, Step(fs, id, parts[0]).value, parts[1..], d, name)))
  }

  // ----- by path is by directory and name -----

  function CreateIn(fs: Fs, at: Result<Id>, name: string, ty: NodeType): (Fs, Result<()>) {
    if at.Err? then (fs, Err(at.error))
    else if !IsDir(fs, at.value) then (fs, Err(NotADirectory))
    else if IsDots(name) then (fs, Ok(()))
    else CreateNode(fs, at.value, name, ty)
  }

  function RemoveIn(fs: Fs, at: Result<Id>, name: string): (Fs, Result<()>) {
    if at.Err? then (fs, Err(at.error))
    else if !IsDir(fs, at.value) then (fs, Err(NotADirectory))
    else if IsDots(name) then (fs, Err(InvalidInput))
    else RemoveNode(fs, at.value, name)
  }

  /** One part less at the front. */
  lemma FrontStep(fs: Fs, id: Id, path: string, first: string, rest: string)
    requires Split(path) == [first] + Split(rest)
    ensures Front(path) == [first] + Front(rest) && Last(path) == Last(rest)
    ensures Follow(fs, id, Front(path)) ==
      if !IsDir(fs, id) then Err(NotADirectory)
      else if Step(fs, id, first).Err? then Step(fs, id, first)
      else Follow(fs, Step(fs, id, first).value, Front(rest))
  {
    hide Split, Step;
    PartsOf(rest);
    assert Front(path) == [first] + Front(rest);
    assert Front(path)[1..] == Front(rest);
  }

  lemma {:induction false} CreateEnds(fs: Fs, id: Id, path: string, ty: NodeType)
    ensures Create(fs, id, path, ty) == CreateIn(fs, Follow(fs, id, Front(path)), Last(path), ty)
    decreases |path|
  {
    hide Split, SplitPath, Step, CreateNode, Front, Last;
    if path != "" && path[0] == '/' {
      LeadingSlash(path);
      FrontStep(fs, id, path, "", path[1..]);
      if IsDir(fs, id) {
        CreateEnds(fs, id, path[1..], ty);
        StayHere(fs, id);
      }
    } else {
      FirstPart(path);
      var (name, rest) := SplitPath(path);
      if rest.Some? {
        FrontStep(fs, id, path, name, rest.value);
        if IsDir(fs, id) && Step(fs, id, name).Ok? {
          CreateEnds(fs, Step(fs, id, name).value, rest.value, ty);
        }
      } else {
        OnePart(path, name);
      }
    }
  }

  lemma {:induction false} RemoveEnds(fs: Fs, id: Id, path: string)
    ensures Remove(fs, id, path) == RemoveIn(fs, Follow(fs, id, Front(path)), Last(path))
    decreases |path|
  {
    hide Split, SplitPath, Step, RemoveNode, Front, Last;
    if path != "" && path[0] == '/' {
      LeadingSlash(path);
      FrontStep(fs, id, path, "", path[1..]);
      if IsDir(fs, id) {
        RemoveEnds(fs, id, path[1..]);
        StayHere(fs, id);
      }
    } else {
      FirstPart(path);
      var (name, rest) := SplitPath(path);
      if rest.Some? {
        FrontStep(fs, id, path, name, rest.value);
        if IsDir(fs, id) && Step(fs, id, name).Ok? {
          RemoveEnds(fs, Step(fs, id, name).value, rest.value);
        }
      } else {
        OnePart(path, name);
      }
    }
  }

  lemma OnePart(path: string, name: string)
    requires Split(path) == [name] + []
    ensures Front(path) == [] && Last(path) == name
  {
    hide Split;
  }

  lemma {:induction false} FollowAppend(fs: Fs, id: Id, p: seq<string>, q: seq<string>)
    ensures Follow(fs, id, p + q)
         == (var mid := Follow(fs, id, p); if mid.Err? then mid else Follow(fs, mid.value, q))
    decreases |p|
  {
    if p == [] {
      assert p + q == q;
    } else {
      assert (p + q)[1..] == p[1..] + q;
      if IsDir(fs, id) && Step(fs, id, p[0]).Ok? {
        FollowAppend(fs, Step(fs, id, p[0]).value, p[1..], q);
      }
    }
  }

  /** Looking a path up is following its front, then taking its last component. */
  lemma LookupEnds(fs: Fs, dir: Id, path: string)
    ensures Lookup(fs, dir, path)
         == (var at := Follow(fs, dir, Front(path));
             if at.Err? then at
             else if !IsDir(fs, at.value) then Err(NotADirectory)
             else Step(fs, at.value, Last(path)))
  {
    hide Split, Step, Lookup;
    PartsOf(path);
    LookupFollows(fs, dir, path);
    assert Split(path) == Front(path) + [Last(path)];
    FollowAppend(fs, dir, Front(path), [Last(path)]);
    assert [Last(path)][1..] == [];
  }

  // ----- creating -----

  /** A new node hangs in `d` under `name`: a file, or an empty directory whose parent is `d`. */
  ghost predicate Hangs(fs: Fs, fs': Fs, d: Id, name: string, n: Id, directory: bool) {
    && n !in fs.nodes && n in fs'.nodes && IsDir(fs', d) && Step(fs', d, name) == Ok(n)
    && (IsDir(fs', n) <==> directory)
    && (directory ==> Step(fs', n, "..") == Ok(d) && forall part | !IsDots(part) :: Step(fs', n, part) == Err(NotFound))
    && (forall i | i in fs.nodes :: i in fs'.nodes && IsDir(fs', i) == IsDir(fs, i))
    && (forall i, part | IsDir(fs, i) && !(i == d && part == name) :: IsDir(fs', i) && Step(fs', i, part) == Step(fs, i, part))
  }

  lemma NodeHangs(fs: Fs, d: Id, name: string, ty: NodeType)
    requires Tree(fs) && IsDir(fs, d) && !IsDots(name) && CreateNode(fs, d, name, ty).1.Ok?
    ensures Hangs(fs, CreateNode(fs, d, name, ty).0, d, name, fs.next, ty == DirType)
  {
  }

  lemma StepStays(fs: Fs, id: Id, part: string)
    requires Tree(fs) && IsDir(fs, id) && Step(fs, id, part).Ok?
    ensures Step(fs, id, part).value in fs.nodes
  {
    if !IsDots(part) {
      assert Holds(fs, id, part, Step(fs, id, part).value);
    }
  }

  /** Walks that do not take the new entry go where they went. */
  lemma {:induction false} HangsElsewhere(fs: Fs, fs': Fs, d: Id, name: string, n: Id, directory: bool, x: Id, q: seq<string>)
    requires Tree(fs) && Hangs(fs, fs', d, name, n, directory) && x in fs.nodes && !Takes(fs, x, q, d, name)
    ensures Follow(fs', x, q) == Follow(fs, x, q)
    decreases |q|
  {
    hide Tree, Step;
    if q != [] && IsDir(fs, x) && Step(fs, x, q[0]).Ok? {
      StepStays(fs, x, q[0]);
      HangsElsewhere(fs, fs', d, name, n, directory, Step(fs, x, q[0]).value, q[1..]);
    }
  }

  /** A walk that ends does not take an entry that is not there. */
  lemma {:induction false} TakesNothing(fs: Fs, x: Id, q: seq<string>, d: Id, name: string)
    requires IsDir(fs, d) && Step(fs, d, name).Err? && Follow(fs, x, q).Ok?
    ensures !Takes(fs, x, q, d, name)
    decreases |q|
  {
    if q != [] {
      TakesNothing(fs, Step(fs, x, q[0]).value, q[1..], d, name);
    }
  }

  /** Which answer `create` gives, in terms of lookups. */
  function CreateAnswer(fs: Fs, dir: Id, path: string, ty: NodeType): Result<()> {
    var at := Follow(fs, dir, Front(path));
    if at.Err? then Err(at.error)
    else if !IsDir(fs, at.value) then Err(NotADirectory)
    else if IsDots(Last(path)) then Ok(())
    else if Lookup(fs, dir, path).Ok? then Err(AlreadyExists)
    else if ty == OtherType then Err(Unsupported)
    else Ok(())
  }

  lemma CreateAnswers(fs: Fs, dir: Id, path: string, ty: NodeType)
    ensures Create(fs, dir, path, ty).1 == CreateAnswer(fs, dir, path, ty)
    ensures Create(fs, dir, path, ty).1.Err? || IsDots(Last(path)) ==> Create(fs, dir, path, ty).0 == fs
  {
    hide Follow, Front, Last, Create, Lookup;
    CreateEnds(fs, dir, path, ty);
    LookupEnds(fs, dir, path);
  }

  /** After a successful creation the path leads to a new node of the type asked for, an empty
      directory or a file; every walk that does not take that entry goes where it went. */
  lemma Creates(fs: Fs, dir: Id, path: string, ty: NodeType, x: Id, q: seq<string>)
    requires Tree(fs) && Create(fs, dir, path, ty).1.Ok? && !IsDots(Last(path))
    ensures var fs', at := Create(fs, dir, path, ty).0, Follow(fs, dir, Front(path));
      && at.Ok? && Lookup(fs', dir, path).Ok?
      && var n := Lookup(fs', dir, path).value;
      && n !in fs.nodes && n in fs'.nodes && (IsDir(fs', n) <==> ty == DirType)
      && (IsDir(fs', n) ==> Follow(fs', n, [".."]) == at && forall part | !IsDots(part) :: Follow(fs', n, [part]) == Err(NotFound))
    ensures var fs', at := Create(fs, dir, path, ty).0, Follow(fs, dir, Front(path)).value;
      x in fs.nodes ==>
        && x in fs'.nodes && IsDir(fs', x) == IsDir(fs, x)
        && (!Takes(fs, x, q, at, Last(path)) ==> Follow(fs', x, q) == Follow(fs, x, q))
  {
    hide Tree, Front, Last, Create, CreateNode, Step, Lookup;
    CreateEnds(fs, dir, path, ty);
    var at, name, fs' := Follow(fs, dir, Front(path)).value, Last(path), Create(fs, dir, path, ty).0;
    NodeHangs(fs, at, name, ty);
    Missing(fs, at, name, ty);
    TakesNothing(fs, dir, Front(path), at, name);
    Starts(fs, dir, Front(path));
    HangsElsewhere(fs, fs', at, name, fs.next, ty == DirType, dir, Front(path));
    LookupEnds(fs', dir, path);
    if x in fs.nodes && !Takes(fs, x, q, at, name) {
      HangsElsewhere(fs, fs', at, name, fs.next, ty == DirType, x, q);
    }
    hide Takes;
    forall part: string ensures Follow(fs', fs.next, [part])
      == if IsDir(fs', fs.next) then Step(fs', fs.next, part) else Err(NotADirectory)
    {
      assert [part][1..] == [];
    }
  }

  lemma Missing(fs: Fs, d: Id, name: string, ty: NodeType)
    requires IsDir(fs, d) && !IsDots(name) && CreateNode(fs, d, name, ty).1.Ok?
    ensures Step(fs, d, name).Err? && ty != OtherType
  {
  }

  lemma Starts(fs: Fs, x: Id, q: seq<string>)
    requires Follow(fs, x, q).Ok? && IsDir(fs, Follow(fs, x, q).value)
    ensures x in fs.nodes
  {
  }

  // ----- removing -----

  /** Entry `name` is gone from `d`, and nothing else has changed. */
  ghost predicate Cut(fs: Fs, fs': Fs, d: Id, name: string) {
    && IsDir(fs', d) && Step(fs', d, name) == Err(NotFound)
    && (forall i: Id :: IsDir(fs', i) == IsDir(fs, i))
    && (forall i, part | IsDir(fs, i) && !(i == d && part == name) :: IsDir(fs', i) && Step(fs', i, part) == Step(fs, i, part))
  }

  lemma NodeCut(fs: Fs, d: Id, name: string)
    requires IsDir(fs, d) && !IsDots(name) && RemoveNode(fs, d, name).1.Ok?
    ensures Cut(fs, RemoveNode(fs, d, name).0, d, name)
  {
  }

  lemma {:induction false} CutWalks(fs: Fs, fs': Fs, d: Id, name: string, x: Id, q: seq<string>)
    requires Cut(fs, fs', d, name)
    ensures Follow(fs', x, q) == if Takes(fs, x, q, d, name) then Err(NotFound) else Follow(fs, x, q)
    decreases |q|
  {
    hide Step;
    if q != [] && IsDir(fs, x) && !(x == d && q[0] == name) && Step(fs, x, q[0]).Ok? {
      CutWalks(fs, fs', d, name, Step(fs, x, q[0]).value, q[1..]);
    }
  }

  /** Which answer `remove` gives, in terms of lookups. */
  ghost function RemoveAnswer(fs: Fs, dir: Id, path: string): Result<()> {
    var at := Follow(fs, dir, Front(path));
    if at.Err? then Err(at.error)
    else if !IsDir(fs, at.value) then Err(NotADirectory)
    else if IsDots(Last(path)) then Err(InvalidInput)
    else if Lookup(fs, dir, path).Err? then Err(NotFound)
    else if exists part, y :: Holds(fs, Lookup(fs, dir, path).value, part, y) then Err(DirectoryNotEmpty)
    else Ok(())
  }

  lemma RemoveAnswers(fs: Fs, dir: Id, path: string)
    ensures Remove(fs, dir, path).1 == RemoveAnswer(fs, dir, path)
    ensures Remove(fs, dir, path).1.Err? ==> Remove(fs, dir, path).0 == fs
  {
    hide Follow, Front, Last, Remove, Lookup, RemoveNode;
    RemoveEnds(fs, dir, path);
    LookupEnds(fs, dir, path);
    var at := Follow(fs, dir, Front(path));
    if at.Ok? && IsDir(fs, at.value) && !IsDots(Last(path)) {
      RemoveNodeAnswers(fs, at.value, Last(path));
    }
  }

  lemma RemoveNodeAnswers(fs: Fs, d: Id, name: string)
    requires IsDir(fs, d) && !IsDots(name)
    ensures var node, (fs', r) := Step(fs, d, name), RemoveNode(fs, d, name);
      && (node.Err? ==> r == Err(NotFound))
      && (node.Ok? ==> r == if exists part, y :: Holds(fs, node.value, part, y) then Err(DirectoryNotEmpty) else Ok(()))
      && (r.Err? ==> fs' == fs)
  {
    var node := Step(fs, d, name);
    if node.Ok? && IsDir(fs, node.value) && fs.nodes[node.value].children != map[] {
      var part :| part in fs.nodes[node.value].children;
      assert Holds(fs, node.value, part, fs.nodes[node.value].children[part]);
    }
  }

  /** After a successful removal every walk that took the entry is stopped there, and every other
      goes where it went; in particular the path is not found. */
  lemma Removes(fs: Fs, dir: Id, path: string, x: Id, q: seq<string>)
    requires Remove(fs, dir, path).1.Ok?
    ensures var fs', at := Remove(fs, dir, path).0, Follow(fs, dir, Front(path));
      && at.Ok? && Lookup(fs', dir, path) == Err(NotFound) && IsDir(fs', x) == IsDir(fs, x)
      && Follow(fs', x, q) == if Takes(fs, x, q, at.value, Last(path)) then Err(NotFound) else Follow(fs, x, q)
  {
    hide Front, Last, Remove, RemoveNode, Step, Lookup;
    RemoveEnds(fs, dir, path);
    var at, name, fs' := Follow(fs, dir, Front(path)).value, Last(path), Remove(fs, dir, path).0;
    NodeCut(fs, at, name);
    CutWalks(fs, fs', at, name, x, q);
    CutWalks(fs, fs', at, name, dir, Front(path));
    LookupEnds(fs', dir, path);
    hide Takes, Follow;
  }

  // ----- the death of a node -----

  /** A node that no directory holds goes when its last handle does; then two dots lead to it no more,
      and everything else stays. The root and held nodes stay. */
  lemma Forgets(fs: Fs, id: Id, x: Id, part: string)
    requires Tree(fs)
    ensures var fs' := Forget(fs, id);
      if id == ROOT || exists d, name :: Holds(fs, d, name, id) then fs' == fs
      else
        && (x in fs'.nodes <==> x in fs.nodes && x != id)
        && (IsDir(fs, x) && x != id ==>
              IsDir(fs', x) && Step(fs', x, part) == if Step(fs, x, part) == Ok(id) then Err(NotFound) else Step(fs, x, part))
  {
    HeldExactly(fs, id);
    if IsDir(fs, x) && part in fs.nodes[x].children {
      assert Holds(fs, x, part, fs.nodes[x].children[part]);
    }
    hide IsHeld;
  }

  lemma HeldExactly(fs: Fs, id: Id)
    ensures IsHeld(fs, id) <==> exists d, name :: Holds(fs, d, name, id)
  {
    if exists d, name :: Holds(fs, d, name, id) {
      var d, name :| Holds(fs, d, name, id);
      assert id in fs.nodes[d].children.Values;
    }
    if IsHeld(fs, id) {
      var d :| d in fs.nodes && fs.nodes[d].Dir? && id in fs.nodes[d].children.Values;
      var name :| name in fs.nodes[d].children && fs.nodes[d].children[name] == id;
      assert Holds(fs, d, name, id);
    }
  }
}
