/** The RAM filesystem: directories that map names to nodes and know their parent, looked up,
    created and removed by path, and how lookup relates to canonical paths. */
module RamFs {
  import opened Options
  import opened Paths

  type Id = nat

  const ROOT: Id := 0

  datatype Node = File | Dir(parent: Option<Id>, children: map<string, Id>)

  /** All nodes ever made, by number; `next` is the number of the next one. */
  datatype Fs = Fs(nodes: map<Id, Node>, next: Id)

  datatype NodeType = FileType | DirType | OtherType

  datatype VfsError = NotFound | NotADirectory | AlreadyExists | DirectoryNotEmpty | InvalidInput | Unsupported

  datatype Result<+T> = Ok(value: T) | Err(error: VfsError)

  predicate IsDir(fs: Fs, id: Id) {
    id in fs.nodes && fs.nodes[id].Dir?
  }

  // ----- paths -----

  function TrimStart(path: string): (r: string)
    ensures |r| <= |path|
  {
    if path != "" && path[0] == '/' then TrimStart(path[1..]) else path
  }

  /** First component, and what follows its slash if it has one. */
  function SplitPath(path: string): (r: (string, Option<string>))
    ensures r.1.Some? ==> |r.1.value| < |path|
  {
    var trimmed := TrimStart(path);
    var n := FindSlash(trimmed);
    if n == |trimmed| then (trimmed, None) else (trimmed[..n], Some(trimmed[n + 1..]))
  }

  /** The node that one component leads to. A parent link is weak: it leads nowhere once the
      parent is gone. */
  function Step(fs: Fs, id: Id, name: string): Result<Id>
    requires IsDir(fs, id)
  {
    if name == "" || name == "." then Ok(id)
    else if name == ".." then
      if fs.nodes[id].parent.Some? && fs.nodes[id].parent.value in fs.nodes then Ok(fs.nodes[id].parent.value)
      else Err(NotFound)
    else if name in fs.nodes[id].children then Ok(fs.nodes[id].children[name])
    else Err(NotFound)
  }

  function Lookup(fs: Fs, id: Id, path: string): Result<Id>
    decreases |path|
  {
    if !IsDir(fs, id) then Err(NotADirectory)
    else
      var (name, rest) := SplitPath(path);
      var node := Step(fs, id, name);
      if node.Err? || rest.None? then node else Lookup(fs, node.value, rest.value)
  }

  // ----- creating and removing -----

  function CreateNode(fs: Fs, id: Id, name: string, ty: NodeType): (Fs, Result<()>)
    requires IsDir(fs, id)
  {
    var dir := fs.nodes[id];
    if name in dir.children then (fs, Err(AlreadyExists))
    else if ty == OtherType then (fs, Err(Unsupported))
    else
      var node := if ty == FileType then File else Dir(Some(id), map[]);
      (Fs(fs.nodes[fs.next := node][id := Dir(dir.parent, dir.children[name := fs.next])], fs.next + 1), Ok(()))
  }

  function RemoveNode(fs: Fs, id: Id, name: string): (Fs, Result<()>)
    requires IsDir(fs, id)
  {
    var dir := fs.nodes[id];
    if name !in dir.children then (fs, Err(NotFound))
    else
      var node := dir.children[name];
      if IsDir(fs, node) && fs.nodes[node].children != map[] then (fs, Err(DirectoryNotEmpty))
      else (fs.(nodes := fs.nodes[id := Dir(dir.parent, dir.children - {name})]), Ok(()))
  }

  function Create(fs: Fs, id: Id, path: string, ty: NodeType): (Fs, Result<()>)
    decreases |path|
  {
    if !IsDir(fs, id) then (fs, Err(NotADirectory))
    else
      var (name, rest) := SplitPath(path);
      if rest.Some? then
        var node := Step(fs, id, name);
        if node.Err? then (fs, Err(node.error)) else Create(fs, node.value, rest.value, ty)
      else if name == "" || name == "." || name == ".." then (fs, Ok(()))
      else CreateNode(fs, id, name, ty)
  }

  function Remove(fs: Fs, id: Id, path: string): (Fs, Result<()>)
    decreases |path|
  {
    if !IsDir(fs, id) then (fs, Err(NotADirectory))
    else
      var (name, rest) := SplitPath(path);
      if rest.Some? then
        var node := Step(fs, id, name);
        if node.Err? then (fs, Err(node.error)) else Remove(fs, node.value, rest.value)
      else if name == "" || name == "." || name == ".." then (fs, Err(InvalidInput))
      else RemoveNode(fs, id, name)
  }

  predicate IsHeld(fs: Fs, id: Id) {
    exists d | d in fs.nodes :: fs.nodes[d].Dir? && id in fs.nodes[d].children.Values
  }

  /** The last handle to a node that no directory holds goes away, and the node with it. */
  function Forget(fs: Fs, id: Id): Fs {
    if id == ROOT || IsHeld(fs, id) then fs else fs.(nodes := fs.nodes - {id})
  }

  // ----- the tree -----

  /** Directory `d` holds node `c` under `name`. */
  predicate Holds(fs: Fs, d: Id, name: string, c: Id) {
    IsDir(fs, d) && name in fs.nodes[d].children && fs.nodes[d].children[name] == c
  }

  /** The root has no parent and is held by nobody; every held node exists, is held once, and
      if it is a directory its parent link names its holder. Numbers are not used again. */
  ghost predicate Tree(fs: Fs) {
    && IsDir(fs, ROOT) && fs.nodes[ROOT].parent == None
    && (forall i | i in fs.nodes :: i < fs.next)
    && (forall i | IsDir(fs, i) && fs.nodes[i].parent.Some? :: fs.nodes[i].parent.value < fs.next)
    && (forall d: Id, name, c: Id | Holds(fs, d, name, c) :: c in fs.nodes && c != ROOT)
    && (forall d: Id, name, c: Id | Holds(fs, d, name, c) && IsDir(fs, c) :: fs.nodes[c].parent == Some(d))
    && (forall d: Id, name, d': Id, name', c: Id | Holds(fs, d, name, c) && Holds(fs, d', name', c) :: d == d' && name == name')
  }

  lemma CreateNodeTree(fs: Fs, id: Id, name: string, ty: NodeType)
    requires Tree(fs) && IsDir(fs, id)
    ensures Tree(CreateNode(fs, id, name, ty).0)
  {
    var fs' := CreateNode(fs, id, name, ty).0;
    if fs' != fs {
      forall d: Id, n, c: Id | Holds(fs', d, n, c) ensures Holds(fs, d, n, c) || (d == id && n == name && c == fs.next) {
      }
    }
  }

  lemma RemoveNodeTree(fs: Fs, id: Id, name: string)
    requires Tree(fs) && IsDir(fs, id)
    ensures Tree(RemoveNode(fs, id, name).0)
  {
    var fs' := RemoveNode(fs, id, name).0;
    forall d: Id, n, c: Id | Holds(fs', d, n, c) ensures Holds(fs, d, n, c) {
    }
  }

  lemma ForgetTree(fs: Fs, id: Id)
    requires Tree(fs)
    ensures Tree(Forget(fs, id))
  {
    var fs' := Forget(fs, id);
    forall d: Id, n, c: Id | Holds(fs', d, n, c) ensures Holds(fs, d, n, c) && c in fs'.nodes && fs'.nodes[c] == fs.nodes[c] {
      assert Holds(fs, d, n, c);
      assert c in fs.nodes[d].children.Values;
      assert fs' != fs ==> c != id;
    }
  }

  lemma CreateTree(fs: Fs, id: Id, path: string, ty: NodeType)
    requires Tree(fs)
    ensures Tree(Create(fs, id, path, ty).0)
    decreases |path|
  {
    hide Tree, CreateNode;
    if IsDir(fs, id) {
      var (name, rest) := SplitPath(path);
      if rest.Some? {
        var node := Step(fs, id, name);
        if node.Ok? {
          CreateTree(fs, node.value, rest.value, ty);
        }
      } else {
        CreateNodeTree(fs, id, name, ty);
      }
    }
  }

  lemma RemoveTree(fs: Fs, id: Id, path: string)
    requires Tree(fs)
    ensures Tree(Remove(fs, id, path).0)
    decreases |path|
  {
    hide Tree, RemoveNode;
    if IsDir(fs, id) {
      var (name, rest) := SplitPath(path);
      if rest.Some? {
        var node := Step(fs, id, name);
        if node.Ok? {
          RemoveTree(fs, node.value, rest.value);
        }
      } else {
        RemoveNodeTree(fs, id, name);
      }
    }
  }

  // ----- lookup goes component by component -----

  /** Follows the parts one by one; only a directory can be left through a further part. */
  function WalkParts(fs: Fs, id: Id, parts: seq<string>): Option<Id>
    decreases |parts|
  {
    if parts == [] then Some(id)
    else if !IsDir(fs, id) then None
    else
      var node := Step(fs, id, parts[0]);
      if node.Err? then None else WalkParts(fs, node.value, parts[1..])
  }

  function AsOption(r: Result<Id>): Option<Id> {
    if r.Ok? then Some(r.value) else None
  }

  lemma {:induction false} LeadingSlash(path: string)
    requires path != "" && path[0] == '/'
    ensures Split(path) == [""] + Split(path[1..]) && SplitPath(path) == SplitPath(path[1..])
  {
    hide Split, SplitPath;
    SlashSplits(path);
    SlashTrims(path);
  }

  lemma {:induction false} SlashTrims(path: string)
    requires path != "" && path[0] == '/'
    ensures SplitPath(path) == SplitPath(path[1..])
  {
    hide FindSlash;
    assert TrimStart(path) == TrimStart(path[1..]);
    hide TrimStart;
  }

  lemma {:induction false} SlashSplits(path: string)
    requires path != "" && path[0] == '/'
    ensures Split(path) == [""] + Split(path[1..])
  {
    assert FindSlash(path) == 0 && path[..0] == "";
    hide FindSlash;
  }

  lemma FirstPart(path: string)
    requires path == "" || path[0] != '/'
    ensures var (name, rest) := SplitPath(path);
            Split(path) == [name] + (if rest.Some? then Split(rest.value) else [])
  {
  }

  /** Looking a path up is walking the parts between its slashes. */
  lemma LookupWalks(fs: Fs, id: Id, path: string)
    ensures WalkParts(fs, id, Split(path)) == AsOption(Lookup(fs, id, path))
    decreases |path|
  {
    hide Split, SplitPath, Step;
    if IsDir(fs, id) {
      if path != "" && path[0] == '/' {
        LeadingSlash(path);
        LookupWalks(fs, id, path[1..]);
        assert Split(path)[1..] == Split(path[1..]);
        StayHere(fs, id);
      } else {
        FirstPart(path);
        var (name, rest) := SplitPath(path);
        var tail := if rest.Some? then Split(rest.value) else [];
        assert Split(path)[1..] == tail;
        var node := Step(fs, id, name);
        if node.Ok? && rest.Some? {
          LookupWalks(fs, node.value, rest.value);
        }
      }
    }
  }

  lemma StayHere(fs: Fs, id: Id)
    requires IsDir(fs, id)
    ensures Step(fs, id, "") == Ok(id)
  {
  }

  lemma WalkAppend(fs: Fs, id: Id, p: seq<string>, q: seq<string>)
    ensures WalkParts(fs, id, p + q)
         == (var mid := WalkParts(fs, id, p);
             if mid.None? then None else WalkParts(fs, mid.value, q))
    decreases |p|
  {
    if p == [] {
      assert p + q == q;
    } else {
      assert (p + q)[1..] == p[1..] + q;
      if IsDir(fs, id) && Step(fs, id, p[0]).Ok? {
        WalkAppend(fs, Step(fs, id, p[0]).value, p[1..], q);
      }
    }
  }

  /** If the open components lead to `id` and the parts lead on to `node`, then the components
      open after the parts lead to `node`: two dots really undo the component before them. */
  lemma ProcessWalks(fs: Fs, stack: seq<string>, id: Id, parts: seq<string>, node: Id)
    requires Tree(fs) && AllNames(stack) && (forall i | 0 <= i < |parts| :: '/' !in parts[i])
    requires WalkParts(fs, ROOT, stack) == Some(id) && WalkParts(fs, id, parts) == Some(node)
    ensures WalkParts(fs, ROOT, Process(stack, parts)) == Some(node) && AllNames(Process(stack, parts))
    decreases |parts|
  {
    if parts != [] {
      var part := parts[0];
      var next := Step(fs, id, part).value;
      if part == "" || part == "." {
        ProcessWalks(fs, stack, id, parts[1..], node);
      } else if part == ".." {
        UpUndoes(fs, stack, id);
        ProcessWalks(fs, stack[..|stack| - 1], next, parts[1..], node);
      } else {
        WalkAppend(fs, ROOT, stack, [part]);
        ProcessWalks(fs, stack + [part], next, parts[1..], node);
      }
    }
  }

  lemma UpUndoes(fs: Fs, stack: seq<string>, id: Id)
    requires Tree(fs) && AllNames(stack) && WalkParts(fs, ROOT, stack) == Some(id)
    requires IsDir(fs, id) && fs.nodes[id].parent.Some?
    ensures stack != [] && WalkParts(fs, ROOT, stack[..|stack| - 1]) == fs.nodes[id].parent
  {
    if stack != [] {
      var rest, name := stack[..|stack| - 1], stack[|stack| - 1];
      assert stack == rest + [name];
      WalkAppend(fs, ROOT, rest, [name]);
      var d := WalkParts(fs, ROOT, rest).value;
      assert Holds(fs, d, name, id);
    }
  }

  /** Looking up the canonical path finds the same node, whenever the path itself leads anywhere. */
  lemma CanonicalLookup(fs: Fs, path: string)
    requires Tree(fs) && Lookup(fs, ROOT, path).Ok?
    ensures Lookup(fs, ROOT, Canonical(path)) == Lookup(fs, ROOT, path)
  {
    hide Tree;
    var parts := Split(path);
    var node := Lookup(fs, ROOT, path).value;
    LookupWalks(fs, ROOT, path);
    SplitParts(path);
    ProcessWalks(fs, [], ROOT, parts, node);
    var stack := Process([], parts);
    CanonicalParts(path != "" && path[0] == '/', stack);
    LookupWalks(fs, ROOT, Canonical(path));
    RootStays(fs, stack, path != "" && path[0] == '/');
  }

  // ----- when a path leads anywhere -----

  /** The open components after one more part. */
  function Opened(stack: seq<string>, part: string): seq<string> {
    if part == "" || part == "." then stack
    else if part == ".." then if stack == [] then [] else stack[..|stack| - 1]
    else stack + [part]
  }

  /** Wherever the path has an empty part, a dot or two dots, the open components lead from the
      root to a directory, and two dots have a component to undo. */
  ghost predicate Passable(fs: Fs, stack: seq<string>, parts: seq<string>)
    decreases |parts|
  {
    parts != [] ==>
      && (parts[0] == "" || parts[0] == "." || parts[0] == ".." ==>
            var at := WalkParts(fs, ROOT, stack); at.Some? && IsDir(fs, at.value))
      && (parts[0] == ".." ==> stack != [])
      && Passable(fs, Opened(stack, parts[0]), parts[1..])
  }

  /** Opening one more part leads where the part leads from where the open components do. */
  lemma OpenedWalks(fs: Fs, stack: seq<string>, id: Id, part: string)
    requires Tree(fs) && AllNames(stack) && '/' !in part && WalkParts(fs, ROOT, stack) == Some(id)
    requires part == "" || part == "." || part == ".." ==> IsDir(fs, id) && (part == ".." ==> stack != [])
    ensures AllNames(Opened(stack, part))
    ensures WalkParts(fs, ROOT, Opened(stack, part)) == WalkParts(fs, id, [part])
  {
    if part == ".." {
      HasParent(fs, stack, id);
      UpUndoes(fs, stack, id);
    } else if part != "" && part != "." {
      WalkAppend(fs, ROOT, stack, [part]);
    }
  }

  lemma HasParent(fs: Fs, stack: seq<string>, id: Id)
    requires Tree(fs) && AllNames(stack) && stack != [] && WalkParts(fs, ROOT, stack) == Some(id) && IsDir(fs, id)
    ensures fs.nodes[id].parent.Some? && fs.nodes[id].parent.value in fs.nodes
  {
    var rest, name := stack[..|stack| - 1], stack[|stack| - 1];
    assert stack == rest + [name];
    WalkAppend(fs, ROOT, rest, [name]);
    var d := WalkParts(fs, ROOT, rest).value;
    assert IsName(name);
    assert Holds(fs, d, name, id);
  }

  /** A stack that leads nowhere stays so while the path is passable: only names follow. */
  lemma {:induction false} BrokenStays(fs: Fs, stack: seq<string>, parts: seq<string>)
    requires WalkParts(fs, ROOT, stack) == None && Passable(fs, stack, parts)
    ensures WalkParts(fs, ROOT, Process(stack, parts)) == None
    decreases |parts|
  {
    if parts != [] {
      WalkAppend(fs, ROOT, stack, [parts[0]]);
      BrokenStays(fs, stack + [parts[0]], parts[1..]);
    }
  }

  lemma {:induction false} WalksExactly(fs: Fs, stack: seq<string>, id: Id, parts: seq<string>)
    requires Tree(fs) && AllNames(stack) && (forall i | 0 <= i < |parts| :: '/' !in parts[i])
    requires WalkParts(fs, ROOT, stack) == Some(id)
    ensures WalkParts(fs, id, parts).Some? <==>
              Passable(fs, stack, parts) && WalkParts(fs, ROOT, Process(stack, parts)).Some?
    decreases |parts|
  {
    hide Tree, Step;
    if parts != [] {
      var part := parts[0];
      assert Process(stack, parts) == Process(Opened(stack, part), parts[1..]);
      assert parts == [part] + parts[1..];
      WalkAppend(fs, id, [part], parts[1..]);
      if part == "" || part == "." || part == ".." ==> IsDir(fs, id) && (part == ".." ==> stack != []) {
        OpenedWalks(fs, stack, id, part);
        var next := WalkParts(fs, id, [part]);
        if next.Some? {
          WalksExactly(fs, Opened(stack, part), next.value, parts[1..]);
        } else if Passable(fs, stack, parts) {
          BrokenStays(fs, Opened(stack, part), parts[1..]);
        }
      } else if part == ".." && IsDir(fs, id) {
        AboveRoot(fs);
      }
    }
  }

  lemma AboveRoot(fs: Fs)
    requires Tree(fs)
    ensures WalkParts(fs, ROOT, [".."]) == None
  {
  }

  /** A path leads somewhere exactly if it is passable and its canonical form leads somewhere. */
  lemma LookupExactly(fs: Fs, path: string)
    requires Tree(fs)
    ensures Lookup(fs, ROOT, path).Ok? <==> Passable(fs, [], Split(path)) && Lookup(fs, ROOT, Canonical(path)).Ok?
  {
    hide Tree, Passable, Lookup, Split;
    var parts, absolute := Split(path), path != "" && path[0] == '/';
    var stack := Process([], parts);
    LookupWalks(fs, ROOT, path);
    LookupWalks(fs, ROOT, Canonical(path));
    SplitParts(path);
    ProcessKeepsNames([], parts);
    WalksExactly(fs, [], ROOT, parts);
    CanonicalParts(absolute, stack);
    RootStays(fs, stack, absolute);
  }

  lemma RootStays(fs: Fs, stack: seq<string>, absolute: bool)
    requires Tree(fs)
    ensures WalkParts(fs, ROOT, (if absolute then [""] else []) + (if stack == [] then [""] else stack))
         == WalkParts(fs, ROOT, stack)
  {
    hide Tree;
    RootIsDir(fs);
    var tail := if stack == [] then [""] else stack;
    assert WalkParts(fs, ROOT, [""]) == Some(ROOT);
    WalkAppend(fs, ROOT, [""], tail);
    assert [] + tail == tail;
  }

  lemma RootIsDir(fs: Fs)
    requires Tree(fs)
    ensures IsDir(fs, ROOT)
  {
  }

  // ----- every run -----

  datatype Op = CreateAt(dir: Id, path: string, ty: NodeType) | RemoveAt(dir: Id, path: string) | ForgetNode(id: Id)

  function Apply(fs: Fs, op: Op): Fs {
    match op
    case CreateAt(dir, path, ty) => Create(fs, dir, path, ty).0
    case RemoveAt(dir, path) => Remove(fs, dir, path).0
    case ForgetNode(id) => Forget(fs, id)
  }

  function Run(fs: Fs, ops: seq<Op>): Fs
    decreases |ops|
  {
    if ops == [] then fs else Run(Apply(fs, ops[0]), ops[1..])
  }

  /** A filesystem that is not mounted anywhere: an empty root without a parent. */
  const Empty: Fs := Fs(map[ROOT := Dir(None, map[])], ROOT + 1)

  lemma {:induction false} RunTree(fs: Fs, ops: seq<Op>)
    requires Tree(fs)
    ensures Tree(Run(fs, ops))
    decreases |ops|
  {
    hide Tree;
    if ops != [] {
      match ops[0] {
        case CreateAt(dir, path, ty) => CreateTree(fs, dir, path, ty);
        case RemoveAt(dir, path) => RemoveTree(fs, dir, path);
        case ForgetNode(id) => ForgetTree(fs, id);
      }
      RunTree(Apply(fs, ops[0]), ops[1..]);
    }
  }

  /** After every run of creations, removals and last handles let go, in any directories, the parent link of a held
      directory is the one directory that holds it, and a canonical path leads where the path does. */
  lemma EveryRun(ops: seq<Op>, path: string, d: Id, name: string, d': Id, name': string, c: Id)
    ensures var fs := Run(Empty, ops);
            && (Holds(fs, d, name, c) && IsDir(fs, c) ==> fs.nodes[c].parent == Some(d))
            && (Holds(fs, d, name, c) && Holds(fs, d', name', c) ==> d == d' && name == name')
            && (Lookup(fs, ROOT, path).Ok? ==> Lookup(fs, ROOT, Canonical(path)) == Lookup(fs, ROOT, path))
            && (Lookup(fs, ROOT, path).Ok? <==> Passable(fs, [], Split(path)) && Lookup(fs, ROOT, Canonical(path)).Ok?)
  {
    RunTree(Empty, ops);
    var fs := Run(Empty, ops);
    hide Run;
    LookupExactly(fs, path);
    if Lookup(fs, ROOT, path).Ok? {
      CanonicalLookup(fs, path);
    }
  }

  /** The converse fails, at the root and after a name that is not there. */
  lemma CanonicalFindsMore(fs: Fs)
    requires Tree(fs)
    ensures Lookup(fs, ROOT, "/..") == Err(NotFound) && Lookup(fs, ROOT, Canonical("/..")) == Ok(ROOT)
    ensures "a" !in fs.nodes[ROOT].children ==>
              Lookup(fs, ROOT, "/a/..").Err? && Lookup(fs, ROOT, Canonical("/a/..")) == Ok(ROOT)
  {
    TwoDotsAtRoot(fs);
    if "a" !in fs.nodes[ROOT].children {
      Detour(fs);
    }
  }

  /** A missing directory, left again through two dots. */
  lemma Detour(fs: Fs)
    requires Tree(fs) && "a" !in fs.nodes[ROOT].children
    ensures Lookup(fs, ROOT, "/a/..").Err? && Lookup(fs, ROOT, Canonical("/a/..")) == Ok(ROOT)
  {
    hide Tree, Lookup, Split, Canonical;
    RootIsDir(fs);
    DetourParts();
    SlashAlone();
    LookupWalks(fs, ROOT, "/a/..");
    LookupWalks(fs, ROOT, "/");
    assert ["", "a", ".."][1..] == ["a", ".."];
    assert WalkParts(fs, ROOT, ["a", ".."]) == None;
    assert ["", ""][1..] == [""];
    assert WalkParts(fs, ROOT, [""]) == Some(ROOT);
  }

  lemma SlashAlone()
    ensures Split("/") == ["", ""]
  {
    hide Split;
    NameSplits("");
    SlashSplits("/");
    assert "/"[1..] == "";
  }

  lemma DetourParts()
    ensures Split("/a/..") == ["", "a", ".."] && Canonical("/a/..") == "/"
  {
    hide Split;
    NameSplits("a");
    NameSplits("..");
    SplitAppend("a", "..");
    assert "a" + "/" + ".." == "a/..";
    SlashSplits("/a/..");
    assert "/a/.."[1..] == "a/..";
    assert ["", "a", ".."][1..] == ["a", ".."] && ["a", ".."][1..] == [".."];
    assert Process(["a"], [".."]) == [];
    assert Process([], ["a", ".."]) == [];
  }

  lemma TwoDotsAtRoot(fs: Fs)
    requires Tree(fs)
    ensures Lookup(fs, ROOT, "/..") == Err(NotFound) && Lookup(fs, ROOT, Canonical("/..")) == Ok(ROOT)
  {
    LeadingSlash("/..");
    assert "/.."[1..] == "..";
    NameSplits("..");
    FirstPart("..");
    assert SplitPath("/..") == ("..", None);
    assert Split("/..") == ["", ".."];
    assert Process([], ["", ".."]) == [] by {
      assert ["", ".."][1..] == [".."];
    }
    assert Canonical("/..") == "/";
    LeadingSlash("/");
    assert "/"[1..] == "";
    FirstPart("");
    NameSplits("");
  }

  // ----- in place -----

  /** The nodes as the source has them: directories whose children change in place. */
  class RamFileSystem {
    var nodes: map<Id, Node>
    var next: Id

    ghost function Snapshot(): Fs
      reads this
    {
      Fs(nodes, next)
    }

    ghost predicate Valid()
      reads this
    {
      Tree(Snapshot())
    }

    constructor ()
      ensures Valid() && Snapshot() == Empty
    {
      nodes := map[ROOT := Dir(None, map[])];
      next := ROOT + 1;
    }

    method CreateNodeIn(id: Id, name: string, ty: NodeType) returns (r: Result<()>)
      requires Valid() && IsDir(Snapshot(), id)
      modifies this
      ensures Valid() && (Snapshot(), r) == CreateNode(old(Snapshot()), id, name, ty)
    {
      CreateNodeTree(Snapshot(), id, name, ty);
      if name in nodes[id].children {
        return Err(AlreadyExists);
      }
      var node;
      match ty {
        case FileType => node := File;
        case DirType => node := Dir(Some(id), map[]);
        case OtherType => return Err(Unsupported);
      }
      var dir := nodes[id];
      nodes := nodes[next := node];
      nodes := nodes[id := Dir(dir.parent, dir.children[name := next])];
      next := next + 1;
      return Ok(());
    }

    method RemoveNodeIn(id: Id, name: string) returns (r: Result<()>)
      requires Valid() && IsDir(Snapshot(), id)
      modifies this
      ensures Valid() && (Snapshot(), r) == RemoveNode(old(Snapshot()), id, name)
    {
      RemoveNodeTree(Snapshot(), id, name);
      var dir := nodes[id];
      if name !in dir.children {
        return Err(NotFound);
      }
      var node := dir.children[name];
      if node in nodes && nodes[node].Dir? && nodes[node].children != map[] {
        return Err(DirectoryNotEmpty);
      }
      nodes := nodes[id := Dir(dir.parent, dir.children - {name})];
      return Ok(());
    }

    method ForgetNode(id: Id)
      requires Valid()
      modifies this
      ensures Valid() && Snapshot() == Forget(old(Snapshot()), id)
    {
      ForgetTree(Snapshot(), id);
      if id != ROOT && !IsHeld(Fs(nodes, next), id) {
        nodes := nodes - {id};
      }
    }

    method CreatePath(id: Id, path: string, ty: NodeType) returns (r: Result<()>)
      requires Valid()
      modifies this
      ensures Valid() && (Snapshot(), r) == Create(old(Snapshot()), id, path, ty)
      decreases |path|
    {
      hide Tree, CreateNode;
      if id !in nodes || nodes[id].File? {
        return Err(NotADirectory);
      }
      var (name, rest) := SplitPath(path);
      if rest.Some? {
        var node := Step(Fs(nodes, next), id, name);
        if node.Err? {
          return Err(node.error);
        }
        r := CreatePath(node.value, rest.value, ty);
      } else if name == "" || name == "." || name == ".." {
        r := Ok(());
      } else {
        r := CreateNodeIn(id, name, ty);
      }
    }

    method RemovePath(id: Id, path: string) returns (r: Result<()>)
      requires Valid()
      modifies this
      ensures Valid() && (Snapshot(), r) == Remove(old(Snapshot()), id, path)
      decreases |path|
    {
      hide Tree, RemoveNode;
      if id !in nodes || nodes[id].File? {
        return Err(NotADirectory);
      }
      var (name, rest) := SplitPath(path);
      if rest.Some? {
        var node := Step(Fs(nodes, next), id, name);
        if node.Err? {
          return Err(node.error);
        }
        r := RemovePath(node.value, rest.value);
      } else if name == "" || name == "." || name == ".." {
        r := Err(InvalidInput);
      } else {
        r := RemoveNodeIn(id, name);
      }
    }
  }
}
