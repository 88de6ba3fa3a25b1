/** Path strings: splitting at slashes, and `canonicalize`, whose character buffer always
    renders the stack of the components that are still open. */
module Paths {

  /** Index of the first slash, or the length. */
  function FindSlash(s: string): (i: nat)
    ensures i <= |s| && '/' !in s[..i] && (i < |s| ==> s[i] == '/')
  {
    if s == "" || s[0] == '/' then 0
    else
      var i := FindSlash(s[1..]);
      assert s[..i + 1] == [s[0]] + s[1..][..i];
      i + 1
  }

  /** `split('/')`: at least one part. */
  function Split(s: string): (parts: seq<string>)
    ensures |parts| >= 1
    decreases |s|
  {
    var i := FindSlash(s);
    if i == |s| then [s] else [s[..i]] + Split(s[i + 1..])
  }

  /** A component that names something: not empty, not a dot, not two dots. */
  predicate IsName(part: string) {
    part != "" && part != "." && part != ".." && '/' !in part
  }

  ghost predicate AllNames(stack: seq<string>) {
    forall i | 0 <= i < |stack| :: IsName(stack[i])
  }

  /** The open components after the parts have been read from left to right. */
  function Process(stack: seq<string>, parts: seq<string>): seq<string>
    decreases |parts|
  {
    if parts == [] then stack
    else
      var part := parts[0];
      Process(if part == "" || part == "." then stack
              else if part == ".." then if stack == [] then [] else stack[..|stack| - 1]
              else stack + [part],
              parts[1..])
  }

  function Join(stack: seq<string>): string {
    if stack == [] then "" else if |stack| == 1 then stack[0]
    else Join(stack[..|stack| - 1]) + "/" + stack[|stack| - 1]
  }

  /** The canonical text of the open components. */
  function Render(absolute: bool, stack: seq<string>): string {
    (if absolute then "/" else "") + Join(stack)
  }

  function Canonical(path: string): string {
    Render(path != "" && path[0] == '/', Process([], Split(path)))
  }

  // ----- the buffer -----

  /** The buffer renders the open components; an absolute one may still lack its first slash. */
  ghost predicate Renders(buf: string, absolute: bool, stack: seq<string>) {
    AllNames(stack) && (buf == Render(absolute, stack) || (stack == [] && buf == ""))
  }

  lemma JoinSnoc(stack: seq<string>, part: string)
    requires stack != []
    ensures Join(stack + [part]) == Join(stack) + "/" + part
  {
    assert (stack + [part])[..|stack|] == stack;
  }

  lemma RenderedEnd(absolute: bool, stack: seq<string>)
    requires stack != [] && AllNames(stack)
    ensures var buf := Render(absolute, stack); buf != "" && buf[|buf| - 1] != '/'
  {
    var name := stack[|stack| - 1];
    assert IsName(name) && name[|name| - 1] in name;
  }

  /** The text of the components before the last one, with the slash that separates it. */
  function Base(absolute: bool, stack: seq<string>): string
    requires stack != []
  {
    var rest := stack[..|stack| - 1];
    Render(absolute, rest) + (if rest == [] then "" else "/")
  }

  lemma BaseAndName(absolute: bool, stack: seq<string>)
    requires stack != []
    ensures Render(absolute, stack) == Base(absolute, stack) + stack[|stack| - 1]
  {
    var rest := stack[..|stack| - 1];
    if rest != [] {
      JoinSnoc(rest, stack[|stack| - 1]);
      assert rest + [stack[|stack| - 1]] == stack;
    }
  }

  /** The inner loop for two dots: removes the last name and the slash before it, but never
      the root's slash. */
  method PopChars(buf0: string, ghost base: string, ghost name: string) returns (buf: string)
    requires buf0 == base + name && '/' !in name && (base == "" || base[|base| - 1] == '/')
    ensures buf == if base == "" || base == "/" then base else base[..|base| - 1]
  {
    buf := buf0;
    ghost var j: int := |name|;
    while buf != ""
      invariant 0 <= j <= |name| && buf == base + name[..j]
      decreases |buf|
    {
      if j > 0 {
        assert buf[|buf| - 1] == name[j - 1] && name[j - 1] in name;
      } else {
        assert buf == base;
      }
      if buf == "/" {
        break;
      }
      var c := buf[|buf| - 1];
      buf := buf[..|buf| - 1];
      if c == '/' {
        return;
      }
      j := j - 1;
    }
  }

  lemma BaseEnds(absolute: bool, stack: seq<string>)
    requires stack != [] && AllNames(stack)
    ensures var base, rest := Base(absolute, stack), stack[..|stack| - 1];
            && (base == "" || base[|base| - 1] == '/')
            && (if base == "" || base == "/" then base else base[..|base| - 1]) == Render(absolute, rest)
  {
    var rest := stack[..|stack| - 1];
    if rest != [] {
      RenderedEnd(absolute, rest);
    }
  }

  method PopComponent(buf0: string, ghost absolute: bool, ghost stack: seq<string>) returns (buf: string)
    requires Renders(buf0, absolute, stack)
    ensures Renders(buf, absolute, if stack == [] then [] else stack[..|stack| - 1])
  {
    ghost var base, name := buf0, "";
    if stack != [] {
      BaseAndName(absolute, stack);
      BaseEnds(absolute, stack);
      base, name := Base(absolute, stack), stack[|stack| - 1];
    }
    hide Base;
    buf := PopChars(buf0, base, name);
  }

  method Canonicalize(path: string) returns (buf: string)
    ensures buf == Canonical(path)
  {
    hide Render, Split;
    buf := "";
    var absolute := path != "" && path[0] == '/';
    var parts := Split(path);
    SplitParts(path);
    ghost var stack: seq<string> := [];
    var k := 0;
    while k < |parts|
      invariant k <= |parts| && Renders(buf, absolute, stack)
      invariant Process(stack, parts[k..]) == Process([], parts)
    {
      var part := parts[k];
      assert parts[k..][1..] == parts[k + 1..];
      if part == "" || part == "." {
      } else if part == ".." {
        buf := PopComponent(buf, absolute, stack);
        stack := if stack == [] then [] else stack[..|stack| - 1];
      } else {
        buf := PushComponent(buf, absolute, stack, part);
        stack := stack + [part];
      }
      k := k + 1;
    }
    FinalRender(buf, absolute, stack);
    if absolute && buf == "" {
      buf := "/";
    }
  }

  lemma FinalRender(buf: string, absolute: bool, stack: seq<string>)
    requires Renders(buf, absolute, stack)
    ensures (if absolute && buf == "" then "/" else buf) == Render(absolute, stack)
  {
  }

  method PushComponent(buf0: string, absolute: bool, ghost stack: seq<string>, part: string) returns (buf: string)
    requires Renders(buf0, absolute, stack) && IsName(part)
    ensures Renders(buf, absolute, stack + [part])
  {
    PushRenders(buf0, absolute, stack, part);
    buf := buf0;
    if buf == "" {
      if absolute {
        buf := buf + "/";
      }
    } else if buf[|buf| - 1] != '/' {
      buf := buf + "/";
    }
    buf := buf + part;
  }

  /** No part of a split contains a slash. */
  lemma {:induction false} SplitParts(s: string)
    ensures forall i | 0 <= i < |Split(s)| :: '/' !in Split(s)[i]
    decreases |s|
  {
    var i := FindSlash(s);
    if i < |s| {
      SplitParts(s[i + 1..]);
    } else {
      assert s[..i] == s;
    }
  }

  lemma PushRenders(buf: string, absolute: bool, stack: seq<string>, part: string)
    requires Renders(buf, absolute, stack) && IsName(part)
    ensures var slash := if buf == "" then absolute else buf[|buf| - 1] != '/';
            Renders(buf + (if slash then "/" else "") + part, absolute, stack + [part])
  {
    NamesPush(stack, part);
    hide AllNames;
    if stack != [] {
      JoinSnoc(stack, part);
      RenderedEnd(absolute, stack);
    }
  }

  lemma NamesPush(stack: seq<string>, part: string)
    requires AllNames(stack) && IsName(part)
    ensures AllNames(stack + [part])
  {
  }

  // ----- canonical text splits into its components -----

  /** The first slash, wherever it comes from, cuts off the first part. */
  lemma {:induction false} SplitStep(s: string, i: nat)
    requires i <= |s| && '/' !in s[..i] && (i < |s| ==> s[i] == '/')
    ensures Split(s) == if i == |s| then [s] else [s[..i]] + Split(s[i + 1..])
  {
    hide FindSlash;
    var j := FindSlash(s);
    assert i == j;
  }

  lemma {:induction false} SplitAppend(a: string, b: string)
    ensures Split(a + "/" + b) == Split(a) + Split(b)
    decreases |a|
  {
    hide Split;
    var i := FindSlash(a);
    FirstCut(a, b, i);
    if i < |a| {
      SplitAppend(a[i + 1..], b);
      Associate(a[..i], Split(a[i + 1..]), Split(b));
    }
  }

  lemma FirstCut(a: string, b: string, i: nat)
    requires i == FindSlash(a)
    ensures Split(a) == if i == |a| then [a] else [a[..i]] + Split(a[i + 1..])
    ensures Split(a + "/" + b) == if i == |a| then [a] + Split(b) else [a[..i]] + Split(a[i + 1..] + "/" + b)
  {
    hide Split;
    HeadAppend(a, b, i);
    TailAppend(a, b, i);
    SplitStep(a, i);
    SplitStep(a + "/" + b, i);
  }

  lemma Associate(part: string, x: seq<string>, y: seq<string>)
    ensures [part] + (x + y) == [part] + x + y
  {
  }

  lemma HeadAppend(a: string, b: string, i: nat)
    requires i <= |a|
    ensures (a + "/" + b)[..i] == a[..i] && (a + "/" + b)[i] == (a + "/")[i] && (i == |a| ==> a[..i] == a)
  {
  }

  lemma TailAppend(a: string, b: string, i: nat)
    requires i <= |a|
    ensures (a + "/" + b)[i + 1..] == if i < |a| then a[i + 1..] + "/" + b else b
  {
  }

  lemma NameSplits(name: string)
    requires '/' !in name
    ensures Split(name) == [name]
  {
    assert name[..|name|] == name;
  }

  lemma JoinSplits(stack: seq<string>)
    requires stack != [] && AllNames(stack)
    ensures Split(Join(stack)) == stack
    decreases |stack|
  {
    var rest, name := stack[..|stack| - 1], stack[|stack| - 1];
    NameSplits(name);
    assert stack == rest + [name];
    if rest != [] {
      JoinSplits(rest);
      JoinSnoc(rest, name);
      SplitAppend(Join(rest), name);
    }
  }

  /** The parts of canonical text: at most empty ones besides its components. */
  lemma CanonicalParts(absolute: bool, stack: seq<string>)
    requires AllNames(stack)
    ensures Split(Render(absolute, stack))
         == (if absolute then [""] else []) + (if stack == [] then [""] else stack)
  {
    hide Split;
    NameSplits("");
    if stack != [] {
      JoinSplits(stack);
    }
    if absolute {
      SplitAppend("", Join(stack));
      assert Render(absolute, stack) == "" + "/" + Join(stack);
    } else {
      assert Render(absolute, stack) == Join(stack);
    }
  }

  lemma {:induction false} ProcessKeepsNames(stack: seq<string>, parts: seq<string>)
    requires AllNames(stack) && forall i | 0 <= i < |parts| :: '/' !in parts[i]
    ensures AllNames(Process(stack, parts))
    decreases |parts|
  {
    if parts != [] {
      var part := parts[0];
      ProcessKeepsNames(if part == "" || part == "." then stack
                        else if part == ".." then if stack == [] then [] else stack[..|stack| - 1]
                        else stack + [part],
                        parts[1..]);
    }
  }

  lemma {:induction false} ProcessNames(stack: seq<string>, parts: seq<string>)
    requires AllNames(parts)
    ensures Process(stack, parts) == stack + parts
    decreases |parts|
  {
    if parts != [] {
      assert IsName(parts[0]);
      ProcessNames(stack + [parts[0]], parts[1..]);
      assert stack + [parts[0]] + parts[1..] == stack + parts;
    } else {
      assert stack + parts == stack;
    }
  }

  lemma SplitFirst(s: string)
    ensures Split(s)[0] == "" <==> s == "" || s[0] == '/'
  {
  }

  lemma StillAbsolute(absolute: bool, stack: seq<string>)
    requires AllNames(stack)
    ensures var text := Render(absolute, stack); (text != "" && text[0] == '/') <==> absolute
  {
    hide Split, Join;
    CanonicalParts(absolute, stack);
    SplitFirst(Render(absolute, stack));
    if !absolute && stack != [] {
      assert Split(Render(absolute, stack)) == stack;
      assert IsName(stack[0]);
    } else if !absolute {
      NothingJoined();
    }
  }

  lemma NothingJoined()
    ensures Join([]) == ""
  {
  }

  lemma Reprocess(absolute: bool, stack: seq<string>)
    requires AllNames(stack)
    ensures Process([], (if absolute then [""] else []) + (if stack == [] then [""] else stack)) == stack
  {
    var tail := if stack == [] then [""] else stack;
    ProcessNames([], stack);
    assert Process([], tail) == stack;
    if absolute {
      assert ([""] + tail)[1..] == tail;
    } else {
      assert [] + tail == tail;
    }
  }

  /** A canonical path has no empty, dot or two-dot component left, is absolute exactly if the path is,
      and is its own canonical form. */
  lemma CanonicalIdempotent(path: string)
    ensures AllNames(Process([], Split(path))) && Canonical(Canonical(path)) == Canonical(path)
    ensures var c := Canonical(path); (c != "" && c[0] == '/') <==> (path != "" && path[0] == '/')
  {
    hide Split, Process, Render, AllNames;
    var absolute, stack := path != "" && path[0] == '/', Process([], Split(path));
    SplitParts(path);
    NoNames();
    ProcessKeepsNames([], Split(path));
    CanonicalParts(absolute, stack);
    Reprocess(absolute, stack);
    StillAbsolute(absolute, stack);
  }

  lemma NoNames()
    ensures AllNames([])
  {
  }
}
