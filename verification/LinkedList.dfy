/** The intrusive circular doubly-linked list: links rewritten in place, seen as a sequence. */
module LinkedList {

  /** An entry with its links, which are only meaningful while it is in a list. */
  class Entry {
    var next: Entry?
    var prev: Entry?

    constructor ()
      ensures next == null && prev == null
    {
      next, prev := null, null;
    }
  }

  function After(i: nat, n: nat): nat {
    if i + 1 >= n then 0 else i + 1
  }

  function Before(i: nat, n: nat): nat {
    if i == 0 then if n == 0 then 0 else n - 1 else i - 1
  }

  ghost predicate Distinct(s: seq<Entry>) {
    forall i, j | 0 <= i < j < |s| :: s[i] != s[j]
  }

  /** The links run around the sequence in both directions. */
  ghost predicate Linked(s: seq<Entry>)
    reads s
  {
    forall i | 0 <= i < |s| :: s[i].next == s[After(i, |s|)] && s[i].prev == s[Before(i, |s|)]
  }

  class List {
    var first: Entry?
    ghost var entries: seq<Entry>

    ghost predicate Valid()
      reads this, entries
    {
      && (entries == [] <==> first == null)
      && (entries != [] ==> first == entries[0])
      && Distinct(entries) && Linked(entries)
    }

    constructor ()
      ensures Valid() && entries == []
    {
      first := null;
      entries := [];
    }

    method InsertOnlyEntry(obj: Entry)
      requires Valid() && entries == []
      modifies this, obj
      ensures Valid() && entries == [obj]
    {
      obj.next := obj;
      obj.prev := obj;
      first := obj;
      entries := [obj];
    }

    /** Links `obj` in after entry number `k`. */
    method InsertAfter(existing: Entry, obj: Entry, ghost k: nat)
      requires Valid() && k < |entries| && entries[k] == existing && obj !in entries
      modifies this, entries, obj
      ensures Valid() && entries == With(old(entries), k, obj)
    {
      ghost var s := entries;
      var next := existing.next;
      assert next == s[After(k, |s|)];
      obj.next := next;
      obj.prev := existing;
      existing.next := obj;
      next.prev := obj;
      assert Inserted(s, k, obj);
      InsertLinked(s, k, obj);
      InsertDistinct(s, k, obj);
      entries := With(s, k, obj);
    }

    /** Links `obj` in before entry number `k`. */
    method InsertBefore(existing: Entry, obj: Entry, ghost k: nat)
      requires Valid() && k < |entries| && entries[k] == existing && obj !in entries
      modifies this, entries, obj
      ensures Valid() && entries == old(entries[..k] + [obj] + entries[k..])
    {
      hide Linked;
      ghost var s := entries;
      LinksAt(s, k);
      InsertAfter(existing.prev, obj, Before(k, |s|));
      if first == existing {
        assert k == 0 && entries == s + [obj];
        first := obj;
        RotateLinked(s, obj);
        InsertFront(s, obj);
        entries := [obj] + s;
      } else {
        assert With(s, k - 1, obj) == s[..k] + [obj] + s[k..];
      }
    }

    method PushBack(obj: Entry)
      requires Valid() && obj !in entries
      modifies this, entries, obj
      ensures Valid() && entries == old(entries) + [obj]
    {
      if first != null {
        assert first.prev == entries[|entries| - 1];
        InsertAfter(first.prev, obj, |entries| - 1);
      } else {
        InsertOnlyEntry(obj);
      }
    }

    method PushFront(obj: Entry)
      requires Valid() && obj !in entries
      modifies this, entries, obj
      ensures Valid() && entries == [obj] + old(entries)
    {
      if first != null {
        InsertBefore(first, obj, 0);
      } else {
        InsertOnlyEntry(obj);
      }
    }

    /** Unlinks entry number `k`. */
    method Remove(entry: Entry, ghost k: nat)
      requires Valid() && k < |entries| && entries[k] == entry
      modifies this, entries
      ensures Valid() && entries == Without(old(entries), k)
    {
      hide Linked;
      ghost var s := entries;
      var next, prev := entry.next, entry.prev;
      LinksAt(s, k);
      if next == entry {
        assert |s| == 1 && Without(s, k) == [];
        EmptyLinked();
        first := null;
      } else {
        JoinNeighbours(prev, next, s, k);
        RemoveLinked(s, k);
        RemoveDistinct(s, k);
        if first == entry {
          assert k == 0;
          first := next;
        }
      }
      entries := Without(s, k);
    }

    method Front() returns (r: Entry?)
      requires Valid()
      ensures r == if entries == [] then null else entries[0]
    {
      r := first;
    }

    method Back() returns (r: Entry?)
      requires Valid()
      ensures r == if entries == [] then null else entries[|entries| - 1]
    {
      r := if first == null then null else first.prev;
    }

    /** Moves a cursor on from `cur`: past the last entry it leaves the list. */
    method MoveNext(cur: Entry?, ghost k: nat) returns (r: Entry?)
      requires Valid() && k <= |entries| && cur == At(entries, k)
      ensures r == if k == |entries| then At(entries, 0) else At(entries, k + 1)
    {
      if cur == null {
        return first;
      }
      r := null;
      if first != null {
        assert cur.next == entries[After(k, |entries|)];
        if cur.next != first {
          r := cur.next;
        }
      }
    }

    /** Moves a cursor back from `cur`: before the first entry it leaves the list. */
    method MovePrev(cur: Entry?, ghost k: nat) returns (r: Entry?)
      requires Valid() && k <= |entries| && cur == At(entries, k)
      ensures r == if k == 0 then null else At(entries, k - 1)
    {
      if first == null {
        return null;
      }
      var next := first;
      if cur != null {
        if cur == first {
          return null;
        }
        next := cur;
      }
      assert next.prev == entries[Before(if cur == null then 0 else k, |entries|)];
      r := next.prev;
    }

    /** Iterating from the front yields the entries in order, and then stops. */
    method Iterate() returns (seen: seq<Entry>)
      requires Valid()
      ensures seen == entries
    {
      seen := [];
      var cur := Front();
      ghost var k := 0;
      while cur != null
        invariant k <= |entries| && cur == At(entries, k) && seen == entries[..k]
        decreases |entries| - k
      {
        seen := seen + [cur];
        cur := MoveNext(cur, k);
        k := k + 1;
      }
    }

    /** Iterating from the back yields the entries in reverse, and then stops. */
    method IterateBack() returns (seen: seq<Entry>)
      requires Valid()
      ensures |seen| == |entries| && forall i | 0 <= i < |seen| :: seen[i] == entries[|entries| - 1 - i]
    {
      seen := [];
      var cur := Back();
      ghost var left: int := |entries|;
      while cur != null
        invariant 0 <= left <= |entries| && cur == (if left == 0 then null else entries[left - 1])
        invariant |seen| == |entries| - left && forall i | 0 <= i < |seen| :: seen[i] == entries[|entries| - 1 - i]
        decreases left
      {
        seen := seen + [cur];
        cur := MovePrev(cur, left - 1);
        left := left - 1;
      }
    }
  }

  method JoinNeighbours(prev: Entry, next: Entry, ghost s: seq<Entry>, ghost k: nat)
    requires k < |s| && |s| > 1 && Distinct(s) && Linked(s)
    requires prev == s[Before(k, |s|)] && next == s[After(k, |s|)]
    modifies s
    ensures Removed(s, k)
  {
    prev.next := next;
    next.prev := prev;
  }

  lemma LinksAt(s: seq<Entry>, k: nat)
    requires Linked(s) && k < |s|
    ensures s[k].next == s[After(k, |s|)] && s[k].prev == s[Before(k, |s|)]
  {
  }

  lemma EmptyLinked()
    ensures Linked([])
  {
  }

  lemma InsertFront(s: seq<Entry>, x: Entry)
    requires Distinct(s + [x])
    ensures Distinct([x] + s)
  {
    forall i, j | 0 <= i < j < |[x] + s| ensures ([x] + s)[i] != ([x] + s)[j] {
      var n := |s|;
      assert (s + [x])[n] == x && (s + [x])[j - 1] == s[j - 1];
      if i > 0 {
        assert (s + [x])[i - 1] == s[i - 1];
      }
    }
  }

  /** Entry number `k`, or null behind the last one. */
  ghost function At(s: seq<Entry>, k: nat): Entry? {
    if k < |s| then s[k] else null
  }

  /** The sequence with `obj` put behind entry number `k`. */
  ghost function With(s: seq<Entry>, k: nat, obj: Entry): seq<Entry>
    requires k < |s|
  {
    s[..k + 1] + [obj] + s[k + 1..]
  }

  /** The links right after `obj` has been linked in behind entry number `k` of `s`. */
  ghost predicate Inserted(s: seq<Entry>, k: nat, obj: Entry)
    reads s, obj
  {
    && k < |s|
    && obj.prev == s[k] && obj.next == s[After(k, |s|)] && s[k].next == obj && s[After(k, |s|)].prev == obj
    && (forall i | 0 <= i < |s| && i != k :: s[i].next == s[After(i, |s|)])
    && (forall i | 0 <= i < |s| && i != After(k, |s|) :: s[i].prev == s[Before(i, |s|)])
  }

  lemma InsertLinked(s: seq<Entry>, k: nat, obj: Entry)
    requires Inserted(s, k, obj)
    ensures Linked(With(s, k, obj))
  {
    var s' := With(s, k, obj);
    forall i | 0 <= i < |s'| ensures s'[i].next == s'[After(i, |s'|)] && s'[i].prev == s'[Before(i, |s'|)] {
      InsertNext(s, k, obj, i);
      InsertPrev(s, k, obj, i);
    }
  }

  lemma InsertNext(s: seq<Entry>, k: nat, obj: Entry, i: nat)
    requires Inserted(s, k, obj) && i <= |s|
    ensures var s' := With(s, k, obj); s'[i].next == s'[After(i, |s'|)]
  {
    var s' := With(s, k, obj);
    if i != k + 1 {
      var j := if i <= k then i else i - 1;
      assert s'[i] == s[j];
      assert j != k ==> s[j].next == s[After(j, |s|)];
    }
  }

  lemma InsertPrev(s: seq<Entry>, k: nat, obj: Entry, i: nat)
    requires Inserted(s, k, obj) && i <= |s|
    ensures var s' := With(s, k, obj); s'[i].prev == s'[Before(i, |s'|)]
  {
    var s' := With(s, k, obj);
    if i != k + 1 {
      var j := if i <= k then i else i - 1;
      assert s'[i] == s[j];
      assert j != After(k, |s|) ==> s[j].prev == s[Before(j, |s|)];
    }
  }

  lemma InsertDistinct(s: seq<Entry>, k: nat, obj: Entry)
    requires k < |s| && Distinct(s) && obj !in s
    ensures Distinct(With(s, k, obj))
  {
  }

  /** Turning the circle by one entry. */
  lemma RotateLinked(s: seq<Entry>, x: Entry)
    requires Linked(s + [x])
    ensures Linked([x] + s)
  {
    var r, t, n := s + [x], [x] + s, |s| + 1;
    forall i | 0 <= i < n ensures t[i].next == t[After(i, n)] && t[i].prev == t[Before(i, n)] {
      assert t[i] == r[Before(i, n)];
      assert t[After(i, n)] == r[i] && t[Before(i, n)] == r[Before(Before(i, n), n)];
    }
  }

  ghost function Without(s: seq<Entry>, k: nat): seq<Entry>
    requires k < |s|
  {
    s[..k] + s[k + 1..]
  }

  /** The links right after the neighbours of entry number `k` have been joined. */
  ghost predicate Removed(s: seq<Entry>, k: nat)
    reads s
  {
    && k < |s| && |s| > 1
    && s[Before(k, |s|)].next == s[After(k, |s|)] && s[After(k, |s|)].prev == s[Before(k, |s|)]
    && (forall i | 0 <= i < |s| && i != k && i != Before(k, |s|) :: s[i].next == s[After(i, |s|)])
    && (forall i | 0 <= i < |s| && i != k && i != After(k, |s|) :: s[i].prev == s[Before(i, |s|)])
  }

  lemma RemoveLinked(s: seq<Entry>, k: nat)
    requires Removed(s, k)
    ensures Linked(Without(s, k))
  {
    var s' := Without(s, k);
    forall i | 0 <= i < |s'| ensures s'[i].next == s'[After(i, |s'|)] && s'[i].prev == s'[Before(i, |s'|)] {
      RemoveNext(s, k, i);
      RemovePrev(s, k, i);
    }
  }

  lemma RemoveNext(s: seq<Entry>, k: nat, i: nat)
    requires Removed(s, k) && i < |s| - 1
    ensures var s' := Without(s, k); s'[i].next == s'[After(i, |s'|)]
  {
    var s' := Without(s, k);
    var j := if i < k then i else i + 1;
    assert s'[i] == s[j];
    assert s[j].next == s[if After(j, |s|) == k then After(k, |s|) else After(j, |s|)];
  }

  lemma RemovePrev(s: seq<Entry>, k: nat, i: nat)
    requires Removed(s, k) && i < |s| - 1
    ensures var s' := Without(s, k); s'[i].prev == s'[Before(i, |s'|)]
  {
    var s' := Without(s, k);
    var j := if i < k then i else i + 1;
    assert s'[i] == s[j];
    assert s[j].prev == s[if Before(j, |s|) == k then Before(k, |s|) else Before(j, |s|)];
  }

  lemma RemoveDistinct(s: seq<Entry>, k: nat)
    requires k < |s| && Distinct(s)
    ensures Distinct(Without(s, k)) && s[k] !in Without(s, k)
  {
  }

  // ----- every run -----

  /** A call with the entries it is given. */
  datatype Op =
    | OpPushBack(obj: Entry)
    | OpPushFront(obj: Entry)
    | OpInsertAfter(at: Entry, obj: Entry)
    | OpInsertBefore(at: Entry, obj: Entry)
    | OpRemove(obj: Entry)

  /** What the list's safety contract demands: a new entry is in no list, an old one in this. */
  ghost predicate Allowed(s: seq<Entry>, op: Op) {
    match op
    case OpPushBack(obj) => obj !in s
    case OpPushFront(obj) => obj !in s
    case OpInsertAfter(at, obj) => at in s && obj !in s
    case OpInsertBefore(at, obj) => at in s && obj !in s
    case OpRemove(obj) => obj in s
  }

  ghost function IndexOf(s: seq<Entry>, e: Entry): (k: nat)
    requires e in s
    ensures k < |s| && s[k] == e
  {
    if s[0] == e then 0 else 1 + IndexOf(s[1..], e)
  }

  ghost function Apply(s: seq<Entry>, op: Op): seq<Entry>
    requires Allowed(s, op)
  {
    match op
    case OpPushBack(obj) => s + [obj]
    case OpPushFront(obj) => [obj] + s
    case OpInsertAfter(at, obj) => With(s, IndexOf(s, at), obj)
    case OpInsertBefore(at, obj) => var k := IndexOf(s, at); s[..k] + [obj] + s[k..]
    case OpRemove(obj) => Without(s, IndexOf(s, obj))
  }

  ghost predicate AllAllowed(s: seq<Entry>, ops: seq<Op>)
    decreases |ops|
  {
    ops == [] || (Allowed(s, ops[0]) && AllAllowed(Apply(s, ops[0]), ops[1..]))
  }

  ghost function ApplyAll(s: seq<Entry>, ops: seq<Op>): seq<Entry>
    requires AllAllowed(s, ops)
    decreases |ops|
  {
    if ops == [] then s else ApplyAll(Apply(s, ops[0]), ops[1..])
  }

  /** Every run of calls that respects the safety contract acts on the list as on a sequence. */
  method Run(list: List, ops: seq<Op>, ghost pool: set<Entry>)
    requires list.Valid() && AllAllowed(list.entries, ops)
    requires (forall op | op in ops :: op.obj in pool) && (forall e | e in list.entries :: e in pool)
    modifies list, pool
    ensures list.Valid() && list.entries == ApplyAll(old(list.entries), ops)
    decreases |ops|
  {
    if ops != [] {
      RunOne(list, ops[0]);
      Run(list, ops[1..], pool);
    }
  }

  method RunOne(list: List, op: Op)
    requires list.Valid() && Allowed(list.entries, op)
    modifies list, list.entries, op.obj
    ensures list.Valid() && list.entries == Apply(old(list.entries), op)
  {
    match op {
      case OpPushBack(obj) => list.PushBack(obj);
      case OpPushFront(obj) => list.PushFront(obj);
      case OpInsertAfter(at, obj) => list.InsertAfter(at, obj, IndexOf(list.entries, at));
      case OpInsertBefore(at, obj) => list.InsertBefore(at, obj, IndexOf(list.entries, at));
      case OpRemove(obj) => list.Remove(obj, IndexOf(list.entries, obj));
    }
  }
}
