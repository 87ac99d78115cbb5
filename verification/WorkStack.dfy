/**
 * Undoing pointer edits after an interruption (aos/common/transaction.h, aos/common/util/linked_list.h).
 *
 * Location 0 holds the list's head pointer and location `k > 0` the `next` pointer of node `k`; the pointer 0 is
 * null. A process may die before any store; `left` says how many stores it still makes.
 */
module WorkStacks {
  import opened Basics

  /** A RestorePointerWork. */
  datatype Work = Work(pointer: nat, value: nat)

  ghost predicate InMemory(works: seq<Work>, n: nat) {
    forall i | 0 <= i < |works| :: works[i].pointer < n
  }

  ghost predicate Recorded(works: seq<Work>, p: nat) {
    exists i :: 0 <= i < |works| && works[i].pointer == p
  }

  /** The memory after doing the works from the top of the stack down. */
  ghost function Rollback(works: seq<Work>, mem: seq<nat>): (r: seq<nat>)
    requires InMemory(works, |mem|)
    ensures |r| == |mem|
    decreases |works|
  {
    if works == [] then mem
    else
      var w := works[|works| - 1];
      Rollback(works[..|works| - 1], mem[w.pointer := w.value])
  }

  /** A store to a location that has been recorded makes no difference to what comes back. */
  lemma {:induction false} RecordedStore(works: seq<Work>, mem: seq<nat>, p: nat, v: nat)
    requires InMemory(works, |mem|) && p < |mem| && Recorded(works, p)
    ensures Rollback(works, mem[p := v]) == Rollback(works, mem)
    decreases |works|
  {
    var n := |works| - 1;
    var w, lower := works[n], works[..n];
    if w.pointer == p {
      assert mem[p := v][p := w.value] == mem[p := w.value];
    } else {
      assert mem[p := v][w.pointer := w.value] == mem[w.pointer := w.value][p := v];
      var i :| 0 <= i < |works| && works[i].pointer == p;
      assert lower[i].pointer == p;
      RecordedStore(lower, mem[w.pointer := w.value], p, v);
    }
  }

  /** Recording a location changes nothing. */
  lemma RecordingKeeps(works: seq<Work>, mem: seq<nat>, p: nat)
    requires InMemory(works, |mem|) && p < |mem|
    ensures Rollback(works + [Work(p, mem[p])], mem) == Rollback(works, mem)
  {
    assert (works + [Work(p, mem[p])])[..|works|] == works;
    assert mem[p := mem[p]] == mem;
  }

  // ----- linked lists -----

  /** Following the pointers from location `p` gives the nodes `s`. */
  ghost predicate Chain(mem: seq<nat>, p: nat, s: seq<nat>)
    decreases |s|
  {
    p < |mem| && if s == [] then mem[p] == 0 else mem[p] == s[0] > 0 && Chain(mem, s[0], s[1..])
  }

  lemma {:induction false} ChainUnique(mem: seq<nat>, p: nat, s: seq<nat>, s': seq<nat>)
    requires Chain(mem, p, s) && Chain(mem, p, s')
    ensures s == s'
    decreases |s|
  {
    if s != [] {
      ChainUnique(mem, s[0], s[1..], s'[1..]);
    }
  }

  lemma {:induction false} ChainFrom(mem: seq<nat>, p: nat, s: seq<nat>, i: nat)
    requires Chain(mem, p, s) && i < |s|
    ensures 0 < s[i] < |mem| && Chain(mem, s[i], s[i + 1..])
    decreases i
  {
    if i > 0 {
      ChainFrom(mem, s[0], s[1..], i - 1);
      assert s[1..][i..] == s[i + 1..];
    }
  }

  /** No node is on a list twice. */
  lemma ChainDistinct(mem: seq<nat>, p: nat, s: seq<nat>, i: nat, j: nat)
    requires Chain(mem, p, s) && i < j < |s|
    ensures s[i] != s[j]
  {
    ChainFrom(mem, p, s, i);
    ChainFrom(mem, p, s, j);
    if s[i] == s[j] {
      ChainUnique(mem, s[i], s[i + 1..], s[j + 1..]);
      assert false;
    }
  }

  lemma NodesNotNull(mem: seq<nat>, p: nat, s: seq<nat>)
    requires Chain(mem, p, s)
    ensures 0 !in s
  {
    if 0 in s {
      var i :| 0 <= i < |s| && s[i] == 0;
      ChainFrom(mem, p, s, i);
      assert false;
    }
  }

  /** A store to a location that is not on the list leaves the list alone. */
  lemma {:induction false} ChainKept(mem: seq<nat>, p: nat, s: seq<nat>, q: nat, v: nat)
    requires Chain(mem, p, s) && q < |mem| && q != p && q !in s
    ensures Chain(mem[q := v], p, s)
    decreases |s|
  {
    if s != [] {
      ChainKept(mem, s[0], s[1..], q, v);
    }
  }

  /** The node at index `k` unlinked from the pointer that leads to it. */
  lemma {:induction false} Unlinked(mem: seq<nat>, p: nat, s: seq<nat>, k: nat, q: nat)
    requires Chain(mem, p, s) && k < |s| && p !in s && q == (if k == 0 then p else s[k - 1])
    ensures q < |mem| && 0 < s[k] < |mem| && Chain(mem[q := mem[s[k]]], p, s[..k] + s[k + 1..])
    decreases k
  {
    ChainFrom(mem, p, s, k);
    if k == 0 {
      assert s[..0] + s[1..] == s[1..];
      var rest := s[1..];
      if rest != [] {
        ChainKept(mem, rest[0], rest[1..], p, mem[s[0]]);
      }
    } else {
      forall j | 1 <= j < |s|
        ensures s[0] != s[j]
      {
        ChainDistinct(mem, p, s, 0, j);
      }
      ChainFrom(mem, p, s, k - 1);
      Unlinked(mem, s[0], s[1..], k - 1, q);
      assert (s[..k] + s[k + 1..])[1..] == s[1..][..k - 1] + s[1..][k..];
    }
  }

  lemma Linked(mem: seq<nat>, s: seq<nat>, t: nat)
    requires Chain(mem, 0, s) && 0 < t < |mem| && t !in s
    ensures Chain(mem[t := mem[0]][0 := t], 0, [t] + s)
  {
    NodesNotNull(mem, 0, s);
    var mem' := mem[t := mem[0]];
    ChainKept(mem, 0, s, t, mem[0]);
    if s != [] {
      ChainKept(mem', s[0], s[1..], 0, t);
    }
    assert ([t] + s)[1..] == s;
  }

  // ----- edits -----

  datatype Edit = Insert(node: nat) | Delete(node: nat) | Commit

  /** The list after an edit. */
  ghost function Edited(s: seq<nat>, e: Edit): seq<nat> {
    match e
    case Insert(t) => [t] + s
    case Delete(t) => Without(s, t)
    case Commit => s
  }

  /** The location of the pointer that leads to `t`. */
  ghost function Before(s: seq<nat>, t: nat): nat {
    if s == [] || s[0] == t then 0 else if |s| > 1 && s[1] == t then s[0] else Before(s[1..], t)
  }

  lemma {:induction false} BeforeAt(s: seq<nat>, t: nat, k: nat)
    requires k < |s| && s[k] == t && t !in s[..k]
    ensures Before(s, t) == if k == 0 then 0 else s[k - 1]
    decreases k
  {
    if k > 0 {
      assert s[..k][0] == s[0];
      if k > 1 {
        assert s[..k][1] == s[1];
        assert s[1..][..k - 1] == s[..k][1..];
        BeforeAt(s[1..], t, k - 1);
      }
    }
  }

  /** The memory after an edit of a list `s`. */
  ghost function EditedMem(mem: seq<nat>, s: seq<nat>, e: Edit): (r: seq<nat>)
    ensures |r| == |mem|
  {
    match e
    case Insert(t) => if 0 < t < |mem| then mem[t := mem[0]][0 := t] else mem
    case Delete(t) => if t < |mem| && Before(s, t) < |mem| then mem[Before(s, t) := mem[t]] else mem
    case Commit => mem
  }

  // ----- the stack, the list and the process -----

  class Recorder {
    const mem: array<nat>
    const stack: array<Work>
    var index: nat
    var left: nat
    ghost var base: seq<nat>

    /** `base` is the memory at the time the stack was last empty. */
    ghost predicate Valid()
      reads this, mem, stack
    {
      && index <= stack.Length && 0 < mem.Length
      && InMemory(stack[..index], mem.Length)
      && Rollback(stack[..index], mem[..]) == base
    }

    constructor (nodes: nat, works: nat)
      ensures Valid() && index == 0 && fresh(mem) && fresh(stack)
      ensures mem.Length == nodes + 1 && stack.Length == works && Chain(mem[..], 0, [])
    {
      mem, stack := new nat[nodes + 1](_ => 0), new Work[works](_ => Work(0, 0));
      index, left := 0, 0;
      new;
      base := mem[..];
    }

    /** AddWork: the two stores of Create and the one that makes the work count. A full stack is fatal. */
    method AddWork(p: nat) returns (alive: bool)
      requires Valid() && p < mem.Length
      modifies this`index, this`left, stack
      ensures Valid()
      ensures alive <==> old(left) >= 3 && old(index) < stack.Length
      ensures alive ==> left == old(left) - 3
      ensures stack[..index] == old(stack[..index]) + if alive then [Work(p, mem[p])] else []
    {
      alive := index < stack.Length && left > 0;
      ghost var works := stack[..index];
      if !alive {
        return;
      }
      stack[index] := stack[index].(pointer := p);
      assert stack[..index] == works;
      left, alive := left - 1, left > 1;
      if !alive {
        return;
      }
      stack[index] := stack[index].(value := mem[p]);
      assert stack[..index] == works;
      left, alive := left - 1, left > 1;
      if !alive {
        return;
      }
      RecordingKeeps(works, mem[..], p);
      assert stack[..index + 1] == works + [Work(p, mem[p])];
      index, left := index + 1, left - 1;
    }

    /** `*pointer = v` for a location that has been recorded. */
    method Store(p: nat, v: nat) returns (alive: bool)
      requires Valid() && p < mem.Length && Recorded(stack[..index], p)
      modifies this`left, mem
      ensures Valid()
      ensures alive <==> old(left) >= 1
      ensures alive ==> left == old(left) - 1
      ensures mem[..] == if alive then old(mem[..])[p := v] else old(mem[..])
    {
      alive := left > 0;
      if alive {
        RecordedStore(stack[..index], mem[..], p, v);
        left := left - 1;
        mem[p] := v;
        assert mem[..] == old(mem[..])[p := v];
      }
    }

    /** CompleteWork: finished or not, the works still on the stack lead back to `base`. */
    method CompleteWork() returns (alive: bool)
      requires Valid()
      modifies this`index, this`left, mem
      ensures Valid()
      ensures alive <==> old(left) > old(index)
      ensures alive ==> index == 0 && mem[..] == base
      ensures !alive ==> index == old(index)
    {
      var current := index;
      while current > 0
        invariant index == old(index) && 0 <= current <= index && Valid() && left + index - current == old(left)
        invariant InMemory(stack[..current], mem.Length) && Rollback(stack[..current], mem[..]) == base
      {
        if left == 0 {
          return false;
        }
        assert Recorded(stack[..index], stack[current - 1].pointer) by {
          assert stack[..index][current - 1].pointer == stack[current - 1].pointer;
        }
        current := current - 1;
        var w := stack[current];
        assert stack[..current + 1][..current] == stack[..current];
        var _ := Store(w.pointer, w.value);
      }
      alive := left > 0;
      if alive {
        index, left := 0, left - 1;
      }
    }

    /** DropWork: the edits made so far become permanent. */
    method DropWork() returns (alive: bool)
      requires Valid()
      modifies this`index, this`left, this`base
      ensures Valid()
      ensures alive <==> old(left) >= 1
      ensures alive ==> index == 0 && base == mem[..] && left == old(left) - 1
      ensures !alive ==> index == old(index) && base == old(base)
    {
      alive := left > 0;
      if alive {
        index, left := 0, left - 1;
        base := mem[..];
      }
    }

    /** LinkedList::Add with restore points. */
    method Add(t: nat, ghost s: seq<nat>) returns (alive: bool)
      requires Valid() && 0 < t < mem.Length && t !in s && Chain(mem[..], 0, s)
      modifies this`index, this`left, stack, mem
      ensures Valid()
      ensures alive <==> old(left) >= 8 && old(index) + 2 <= stack.Length
      ensures alive ==> left == old(left) - 8 && index == old(index) + 2 && Chain(mem[..], 0, [t] + s)
      ensures alive ==> mem[..] == EditedMem(old(mem[..]), s, Insert(t))
    {
      alive := AddWork(t);
      if !alive {
        return;
      }
      assert stack[..index][index - 1].pointer == t;
      alive := Store(t, mem[0]);
      if !alive {
        return;
      }
      alive := AddWork(0);
      if !alive {
        return;
      }
      assert stack[..index][index - 1].pointer == 0;
      Linked(old(mem[..]), s, t);
      alive := Store(0, t);
    }

    /** LinkedList::Remove with restore points; a node that is not on the list is fatal. */
    method Remove(t: nat, ghost s: seq<nat>) returns (alive: bool)
      requires Valid() && Chain(mem[..], 0, s)
      modifies this`index, this`left, stack, mem
      ensures Valid()
      ensures alive <==> t in s && old(left) >= 4 && old(index) < stack.Length
      ensures alive ==> left == old(left) - 4 && index == old(index) + 1 && Chain(mem[..], 0, Without(s, t))
      ensures alive ==> mem[..] == EditedMem(old(mem[..]), s, Delete(t))
      ensures t !in s ==> mem[..] == old(mem[..]) && index == old(index)
    {
      var pointer := 0;
      ghost var k := 0;
      assert s[0..] == s;
      while mem[pointer] != 0
        invariant k <= |s| && pointer == if k == 0 then 0 else s[k - 1]
        invariant Valid() && Chain(mem[..], pointer, s[k..]) && t !in s[..k]
        decreases |s| - k
      {
        if mem[pointer] == t {
          NodesNotNull(mem[..], 0, s);
          Unlinked(mem[..], 0, s, k, pointer);
          WithoutAt(s, t, k);
          BeforeAt(s, t, k);
          alive := AddWork(pointer);
          if alive {
            assert stack[..index][index - 1].pointer == pointer;
            alive := Store(pointer, mem[t]);
          }
          return;
        }
        pointer := mem[pointer];
        k := k + 1;
      }
      return false;
    }
  }

  // ----- whole sessions -----

  /** What a session has come to: the list, the memory, the stores left and the works on the stack. */
  datatype Session = Session(list: seq<nat>, mem: seq<nat>, left: nat, index: nat)

  /** Whether there are stores and works enough for an edit, and it is not fatal. */
  ghost predicate Completes(x: Session, e: Edit, works: nat) {
    match e
    case Insert(_) => x.left >= 8 && x.index + 2 <= works
    case Delete(t) => t in x.list && x.left >= 4 && x.index < works
    case Commit => x.left >= 1
  }

  ghost function After(x: Session, e: Edit): Session
    requires e.Insert? ==> x.left >= 8
    requires e.Delete? ==> x.left >= 4
    requires e.Commit? ==> x.left >= 1
  {
    Session(Edited(x.list, e), EditedMem(x.mem, x.list, e),
            match e case Insert(_) => x.left - 8 case Delete(_) => x.left - 4 case Commit => x.left - 1,
            match e case Insert(_) => x.index + 2 case Delete(_) => x.index + 1 case Commit => 0)
  }

  /** The memory at the last commit that completes before the process dies, or else `base`. */
  ghost function Committed(x: Session, base: seq<nat>, edits: seq<Edit>, works: nat): seq<nat>
    decreases |edits|
  {
    if edits == [] || !Completes(x, edits[0], works) then base
    else Committed(After(x, edits[0]), if edits[0].Commit? then x.mem else base, edits[1..], works)
  }

  /** Only nodes that are not on the list are ever inserted. */
  ghost predicate EditsOk(s: seq<nat>, edits: seq<Edit>, n: nat)
    decreases |edits|
  {
    edits == []
    || ((edits[0].Insert? ==> 0 < edits[0].node < n && edits[0].node !in s)
        && EditsOk(Edited(s, edits[0]), edits[1..], n))
  }

  /** Without a commit nothing changes. */
  lemma {:induction false} NoCommit(x: Session, base: seq<nat>, edits: seq<Edit>, works: nat)
    requires Commit !in edits
    ensures Committed(x, base, edits, works) == base
    decreases |edits|
  {
    if edits != [] && Completes(x, edits[0], works) {
      assert edits[0] in edits;
      NoCommit(After(x, edits[0]), base, edits[1..], works);
    }
  }

  /** Edits that all complete, the last of them a commit, are all there afterwards. */
  lemma {:induction false} CommitSurvives(x: Session, base: seq<nat>, edits: seq<Edit>, works: nat)
    requires edits != [] && edits[|edits| - 1].Commit? && AllComplete(x, edits, works)
    ensures Committed(x, base, edits, works) == AllEditedMem(x.mem, x.list, edits)
    decreases |edits|
  {
    if |edits| > 1 {
      CommitSurvives(After(x, edits[0]), if edits[0].Commit? then x.mem else base, edits[1..], works);
    } else {
      assert edits[1..] == [];
    }
  }

  ghost predicate AllComplete(x: Session, edits: seq<Edit>, works: nat)
    decreases |edits|
  {
    edits == [] || (Completes(x, edits[0], works) && AllComplete(After(x, edits[0]), edits[1..], works))
  }

  ghost function AllEditedMem(mem: seq<nat>, s: seq<nat>, edits: seq<Edit>): seq<nat>
    decreases |edits|
  {
    if edits == [] then mem else AllEditedMem(EditedMem(mem, s, edits[0]), Edited(s, edits[0]), edits[1..])
  }

  /** An edit of the memory is the edit of the list in it. */
  lemma EditedChain(mem: seq<nat>, s: seq<nat>, e: Edit)
    requires Chain(mem, 0, s) && (e.Insert? ==> 0 < e.node < |mem| && e.node !in s) && (e.Delete? ==> e.node in s)
    ensures Chain(EditedMem(mem, s, e), 0, Edited(s, e))
  {
    match e
    case Insert(t) => Linked(mem, s, t);
    case Delete(t) =>
      var k := FirstAt(s, t);
      NodesNotNull(mem, 0, s);
      Unlinked(mem, 0, s, k, if k == 0 then 0 else s[k - 1]);
      WithoutAt(s, t, k);
      BeforeAt(s, t, k);
    case Commit =>
  }

  lemma {:induction false} FirstAt(s: seq<nat>, t: nat) returns (k: nat)
    requires t in s
    ensures k < |s| && s[k] == t && t !in s[..k]
    decreases |s|
  {
    if s[0] == t {
      k := 0;
    } else {
      k := FirstAt(s[1..], t);
      k := k + 1;
      assert s[..k] == [s[0]] + s[1..][..k - 1];
    }
  }

  /** The list at the last commit that completes, or else `kept`. */
  ghost function CommittedList(x: Session, kept: seq<nat>, edits: seq<Edit>, works: nat): seq<nat>
    decreases |edits|
  {
    if edits == [] || !Completes(x, edits[0], works) then kept
    else CommittedList(After(x, edits[0]), if edits[0].Commit? then x.list else kept, edits[1..], works)
  }

  /** The memory that comes back holds the list of that commit. */
  lemma {:induction false} CommittedChain(x: Session, base: seq<nat>, kept: seq<nat>, edits: seq<Edit>, works: nat)
    requires Chain(x.mem, 0, x.list) && Chain(base, 0, kept) && EditsOk(x.list, edits, |x.mem|)
    ensures Chain(Committed(x, base, edits, works), 0, CommittedList(x, kept, edits, works))
    decreases |edits|
  {
    if edits != [] && Completes(x, edits[0], works) {
      EditedChain(x.mem, x.list, edits[0]);
      var base', kept' := if edits[0].Commit? then x.mem else base, if edits[0].Commit? then x.list else kept;
      CommittedChain(After(x, edits[0]), base', kept', edits[1..], works);
    }
  }

  method DoEdit(r: Recorder, e: Edit, ghost s: seq<nat>) returns (alive: bool)
    requires r.Valid() && Chain(r.mem[..], 0, s)
    requires e.Insert? ==> 0 < e.node < r.mem.Length && e.node !in s
    modifies r`index, r`left, r`base, r.stack, r.mem
    ensures r.Valid() && (alive ==> Chain(r.mem[..], 0, Edited(s, e)))
    ensures alive <==> old(Completes(Session(s, r.mem[..], r.left, r.index), e, r.stack.Length))
    ensures alive ==> Session(Edited(s, e), r.mem[..], r.left, r.index) == old(After(Session(s, r.mem[..], r.left, r.index), e))
    ensures r.base == if alive && e.Commit? then r.mem[..] else old(r.base)
  {
    match e
    case Insert(t) => alive := r.Add(t, s);
    case Delete(t) => alive := r.Remove(t, s);
    case Commit => alive := r.DropWork();
  }

  /**
   * Any edits, cut short by the process dying before any store; then any number of attempts to complete the work,
   * each cut short the same way; then one that is left to finish. Every word of memory is then as it was at the
   * last commit that completed.
   */
  method Recover(r: Recorder, edits: seq<Edit>, stop: nat, retries: seq<nat>, ghost s: seq<nat>)
    requires r.Valid() && r.index == 0 && Chain(r.mem[..], 0, s) && EditsOk(s, edits, r.mem.Length)
    modifies r`index, r`left, r`base, r.stack, r.mem
    ensures r.Valid() && r.index == 0
    ensures r.mem[..] == old(Committed(Session(s, r.mem[..], stop, 0), r.mem[..], edits, r.stack.Length))
  {
    r.left := stop;
    ghost var x, works := Session(s, r.mem[..], stop, 0), r.stack.Length;
    ghost var final := Committed(x, r.base, edits, works);
    var i, alive := 0, true;
    assert edits[0..] == edits;
    while i < |edits| && alive
      invariant 0 <= i <= |edits| && r.Valid()
      invariant alive ==> x == Session(x.list, r.mem[..], r.left, r.index) && Chain(r.mem[..], 0, x.list)
      invariant alive ==> EditsOk(x.list, edits[i..], r.mem.Length) && final == Committed(x, r.base, edits[i..], works)
      invariant !alive ==> final == r.base
      decreases |edits| - i
    {
      assert edits[i..][1..] == edits[i + 1..];
      alive := DoEdit(r, edits[i], x.list);
      if alive {
        x := After(x, edits[i]);
      }
      i := i + 1;
    }
    assert alive ==> edits[i..] == [];
    for j := 0 to |retries|
      invariant r.Valid() && r.base == final
    {
      r.left := retries[j];
      var _ := r.CompleteWork();
    }
    r.left := r.index + 1;
    alive := r.CompleteWork();
  }
}
