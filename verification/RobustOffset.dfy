/**
 * How the links of a thread's robust list are stored, and changing the offset in them while mutexes are locked and
 * unlocked (aos/linux_code/ipc_lib/aos_sync.cc). Addresses and links are 64-bit words and wrap around.
 */
module RobustOffsets {
  import opened Basics

  const WORD: int := 0x1_0000_0000_0000_0000

  /** Unsigned addition and subtraction of words. */
  function Plus(a: nat, b: nat): (c: nat)
    requires a < WORD && b < WORD
    ensures c == (a + b) % WORD
  {
    if a + b < WORD then a + b else a + b - WORD
  }

  function Minus(a: nat, b: nat): (c: nat)
    requires a < WORD && b < WORD
    ensures c == (a - b) % WORD
  {
    if a >= b then a - b else a - b + WORD
  }

  /** kRobustListOr is the lowest bit. */
  function SetLow(x: nat): nat {
    if x % 2 == 0 then x + 1 else x
  }

  function ClearLow(x: nat): nat {
    if x % 2 == 0 then x else x - 1
  }

  /** mutex_to_next */
  function ToNext(m: nat, offset: nat): (n: nat)
    requires m < WORD && offset < WORD
    ensures n < WORD
  {
    SetLow(Plus(m, offset))
  }

  /** next_to_mutex */
  function ToMutex(next: nat, offset: nat, head: nat): nat
    requires next < WORD && offset < WORD
  {
    if offset != 0 && next == head then next else Minus(ClearLow(next), offset)
  }

  /** A link leads back to its mutex exactly when the offset is even, and is never taken for the head. */
  lemma LinkRoundTrip(m: nat, offset: nat, head: nat)
    requires m < WORD && m % 2 == 0 && offset < WORD && head % 2 == 0
    ensures ToNext(m, offset) != head
    ensures ToMutex(ToNext(m, offset), offset, head) == m <==> offset % 2 == 0
  {
  }

  /** Adding the change of offset to a link gives the link for the new offset. */
  lemma LinkShift(m: nat, before: nat, after: nat)
    requires m < WORD && before < WORD && after < WORD && m % 2 == 0 && before % 2 == 0 && after % 2 == 0
    ensures Plus(ToNext(m, before), Minus(after, before)) == ToNext(m, after)
  {
  }

  // ----- the list -----

  /** The words whose links lead from one to the next: the head and the locked mutexes. */
  ghost predicate WordsOk(words: seq<nat>, links: map<nat, nat>) {
    && |words| > 0
    && (forall i | 0 <= i < |words| :: words[i] in links && words[i] < WORD && words[i] % 2 == 0)
    && (forall i, j | 0 <= i < j < |words| :: words[i] != words[j])
  }

  /** The link at index `i` leads to the next mutex, or from the last one back to the head. */
  ghost predicate LinkOk(words: seq<nat>, links: map<nat, nat>, offset: nat, i: nat)
    requires WordsOk(words, links) && i < |words| && offset < WORD
  {
    links[words[i]] == if i + 1 < |words| then ToNext(words[i + 1], offset) else words[0]
  }

  ghost predicate ListOk(words: seq<nat>, links: map<nat, nat>, offset: nat) {
    && WordsOk(words, links) && offset < WORD && offset % 2 == 0
    && forall i | 0 <= i < |words| :: LinkOk(words, links, offset, i)
  }

  /** The back pointer of the mutex at index `i`, which is not encoded, leads to the word before it. */
  ghost predicate BackOk(words: seq<nat>, prevs: map<nat, nat>, i: nat)
    requires 0 < i < |words|
  {
    words[i] in prevs && prevs[words[i]] == words[i - 1]
  }

  ghost predicate BacksOk(words: seq<nat>, prevs: map<nat, nat>) {
    forall i: nat | 0 < i < |words| :: BackOk(words, prevs, i)
  }

  // ----- Adder::Add -----

  ghost function Pushed(words: seq<nat>, m: nat): seq<nat>
    requires |words| > 0
  {
    [words[0], m] + words[1..]
  }

  lemma AddLinks(words: seq<nat>, links: map<nat, nat>, offset: nat, m: nat)
    requires ListOk(words, links, offset) && m !in words && m < WORD && m % 2 == 0
    ensures ListOk(Pushed(words, m), links[m := links[words[0]]][words[0] := ToNext(m, offset)], offset)
  {
    hide ToNext;
    var words', links' := Pushed(words, m), links[m := links[words[0]]][words[0] := ToNext(m, offset)];
    assert forall i | 2 <= i < |words'| :: words'[i] == words[i - 1];
    assert WordsOk(words', links');
    forall i | 0 <= i < |words'|
      ensures LinkOk(words', links', offset, i)
    {
      if i > 1 {
        assert LinkOk(words, links, offset, i - 1);
      } else {
        assert LinkOk(words, links, offset, 0);
      }
    }
  }

  lemma AddBacks(words: seq<nat>, prevs: map<nat, nat>, m: nat, prevs': map<nat, nat>)
    requires |words| > 0 && m !in words && BacksOk(words, prevs)
    requires forall i, j | 0 <= i < j < |words| :: words[i] != words[j]
    requires prevs' == if |words| > 1 then prevs[m := words[0]][words[1] := m] else prevs[m := words[0]]
    ensures BacksOk(Pushed(words, m), prevs')
  {
    var words' := Pushed(words, m);
    forall i: nat | 0 < i < |words'|
      ensures BackOk(words', prevs', i)
    {
      if i > 2 {
        assert words'[i] == words[i - 1] && words'[i - 1] == words[i - 2];
        assert BackOk(words, prevs, i - 1) && words[i - 1] != words[1];
      }
    }
  }

  // ----- Remover -----

  ghost function Dropped(words: seq<nat>, k: nat): seq<nat>
    requires 0 < k < |words|
  {
    words[..k] + words[k + 1..]
  }

  lemma DroppedAt(words: seq<nat>, k: nat, i: nat)
    requires 0 < k < |words| && i < |words| - 1
    ensures Dropped(words, k)[i] == words[if i < k then i else i + 1]
  {
  }

  lemma RemoveWords(words: seq<nat>, links: map<nat, nat>, links': map<nat, nat>, k: nat)
    requires WordsOk(words, links) && links.Keys <= links'.Keys && 0 < k < |words|
    ensures WordsOk(Dropped(words, k), links')
  {
    var words' := Dropped(words, k);
    forall i | 0 <= i < |words'|
      ensures words'[i] in links' && words'[i] < WORD && words'[i] % 2 == 0
    {
      DroppedAt(words, k, i);
    }
    forall i, j | 0 <= i < j < |words'|
      ensures words'[i] != words'[j]
    {
      DroppedAt(words, k, i);
      DroppedAt(words, k, j);
    }
  }

  lemma RemoveLinks(words: seq<nat>, links: map<nat, nat>, offset: nat, k: nat)
    requires ListOk(words, links, offset) && 0 < k < |words|
    ensures ListOk(Dropped(words, k), links[words[k - 1] := links[words[k]]], offset)
  {
    hide ToNext, WordsOk;
    WordsApart(words, links);
    var words', links' := Dropped(words, k), links[words[k - 1] := links[words[k]]];
    RemoveWords(words, links, links', k);
    assert LinkOk(words, links, offset, k);
    forall i: nat | i < |words'|
      ensures LinkOk(words', links', offset, i)
    {
      DroppedAt(words, k, 0);
      DroppedAt(words, k, i);
      if i + 1 < |words'| {
        DroppedAt(words, k, i + 1);
      }
      assert LinkOk(words, links, offset, if i < k then i else i + 1);
    }
  }

  lemma WordsApart(words: seq<nat>, links: map<nat, nat>)
    requires WordsOk(words, links)
    ensures forall i | 0 <= i < |words| :: words[i] in links && words[i] < WORD && words[i] % 2 == 0
    ensures forall i, j | 0 <= i < j < |words| :: words[i] != words[j]
  {
  }

  lemma RemoveBacks(words: seq<nat>, prevs: map<nat, nat>, k: nat, prevs': map<nat, nat>)
    requires 0 < k < |words| && BacksOk(words, prevs)
    requires forall i, j | 0 <= i < j < |words| :: words[i] != words[j]
    requires prevs' == if k + 1 < |words| then prevs[words[k + 1] := words[k - 1]] else prevs
    ensures BacksOk(Dropped(words, k), prevs')
  {
    var words' := Dropped(words, k);
    forall i: nat | 0 < i < |words'|
      ensures BackOk(words', prevs', i)
    {
      DroppedAt(words, k, i);
      DroppedAt(words, k, i - 1);
      assert BackOk(words, prevs, if i < k then i else i + 1);
    }
  }

  class RobustList {
    const head: nat
    var links: map<nat, nat>
    var prevs: map<nat, nat>
    var offset: nat
    ghost var words: seq<nat>

    /** The forward links, encoded with the offset, and the back pointers agree on the locked mutexes. */
    ghost predicate Valid()
      reads this
    {
      ListOk(words, links, offset) && words[0] == head && BacksOk(words, prevs)
    }

    /** A thread that holds no mutex. */
    constructor (address: nat)
      requires address < WORD && address % 2 == 0
      ensures Valid() && offset == 0 && words == [address]
    {
      head, links, prevs, offset, words := address, map[address := address], map[], 0, [address];
    }

    /** Adder::Add: the mutex is first on the list. */
    method Add(m: nat)
      requires Valid() && m !in words && m < WORD && m % 2 == 0
      modifies this`links, this`prevs, this`words
      ensures Valid() && words == [head, m] + old(words)[1..]
    {
      hide ToNext, ToMutex;
      WordsApart(words, links);
      AddLinks(words, links, offset, m);
      assert LinkOk(words, links, offset, 0);
      if |words| > 1 {
        LinkRoundTrip(words[1], offset, head);
      }
      var next := links[head];
      links := links[m := next];
      links := links[head := ToNext(m, offset)];
      prevs := prevs[m := head];
      if next != head {
        prevs := prevs[ToMutex(next, offset, head) := m];
      }
      AddBacks(words, old(prevs), m, prevs);
      words := Pushed(words, m);
    }

    /** Remover: exactly that mutex is off the list, wherever it was. */
    method Remove(m: nat, ghost k: nat)
      requires Valid() && 0 < k < |words| && words[k] == m
      modifies this`links, this`prevs, this`words
      ensures Valid() && words == old(words)[..k] + old(words)[k + 1..]
    {
      hide ToNext, ToMutex;
      WordsApart(words, links);
      assert BackOk(words, prevs, k);
      assert LinkOk(words, links, offset, k);
      RemoveLinks(words, links, offset, k);
      if k + 1 < |words| {
        LinkRoundTrip(words[k + 1], offset, head);
      }
      var previous, next := prevs[m], links[m];
      links := links[previous := next];
      if next != head {
        prevs := prevs[ToMutex(next, offset, head) := previous];
      }
      RemoveBacks(words, old(prevs), k, prevs);
      words := Dropped(words, k);
    }

    /** SetRobustListOffset: the same mutexes, in the same order, under the new offset. */
    method SetRobustListOffset(newOffset: nat)
      requires Valid() && newOffset < WORD && newOffset % 2 == 0
      modifies this`links, this`offset
      ensures Valid() && offset == newOffset
      ensures forall w | w !in words :: w in links <==> w in old(links)
      ensures forall w | w !in words && w in old(links) :: links[w] == old(links)[w]
    {
      hide ToNext, ToMutex, Plus, Minus;
      var change := Minus(newOffset, offset);
      ghost var before := offset;
      offset := newOffset;
      var m := head;
      ghost var k := 0;
      ghost var n := |words|;
      while links[m] != head
        invariant 0 <= k < n && m == words[k] && WordsOk(words, links)
        invariant links.Keys == old(links).Keys && offset == newOffset
        invariant forall i: nat | i < k :: LinkOk(words, links, newOffset, i)
        invariant forall i: nat | k <= i < n :: LinkOk(words, links, before, i)
        invariant forall w | w !in words && w in old(links) :: links[w] == old(links)[w]
        decreases n - k
      {
        assert LinkOk(words, links, before, k);
        LinkShift(words[k + 1], before, newOffset);
        LinkRoundTrip(words[k + 1], newOffset, head);
        ghost var was := links;
        links := links[m := Plus(links[m], change)];
        LinksKept(words, was, links, k, before, newOffset);
        m := ToMutex(links[m], newOffset, head);
        k := k + 1;
      }
      assert LinkOk(words, links, before, k);
      if k + 1 < n {
        LinkRoundTrip(words[k + 1], before, head);
      }
    }
  }

  /** Changing the link at index `k` leaves the others alone. */
  lemma LinksKept(words: seq<nat>, links: map<nat, nat>, links': map<nat, nat>, k: nat, before: nat, after: nat)
    requires WordsOk(words, links) && k + 1 < |words| && before < WORD && after < WORD
    requires links' == links[words[k] := ToNext(words[k + 1], after)]
    requires forall i: nat | i < k :: LinkOk(words, links, after, i)
    requires forall i: nat | k <= i < |words| :: LinkOk(words, links, before, i)
    ensures WordsOk(words, links')
    ensures forall i: nat | i < k + 1 :: LinkOk(words, links', after, i)
    ensures forall i: nat | k + 1 <= i < |words| :: LinkOk(words, links', before, i)
  {
    hide ToNext;
    forall i: nat | i < |words|
      ensures if i < k + 1 then LinkOk(words, links', after, i) else LinkOk(words, links', before, i)
    {
      if i < k {
        assert LinkOk(words, links, after, i) && words[i] != words[k];
      } else if i > k {
        assert LinkOk(words, links, before, i) && words[i] != words[k];
      }
    }
  }

  // ----- any sequence of operations -----

  datatype Op = Lock(m: nat) | Unlock(m: nat) | SetOffset(offset: nat)

  /** The locked mutexes, the last one locked first, after an operation. */
  function After(held: seq<nat>, op: Op): seq<nat> {
    match op
    case Lock(m) => [m] + held
    case Unlock(m) => Without(held, m)
    case SetOffset(_) => held
  }

  /** What the callers have to keep to: a mutex is locked at most once and unlocked when locked; offsets are even. */
  predicate OpOk(held: seq<nat>, head: nat, op: Op) {
    match op
    case Lock(m) => m != head && m !in held && m < WORD && m % 2 == 0
    case Unlock(m) => m in held
    case SetOffset(offset) => offset < WORD && offset % 2 == 0
  }

  predicate OpsOk(held: seq<nat>, head: nat, ops: seq<Op>)
    decreases |ops|
  {
    ops == [] || (OpOk(held, head, ops[0]) && OpsOk(After(held, ops[0]), head, ops[1..]))
  }

  function AllAfter(held: seq<nat>, ops: seq<Op>): seq<nat>
    decreases |ops|
  {
    if ops == [] then held else AllAfter(After(held, ops[0]), ops[1..])
  }

  method Do(list: RobustList, op: Op)
    requires list.Valid() && OpOk(list.words[1..], list.head, op)
    modifies list
    ensures list.Valid() && |list.words| > 0 && list.words[1..] == After(old(list.words)[1..], op)
  {
    match op
    case Lock(m) => list.Add(m);
    case Unlock(m) =>
      ghost var held := list.words[1..];
      ghost var k :| 0 <= k < |held| && held[k] == m;
      assert list.words[k + 1] == m;
      WordsApart(list.words, list.links);
      forall i | 0 <= i < k
        ensures held[i] != m
      {
        assert list.words[i + 1] != list.words[k + 1];
      }
      WithoutAt(held, m, k);
      list.Remove(m, k + 1);
      assert list.words[1..] == held[..k] + held[k + 1..];
    case SetOffset(offset) => list.SetRobustListOffset(offset);
  }

  /**
   * Any locking, unlocking in any order and changing of the offset: the list holds exactly the locked mutexes, the
   * last one locked first, and the back pointers agree with the links.
   */
  method Run(address: nat, ops: seq<Op>) returns (list: RobustList)
    requires address < WORD && address % 2 == 0 && OpsOk([], address, ops)
    ensures list.Valid() && list.words == [address] + AllAfter([], ops)
  {
    hide ListOk, BacksOk;
    list := new RobustList(address);
    assert ops[0..] == ops;
    for i := 0 to |ops|
      invariant fresh(list) && list.Valid() && |list.words| > 0 && list.head == list.words[0] == address
      invariant OpsOk(list.words[1..], address, ops[i..])
      invariant AllAfter([], ops) == AllAfter(list.words[1..], ops[i..])
    {
      assert ops[i..][1..] == ops[i + 1..];
      Do(list, ops[i]);
    }
    assert list.words == [address] + list.words[1..];
  }
}
