/** The per-process cache of message types and the list of them in shared memory (aos/common/queue_types.cc). */
module TypeCaches {
  import opened Basics
  import opened ByteOrder
  import opened TypeCodec

  const SHM_BUFFER: nat := 768

  /** The bit of a type id that marks primitive types. */
  predicate IsPrimitive(id: nat) {
    id / 0x2000 % 2 == 1
  }

  /** Bit 13 alone decides: what stands above it or below it does not matter. */
  lemma PrimitiveIff(high: nat, bit: nat, low: nat)
    requires bit <= 1 && low < 0x2000
    ensures IsPrimitive(0x4000 * high + 0x2000 * bit + low) <==> bit == 1
  {
    assert (0x4000 * high + 0x2000 * bit + low) / 0x2000 == 2 * high + bit;
  }

  datatype ShmType = ShmType(id: nat, serialized: seq<byte>)

  /** What another process makes of an entry of the list. */
  ghost function TypeOf(e: ShmType): MessageType
    requires EntryOk(e)
  {
    Decode(e.serialized, true).value.0
  }

  ghost predicate EntryOk(e: ShmType) {
    && Decode(e.serialized, true).Some? && Decode(e.serialized, true).value.1 == []
    && Decode(e.serialized, true).value.0.id == e.id
  }

  ghost predicate Listed(list: seq<ShmType>, id: nat) {
    exists i :: 0 <= i < |list| && list[i].id == id
  }

  ghost predicate ListOk(list: seq<ShmType>) {
    && (forall i | 0 <= i < |list| :: EntryOk(list[i]))
    && (forall i, j | 0 <= i < j < |list| :: list[i].id != list[j].id)
  }

  ghost predicate HasChild(t: MessageType, x: nat) {
    !IsPrimitive(x) && exists i :: 0 <= i < |t.fields| && t.fields[i].fieldType == x
  }

  /** Every type a type refers to is on the list. */
  ghost predicate Complete(list: seq<ShmType>, t: MessageType) {
    forall x: nat | HasChild(t, x) :: Listed(list, x)
  }

  /** The list is closed under field types, except for the types that are still being added. */
  ghost predicate Closed(list: seq<ShmType>, open: set<nat>)
    requires ListOk(list)
  {
    forall i | 0 <= i < |list| && list[i].id !in open :: Complete(list, TypeOf(list[i]))
  }

  ghost function Ids(list: seq<ShmType>): set<nat> {
    set i | 0 <= i < |list| :: list[i].id
  }

  lemma ListedKept(list: seq<ShmType>, list': seq<ShmType>, id: nat)
    requires list <= list' && Listed(list, id)
    ensures Listed(list', id)
  {
    var i :| 0 <= i < |list| && list[i].id == id;
    assert list'[i].id == id;
  }

  lemma CompleteKept(list: seq<ShmType>, list': seq<ShmType>, t: MessageType)
    requires list <= list' && Complete(list, t)
    ensures Complete(list', t)
  {
    forall x: nat | HasChild(t, x)
      ensures Listed(list', x)
    {
      ListedKept(list, list', x);
    }
  }

  /** Appending a type opens it. */
  lemma Appended(list: seq<ShmType>, e: ShmType, open: set<nat>)
    requires ListOk(list) && Closed(list, open) && EntryOk(e) && !Listed(list, e.id)
    ensures ListOk(list + [e]) && Closed(list + [e], open + {e.id})
    ensures Listed(list + [e], e.id)
    ensures forall id :: id in Ids(list + [e]) <==> id in Ids(list) || id == e.id
  {
    hide EntryOk, HasChild;
    var list' := list + [e];
    assert list'[|list|].id == e.id;
    assert forall i | 0 <= i < |list| :: list'[i] == list[i];
    forall i, j | 0 <= i < j < |list'|
      ensures list'[i].id != list'[j].id
    {
    }
    forall i | 0 <= i < |list'| && list'[i].id !in open + {e.id}
      ensures Complete(list', TypeOf(list'[i]))
    {
      assert list'[i] == list[i];
      CompleteKept(list, list', TypeOf(list[i]));
    }
  }

  /** Once all it refers to is listed, a type is no longer open. */
  lemma Finished(list: seq<ShmType>, id: nat, open: set<nat>, k: nat)
    requires ListOk(list) && Closed(list, open + {id}) && k < |list| && list[k].id == id
    requires Complete(list, TypeOf(list[k]))
    ensures Closed(list, open)
  {
    hide EntryOk, Complete;
    forall i | 0 <= i < |list| && list[i].id !in open
      ensures Complete(list, TypeOf(list[i]))
    {
      if list[i].id == id {
        assert i == k;
      }
    }
  }

  // ----- reaching types -----

  ghost predicate RefersTo(list: seq<ShmType>, a: nat, b: nat)
    requires ListOk(list)
  {
    exists i :: 0 <= i < |list| && list[i].id == a && HasChild(TypeOf(list[i]), b)
  }

  /** `path` follows non-primitive fields from `a`. */
  ghost predicate Walk(list: seq<ShmType>, a: nat, path: seq<nat>)
    requires ListOk(list)
    decreases |path|
  {
    path == [] || (RefersTo(list, a, path[0]) && Walk(list, path[0], path[1..]))
  }

  /** On a closed list everything that can be reached from a listed type is listed. */
  lemma {:induction false} ReachableListed(list: seq<ShmType>, a: nat, path: seq<nat>)
    requires ListOk(list) && Closed(list, {}) && Listed(list, a) && Walk(list, a, path)
    ensures forall x | x in path :: Listed(list, x)
    decreases |path|
  {
    hide EntryOk;
    if path != [] {
      var i :| 0 <= i < |list| && list[i].id == a && HasChild(TypeOf(list[i]), path[0]);
      assert Complete(list, TypeOf(list[i]));
      ReachableListed(list, path[0], path[1..]);
    }
  }

  // ----- why adding a type can fail -----

  /** AddShm has listed the type, ended the process, or written behind its buffer. */
  datatype Added = Listing | Fatal | Overran

  /** Why the process cannot list a type: it does not know it or finds it too big, or it overruns the buffer. */
  ghost predicate Bad(types: map<nat, MessageType>, id: nat, r: Added) {
    match r
    case Listing => false
    case Fatal => id !in types || !TestPasses(types[id], SHM_BUFFER)
    case Overran => id in types && Overruns(types[id], SHM_BUFFER)
  }

  /**
   * `path` follows non-primitive fields of types the process knows and that are not listed, to a bad one; a type the
   * process does not know is bad even if it is listed.
   */
  ghost predicate BadPath(types: map<nat, MessageType>, list: seq<ShmType>, path: seq<nat>, r: Added)
    decreases |path|
  {
    && path != [] && (path[0] in types ==> !Listed(list, path[0]))
    && if |path| == 1 then Bad(types, path[0], r)
       else path[0] in types && HasChild(types[path[0]], path[1]) && BadPath(types, list, path[1..], r)
  }

  lemma {:induction false} BadEarlier(types: map<nat, MessageType>, list: seq<ShmType>, list': seq<ShmType>, path: seq<nat>, r: Added)
    requires BadPath(types, list', path, r) && list <= list'
    ensures BadPath(types, list, path, r)
    decreases |path|
  {
    hide Bad, HasChild, Listed;
    if path[0] in types && Listed(list, path[0]) {
      ListedKept(list, list', path[0]);
    }
    if |path| > 1 {
      BadEarlier(types, list, list', path[1..], r);
    }
  }

  // ----- the cache -----

  ghost predicate TypesOk(types: map<nat, MessageType>) {
    forall id | id in types :: types[id].id == id && TypeOk(types[id], true)
  }

  /** The types the process knows that are listed. */
  ghost predicate Marked(inShm: set<nat>, types: map<nat, MessageType>, list: seq<ShmType>) {
    forall id | id in inShm :: id in types && Listed(list, id)
  }

  lemma MarkedKept(inShm: set<nat>, types: map<nat, MessageType>, list: seq<ShmType>, list': seq<ShmType>)
    requires Marked(inShm, types, list) && list <= list'
    ensures Marked(inShm, types, list')
  {
    forall id | id in inShm
      ensures id in types && Listed(list', id)
    {
      ListedKept(list, list', id);
    }
  }

  /** The entries from `from` on are what the process knows by their ids. */
  ghost predicate FromCache(list: seq<ShmType>, from: nat, types: map<nat, MessageType>)
    requires ListOk(list)
  {
    forall i | from <= i < |list| :: Cached(list[i], types)
  }

  /** The entry was made from the type the process knows by its id. */
  ghost predicate Cached(e: ShmType, types: map<nat, MessageType>)
    requires EntryOk(e)
  {
    && e.id in types && TypeOf(e) == types[e.id]
    && TestPasses(types[e.id], SHM_BUFFER) && !Overruns(types[e.id], SHM_BUFFER)
  }

  /** The process knows everything the type refers to. */
  ghost predicate Known(types: map<nat, MessageType>, id: nat) {
    id in types && forall x: nat | HasChild(types[id], x) :: x in types
  }

  /** So it is for the entries from `from` on, except for the types that are still being added. */
  ghost predicate AllKnown(list: seq<ShmType>, from: nat, types: map<nat, MessageType>, open: set<nat>) {
    forall i | from <= i < |list| && list[i].id !in open :: Known(types, list[i].id)
  }

  lemma KnownStep(list: seq<ShmType>, list': seq<ShmType>, from: nat, types: map<nat, MessageType>, open: set<nat>)
    requires list <= list' && AllKnown(list, from, types, open) && AllKnown(list', |list|, types, open)
    ensures AllKnown(list', from, types, open)
  {
    hide Known;
    forall i | from <= i < |list'| && list'[i].id !in open
      ensures Known(types, list'[i].id)
    {
      if i < |list| {
        assert list'[i] == list[i];
      }
    }
  }

  /** A type that is finished. */
  lemma KnownNow(list: seq<ShmType>, k: nat, types: map<nat, MessageType>, open: set<nat>)
    requires ListOk(list) && k < |list| && Known(types, list[k].id)
    requires AllKnown(list, k + 1, types, open + {list[k].id})
    ensures AllKnown(list, k, types, open)
  {
    hide Known, EntryOk;
  }

  lemma KnownNone(list: seq<ShmType>, types: map<nat, MessageType>, open: set<nat>)
    ensures AllKnown(list, |list|, types, open)
  {
  }

  lemma BadPathStarts(types: map<nat, MessageType>, list: seq<ShmType>, path: seq<nat>, r: Added)
    requires BadPath(types, list, path, r)
    ensures path != []
  {
  }

  lemma FieldsKnown(types: map<nat, MessageType>, id: nat)
    requires id in types
    requires forall j | 0 <= j < |types[id].fields| :: FieldKnown(types, types[id].fields[j])
    ensures Known(types, id)
  {
    forall x: nat | HasChild(types[id], x)
      ensures x in types
    {
      var i :| 0 <= i < |types[id].fields| && types[id].fields[i].fieldType == x;
      assert FieldKnown(types, types[id].fields[i]);
    }
  }

  ghost predicate FieldKnown(types: map<nat, MessageType>, f: Field) {
    IsPrimitive(f.fieldType) || f.fieldType in types
  }

  /** If a type has been listed with everything it refers to, there was no reason why it could not be. */
  lemma {:induction false} NoBadPath(types: map<nat, MessageType>, list: seq<ShmType>, list': seq<ShmType>, path: seq<nat>, r: Added)
    requires list <= list' && ListOk(list') && Closed(list', {}) && FromCache(list', |list|, types)
    requires AllKnown(list', |list|, types, {})
    requires path != [] && path[0] in types && Listed(list', path[0])
    ensures !BadPath(types, list, path, r)
    decreases |path|
  {
    hide EntryOk, TestPasses, Overruns;
    if BadPath(types, list, path, r) {
      var i :| 0 <= i < |list'| && list'[i].id == path[0];
      assert Cached(list'[i], types);
      if |path| > 1 {
        assert Complete(list', TypeOf(list'[i])) && Known(types, list'[i].id);
        NoBadPath(types, list, list', path[1..], r);
      }
    }
  }

  lemma FromCacheStep(list: seq<ShmType>, list': seq<ShmType>, from: nat, types: map<nat, MessageType>)
    requires ListOk(list) && ListOk(list') && list <= list' && FromCache(list, from, types)
    requires FromCache(list', |list|, types)
    ensures FromCache(list', from, types)
  {
    hide EntryOk;
    forall i | from <= i < |list'|
      ensures Cached(list'[i], types)
    {
      if i < |list| {
        assert list'[i] == list[i];
      }
    }
  }

  lemma FromCacheNone(list: seq<ShmType>, types: map<nat, MessageType>)
    requires ListOk(list)
    ensures FromCache(list, |list|, types)
  {
  }

  lemma FromCacheOne(list: seq<ShmType>, k: nat, types: map<nat, MessageType>)
    requires ListOk(list) && k == |list| - 1 && Cached(list[k], types)
    ensures FromCache(list, k, types)
  {
  }

  /** How many types the process knows that are not listed yet. */
  ghost function Unlisted(types: map<nat, MessageType>, list: seq<ShmType>): nat {
    |types.Keys - Ids(list)|
  }

  lemma UnlistedKept(types: map<nat, MessageType>, list: seq<ShmType>, list': seq<ShmType>)
    requires list <= list'
    ensures Unlisted(types, list') <= Unlisted(types, list)
  {
    assert forall i | 0 <= i < |list| :: list'[i] == list[i];
    SubsetSize(types.Keys - Ids(list'), types.Keys - Ids(list));
  }

  lemma UnlistedLess(types: map<nat, MessageType>, list: seq<ShmType>, e: ShmType)
    requires e.id in types && !Listed(list, e.id)
    ensures Unlisted(types, list + [e]) < Unlisted(types, list)
  {
    var list' := list + [e];
    assert forall i | 0 <= i < |list| :: list'[i] == list[i];
    assert list'[|list|] == e;
    assert e.id in types.Keys - Ids(list) && e.id in Ids(list');
    SubsetSize(types.Keys - Ids(list'), types.Keys - Ids(list) - {e.id});
  }

  lemma BadFurther(types: map<nat, MessageType>, list: seq<ShmType>, id: nat, path: seq<nat>, i: nat, r: Added)
    requires BadPath(types, list, path, r) && id in types && !Listed(list, id) && i < |types[id].fields|
    requires !IsPrimitive(path[0]) && types[id].fields[i].fieldType == path[0]
    ensures BadPath(types, list, [id] + path, r)
  {
    assert ([id] + path)[1..] == path;
  }

  ghost predicate FieldDone(list: seq<ShmType>, f: Field) {
    IsPrimitive(f.fieldType) || Listed(list, f.fieldType)
  }

  lemma FieldDoneIs(list: seq<ShmType>, f: Field)
    requires !IsPrimitive(f.fieldType) ==> Listed(list, f.fieldType)
    ensures FieldDone(list, f)
  {
  }

  lemma ListedAt(list: seq<ShmType>, k: nat)
    requires k < |list|
    ensures Listed(list, list[k].id)
  {
  }

  lemma FieldsDone(list: seq<ShmType>, t: MessageType)
    requires forall j | 0 <= j < |t.fields| :: FieldDone(list, t.fields[j])
    ensures Complete(list, t)
  {
    forall x: nat | HasChild(t, x)
      ensures Listed(list, x)
    {
      var i :| 0 <= i < |t.fields| && t.fields[i].fieldType == x;
      assert FieldDone(list, t.fields[i]);
    }
  }

  lemma FieldsDoneKept(list: seq<ShmType>, list': seq<ShmType>, fs: seq<Field>, n: nat)
    requires n <= |fs| && list <= list' && forall j | 0 <= j < n :: FieldDone(list, fs[j])
    ensures forall j | 0 <= j < n :: FieldDone(list', fs[j])
  {
    forall j | 0 <= j < n
      ensures FieldDone(list', fs[j])
    {
      assert FieldDone(list, fs[j]);
      if !IsPrimitive(fs[j].fieldType) {
        ListedKept(list, list', fs[j].fieldType);
      }
    }
  }

  // ----- why a type is listed -----

  /** `path` follows non-primitive fields of types the process knows, from `a` to `x`. */
  ghost predicate Needs(types: map<nat, MessageType>, a: nat, path: seq<nat>, x: nat)
    decreases |path|
  {
    if path == [] then a == x
    else a in types && HasChild(types[a], path[0]) && Needs(types, path[0], path[1..], x)
  }

  ghost predicate Needed(types: map<nat, MessageType>, a: nat, x: nat) {
    exists path :: Needs(types, a, path, x)
  }

  /** The entries from `from` on are there because `id` needs them. */
  ghost predicate AllNeeded(list: seq<ShmType>, from: nat, types: map<nat, MessageType>, id: nat) {
    forall i | from <= i < |list| :: Needed(types, id, list[i].id)
  }

  lemma NeededSelf(list: seq<ShmType>, k: nat, types: map<nat, MessageType>)
    requires k + 1 == |list|
    ensures AllNeeded(list, |list|, types, list[k].id) && AllNeeded(list, k, types, list[k].id)
  {
    assert Needs(types, list[k].id, [], list[k].id);
  }

  lemma NeededNone(list: seq<ShmType>, types: map<nat, MessageType>, id: nat)
    ensures AllNeeded(list, |list|, types, id)
  {
  }

  lemma NeededMore(list: seq<ShmType>, list': seq<ShmType>, from: nat, types: map<nat, MessageType>, id: nat)
    requires list <= list' && from <= |list| && AllNeeded(list, from, types, id) && AllNeeded(list', |list|, types, id)
    ensures AllNeeded(list', from, types, id)
  {
    hide Needed;
    forall i | from <= i < |list'|
      ensures Needed(types, id, list'[i].id)
    {
      if i < |list| {
        assert list'[i] == list[i];
      }
    }
  }

  /** What a field needs, the type needs. */
  lemma NeededByField(list: seq<ShmType>, from: nat, types: map<nat, MessageType>, id: nat, i: nat)
    requires id in types && i < |types[id].fields| && !IsPrimitive(types[id].fields[i].fieldType)
    requires AllNeeded(list, from, types, types[id].fields[i].fieldType)
    ensures AllNeeded(list, from, types, id)
  {
    hide IsPrimitive;
    var c := types[id].fields[i].fieldType;
    assert HasChild(types[id], c);
    hide HasChild;
    forall j | from <= j < |list|
      ensures Needed(types, id, list[j].id)
    {
      assert Needed(types, c, list[j].id);
      var path :| Needs(types, c, path, list[j].id);
      assert ([c] + path)[1..] == path;
      assert Needs(types, id, [c] + path, list[j].id);
    }
  }

  /** Shared memory's list, which every process sees. */
  class SharedTypes {
    var list: seq<ShmType>

    constructor ()
      ensures list == []
    {
      list := [];
    }
  }

  method FindShm(list: seq<ShmType>, id: nat) returns (k: nat)
    ensures k <= |list| && (k < |list| <==> Listed(list, id)) && (k < |list| ==> list[k].id == id)
  {
    for i := 0 to |list|
      invariant forall j | 0 <= j < i :: list[j].id != id
    {
      if list[i].id == id {
        return i;
      }
    }
    k := |list|;
  }

  /** The entry AddShm makes of a type, if the type fits the buffer. */
  method MakeEntry(t: MessageType) returns (r: Added, e: ShmType)
    requires TypeOk(t, true)
    ensures r == Fatal <==> !TestPasses(t, SHM_BUFFER)
    ensures r == Overran <==> Overruns(t, SHM_BUFFER)
    ensures r == Listing ==> e.id == t.id && EntryOk(e) && TypeOf(e) == t
    ensures r == Listing ==> forall types | t.id in types && types[t.id] == t :: Cached(e, types)
  {
    hide Encode, Decode, TypeOk, TestPasses;
    e := ShmType(t.id, []);
    var buffer := new byte[SHM_BUFFER];
    var s := Serialize(t, buffer, SHM_BUFFER);
    match s
    case TooSmall => r := Fatal;
    case Overrun => r := Overran;
    case Written(size) =>
      r := Listing;
      RoundTrip(t, true, []);
      assert Encode(t, true) + [] == Encode(t, true);
      e := ShmType(t.id, buffer[..size]);
  }

  class TypeCache {
    const shm: SharedTypes
    var types: map<nat, MessageType>
    var inShm: set<nat>

    ghost predicate Valid()
      reads this, shm
    {
      && ListOk(shm.list) && TypesOk(types)
      && Marked(inShm, types, shm.list)
    }

    constructor (s: SharedTypes)
      requires ListOk(s.list)
      ensures Valid() && shm == s && types == map[]
    {
      shm, types, inShm := s, map[], {};
    }

    /** Add: the first definition of a type stays. */
    method Add(t: MessageType)
      requires Valid() && TypeOk(t, true)
      modifies this`types
      ensures Valid() && types == if t.id in old(types) then old(types) else old(types)[t.id := t]
    {
      if t.id !in types {
        types := types[t.id := t];
      }
    }

    /**
     * AddShm. `open` holds the types whose fields are still being added; a caller from outside has none, and for such a
     * caller it lists the type exactly if there is no path to a bad one. If it does not, `path` is one.
     */
    method AddShm(id: nat, ghost open: set<nat>) returns (r: Added, ghost path: seq<nat>)
      requires Valid() && Closed(shm.list, open)
      modifies this`inShm, shm
      ensures Valid() && old(shm.list) <= shm.list
      ensures r == Listing ==> Listed(shm.list, id) && Closed(shm.list, open) && id in types
      ensures r == Listing ==> AllKnown(shm.list, |old(shm.list)|, types, open)
      ensures r != Listing ==> BadPath(types, old(shm.list), path, r) && path[0] == id
      ensures r == Listing && open == {} ==> forall p, b :: BadPath(types, old(shm.list), p, b) ==> p[0] != id
      ensures FromCache(shm.list, |old(shm.list)|, types)
      ensures AllNeeded(shm.list, |old(shm.list)|, types, id)
      ensures !Listed(old(shm.list), id) && r == Listing ==>
        |old(shm.list)| < |shm.list| && shm.list[|old(shm.list)|].id == id
      ensures Listed(old(shm.list), id) || id !in types ==> shm.list == old(shm.list)
      ensures Listed(old(shm.list), id) ==> inShm == old(inShm) + if id in types then {id} else {}
      decreases Unlisted(types, shm.list), 1
    {
      hide EntryOk, TypeOf, HasChild, Closed, ListOk, Listed, FromCache, Unlisted, AllKnown, BadPath, AllNeeded;
      r, path := ListType(id, open);
      if r == Listing && open == {} {
        forall p, b | BadPath(types, old(shm.list), p, b)
          ensures p != [] && p[0] != id
        {
          BadPathStarts(types, old(shm.list), p, b);
          if p[0] == id {
            NoBadPath(types, old(shm.list), shm.list, p, b);
          }
        }
      }
    }

    method ListType(id: nat, ghost open: set<nat>) returns (r: Added, ghost path: seq<nat>)
      requires Valid() && Closed(shm.list, open)
      modifies this`inShm, shm
      ensures Valid() && old(shm.list) <= shm.list
      ensures r == Listing ==> Listed(shm.list, id) && Closed(shm.list, open) && id in types
      ensures r == Listing ==> AllKnown(shm.list, |old(shm.list)|, types, open)
      ensures r != Listing ==> BadPath(types, old(shm.list), path, r) && path[0] == id
      ensures FromCache(shm.list, |old(shm.list)|, types)
      ensures AllNeeded(shm.list, |old(shm.list)|, types, id)
      ensures !Listed(old(shm.list), id) && r == Listing ==>
        |old(shm.list)| < |shm.list| && shm.list[|old(shm.list)|].id == id
      ensures Listed(old(shm.list), id) || id !in types ==> shm.list == old(shm.list)
      ensures Listed(old(shm.list), id) ==> inShm == old(inShm) + if id in types then {id} else {}
      decreases Unlisted(types, shm.list), 0
    {
      hide EntryOk, TypeOf, Ids, HasChild, Closed, ListOk, Encode, Decode, Listed, FromCache, Unlisted, TypeOk;
      hide TestPasses, Overruns, Known, Cached, AllNeeded;
      path := [id];
      FromCacheNone(shm.list, types);
      NeededNone(shm.list, types, id);
      if id !in types {
        return Fatal, path;
      }
      if id in inShm {
        return Listing, path;
      }
      var k := FindShm(shm.list, id);
      if k < |shm.list| {
        inShm := inShm + {id};
        return Listing, path;
      }
      var entry;
      r, entry := MakeEntry(types[id]);
      if r != Listing {
        return;
      }
      Appended(shm.list, entry, open);
      UnlistedLess(types, shm.list, entry);
      MarkedKept(inShm, types, shm.list, shm.list + [entry]);
      shm.list := shm.list + [entry];
      ghost var after := shm.list;
      assert after[k] == entry;
      FromCacheOne(after, k, types);
      NeededSelf(after, k, types);
      r, path := AddFields(id, k, open, old(shm.list));
      FromCacheStep(after, shm.list, k, types);
      NeededMore(after, shm.list, k, types, id);
      if r == Listing {
        assert shm.list[k] == after[k];
        KnownNow(shm.list, k, types, open);
      }
    }

    /** The loop over the fields of the type that has just been put at the end of the list, which was `first` before. */
    method AddFields(id: nat, ghost k: nat, ghost open: set<nat>, ghost first: seq<ShmType>)
      returns (r: Added, ghost path: seq<nat>)
      requires Valid() && Closed(shm.list, open + {id}) && id in types && first <= shm.list && !Listed(first, id)
      requires k < |shm.list| && shm.list[k].id == id && TypeOf(shm.list[k]) == types[id]
      modifies this`inShm, shm
      ensures Valid() && old(shm.list) <= shm.list
      ensures r == Listing ==> Listed(shm.list, id) && Closed(shm.list, open) && Known(types, id)
      ensures r == Listing ==> AllKnown(shm.list, |old(shm.list)|, types, open + {id})
      ensures r != Listing ==> BadPath(types, first, path, r) && path[0] == id
      ensures FromCache(shm.list, |old(shm.list)|, types) && AllNeeded(shm.list, |old(shm.list)|, types, id)
      decreases Unlisted(types, shm.list), 2
    {
      hide EntryOk, TypeOf, Ids, HasChild, Closed, ListOk, Encode, Decode, Listed, FromCache, FieldDone, Unlisted;
      hide TestPasses, Overruns, AllKnown, Known, BadPath, AllNeeded;
      var fields := types[id].fields;
      ghost var start := shm.list;
      path := [];
      FromCacheNone(start, types);
      KnownNone(start, types, open + {id});
      NeededNone(start, types, id);
      for i := 0 to |fields|
        invariant Valid() && start <= shm.list && Closed(shm.list, open + {id}) && FromCache(shm.list, |start|, types)
        invariant AllKnown(shm.list, |start|, types, open + {id}) && AllNeeded(shm.list, |start|, types, id)
        invariant forall j | 0 <= j < i :: FieldDone(shm.list, fields[j]) && FieldKnown(types, fields[j])
      {
        ghost var before := shm.list;
        if !IsPrimitive(fields[i].fieldType) {
          UnlistedKept(types, start, before);
          r, path := ListType(fields[i].fieldType, open + {id});
          FromCacheStep(before, shm.list, |start|, types);
          FieldsDoneKept(before, shm.list, fields, i);
          NeededByField(shm.list, |before|, types, id, i);
          NeededMore(before, shm.list, |start|, types, id);
          if r != Listing {
            BadEarlier(types, first, before, path, r);
            BadFurther(types, first, id, path, i, r);
            path := [id] + path;
            return;
          }
          KnownStep(before, shm.list, |start|, types, open + {id});
        }
        FieldDoneIs(shm.list, fields[i]);
      }
      FieldsDone(shm.list, types[id]);
      FieldsKnown(types, id);
      assert shm.list[k] == start[k];
      ListedAt(shm.list, k);
      Finished(shm.list, id, open, k);
      r := Listing;
    }

    /** Get: from the cache or else from shared memory; nothing when the original ends the process. */
    method Get(id: nat) returns (t: Option<MessageType>)
      requires Valid()
      modifies this`types, this`inShm
      ensures Valid()
      ensures id in old(types) ==> t == Some(old(types)[id]) && types == old(types)
      ensures id !in old(types) ==> (t.Some? <==> Listed(shm.list, id))
      ensures id !in old(types) && t.Some? ==>
                exists k :: 0 <= k < |shm.list| && shm.list[k].id == id && t.value == TypeOf(shm.list[k])
      ensures types == if t.Some? then old(types)[id := t.value] else old(types)
      ensures inShm == old(inShm) + if t.Some? && id !in old(types) then {id} else {}
    {
      hide Decode, TypeOk;
      if id in types {
        assert types == types[id := types[id]];
        return Some(types[id]);
      }
      var k := FindShm(shm.list, id);
      if k == |shm.list| {
        return None;
      }
      var bytes;
      t, bytes := Deserialize(shm.list[k].serialized, true);
      DecodeSound(shm.list[k].serialized, true);
      types, inShm := types[id := t.value], inShm + {id};
    }
  }
}
