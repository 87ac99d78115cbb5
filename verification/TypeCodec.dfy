/** Serialized message types (MessageType in aos/common/queue_types.h and queue_types.cc). */
module TypeCodec {
  import opened Basics
  import opened ByteOrder

  datatype Field = Field(fieldType: nat, length: nat, name: seq<byte>)

  datatype MessageType = MessageType(superSize: nat, id: nat, name: seq<byte>, fields: seq<Field>)

  /** Everything fits its integer. Without a serialized length (`w` false) the length of a field is zero. */
  predicate FieldOk(f: Field, w: bool) {
    && f.fieldType < 0x1_0000_0000 && f.length < 0x1_0000_0000 && |f.name| < 0x1_0000
    && (!w ==> f.length == 0)
  }

  predicate FieldsOk(fs: seq<Field>, w: bool) {
    forall i | 0 <= i < |fs| :: FieldOk(fs[i], w)
  }

  predicate TypeOk(t: MessageType, w: bool) {
    && t.superSize < 0x1_0000 && t.id < 0x1_0000_0000 && |t.name| < 0x1_0000 && |t.fields| < 0x1_0000
    && FieldsOk(t.fields, w)
  }

  // ----- integers in network byte order -----

  function Be16(n: nat): (b: seq<byte>)
    ensures |b| == 2
  {
    [n / 256 % 256, n % 256]
  }

  function Be32(n: nat): (b: seq<byte>)
    ensures |b| == 4
  {
    Be16(n / 0x1_0000) + Be16(n % 0x1_0000)
  }

  function Host16(b: seq<byte>): (n: nat)
    requires |b| >= 2
    ensures n < 0x1_0000
  {
    256 * (b[0] as int) + b[1] as int
  }

  function Host32(b: seq<byte>): (n: nat)
    requires |b| >= 4
    ensures n < 0x1_0000_0000
  {
    0x1_0000 * Host16(b) + Host16(b[2..])
  }

  lemma HostOfBe16(n: nat, rest: seq<byte>)
    requires n < 0x1_0000
    ensures Host16(Be16(n) + rest) == n
  {
  }

  lemma HostOfBe32(n: nat, rest: seq<byte>)
    requires n < 0x1_0000_0000
    ensures Host32(Be32(n) + rest) == n
  {
    hide Be16, Host16;
    var high, low := n / 0x1_0000, n % 0x1_0000;
    assert Be32(n) + rest == Be16(high) + (Be16(low) + rest);
    assert (Be32(n) + rest)[2..] == Be16(low) + rest;
    HostOfBe16(high, Be16(low) + rest);
    HostOfBe16(low, rest);
  }

  lemma BeOfHost16(b: seq<byte>)
    requires |b| >= 2
    ensures Be16(Host16(b)) == b[..2]
  {
  }

  lemma BeOfHost32(b: seq<byte>)
    requires |b| >= 4
    ensures Be32(Host32(b)) == b[..4]
  {
    hide Be16, Host16;
    BeOfHost16(b);
    BeOfHost16(b[2..]);
    assert b[..4] == b[..2] + b[2..][..2];
  }

  // ----- the format -----

  function Length(f: Field, w: bool): seq<byte> {
    if w then Be32(f.length) else []
  }

  function EncodeField(f: Field, w: bool): seq<byte> {
    Be32(f.fieldType) + (Length(f, w) + (Be16(|f.name|) + f.name))
  }

  function EncodeFields(fs: seq<Field>, w: bool): seq<byte> {
    if fs == [] then [] else EncodeField(fs[0], w) + EncodeFields(fs[1..], w)
  }

  function Encode(t: MessageType, w: bool): seq<byte> {
    Be16(t.superSize) + (Be32(t.id) + (Be16(|t.name|) + (Be16(|t.fields|) + (t.name + EncodeFields(t.fields, w)))))
  }

  /** The name whose size stands before it. */
  function DecodeName(b: seq<byte>): Option<(seq<byte>, seq<byte>)> {
    if |b| < 2 || |b| - 2 < Host16(b) then None else Some((b[2..2 + Host16(b)], b[2 + Host16(b)..]))
  }

  function DecodeField(b: seq<byte>, w: bool): Option<(Field, seq<byte>)> {
    var k := if w then 8 else 4;
    if |b| < k + 2 then None
    else
      match DecodeName(b[k..])
      case None => None
      case Some((name, rest)) => Some((Field(Host32(b), if w then Host32(b[4..]) else 0, name), rest))
  }

  function DecodeFields(b: seq<byte>, n: nat, w: bool): Option<(seq<Field>, seq<byte>)> {
    if n == 0 then Some(([], b))
    else
      match DecodeField(b, w)
      case None => None
      case Some((f, rest)) =>
        match DecodeFields(rest, n - 1, w)
        case None => None
        case Some((fs, rest')) => Some(([f] + fs, rest'))
  }

  function Decode(b: seq<byte>, w: bool): Option<(MessageType, seq<byte>)> {
    if |b| < 10 || |b| - 10 < Host16(b[6..]) then None
    else
      var n := Host16(b[6..]);
      match DecodeFields(b[10 + n..], Host16(b[8..]), w)
      case None => None
      case Some((fs, rest)) => Some((MessageType(Host16(b), Host32(b[2..]), b[10..10 + n], fs), rest))
  }

  // ----- decoding inverts encoding -----

  lemma Split(a: seq<byte>, b: seq<byte>)
    ensures (a + b)[|a|..] == b && (a + b)[..|a|] == a
  {
  }

  lemma Assoc(a: seq<byte>, b: seq<byte>, c: seq<byte>)
    ensures a + b + c == a + (b + c)
  {
  }

  lemma NameRoundTrip(name: seq<byte>, rest: seq<byte>)
    requires |name| < 0x1_0000
    ensures DecodeName(Be16(|name|) + name + rest) == Some((name, rest))
  {
    hide Be16, Host16;
    var b := Be16(|name|) + name + rest;
    Assoc(Be16(|name|), name, rest);
    HostOfBe16(|name|, name + rest);
    Split(Be16(|name|) + name, rest);
    assert b[2..2 + |name|] == name;
  }

  lemma FieldRoundTrip(f: Field, w: bool, rest: seq<byte>)
    requires FieldOk(f, w)
    ensures DecodeField(EncodeField(f, w) + rest, w) == Some((f, rest))
  {
    hide Be16, Be32, Host16, Host32, DecodeName;
    var b, k := EncodeField(f, w) + rest, if w then 8 else 4;
    var named := Be16(|f.name|) + f.name + rest;
    assert b == Be32(f.fieldType) + (Length(f, w) + named);
    HostOfBe32(f.fieldType, Length(f, w) + named);
    if w {
      HostOfBe32(f.length, named);
      assert b[4..] == Be32(f.length) + named;
    }
    assert b[k..] == named;
    NameRoundTrip(f.name, rest);
  }

  lemma {:induction false} FieldsRoundTrip(fs: seq<Field>, w: bool, rest: seq<byte>)
    requires FieldsOk(fs, w)
    ensures DecodeFields(EncodeFields(fs, w) + rest, |fs|, w) == Some((fs, rest))
    decreases |fs|
  {
    hide EncodeField, DecodeField;
    if fs == [] {
      assert [] + rest == rest;
    } else {
      var more := EncodeFields(fs[1..], w) + rest;
      Assoc(EncodeField(fs[0], w), EncodeFields(fs[1..], w), rest);
      FieldRoundTrip(fs[0], w, more);
      FieldsRoundTrip(fs[1..], w, rest);
      assert [fs[0]] + fs[1..] == fs;
    }
  }

  /** Deserializing what was serialized gives the type back and leaves exactly the bytes behind it. */
  lemma RoundTrip(t: MessageType, w: bool, rest: seq<byte>)
    requires TypeOk(t, w)
    ensures Decode(Encode(t, w) + rest, w) == Some((t, rest))
  {
    hide Be16, Be32, Host16, Host32, EncodeFields, DecodeFields;
    var fields := EncodeFields(t.fields, w) + rest;
    var b := Encode(t, w) + rest;
    var b8 := Be16(|t.fields|) + (t.name + fields);
    var b6 := Be16(|t.name|) + b8;
    var b2 := Be32(t.id) + b6;
    assert b == Be16(t.superSize) + b2;
    assert b[2..] == b2 && b[6..] == b6 && b[8..] == b8;
    HostOfBe16(t.superSize, b2);
    HostOfBe32(t.id, b6);
    HostOfBe16(|t.name|, b8);
    HostOfBe16(|t.fields|, t.name + fields);
    assert b[10..] == t.name + fields;
    assert b[10..10 + |t.name|] == t.name && b[10 + |t.name|..] == fields;
    FieldsRoundTrip(t.fields, w, rest);
  }

  // ----- nothing else decodes -----

  lemma NameSound(b: seq<byte>)
    requires DecodeName(b).Some?
    ensures
      var (name, rest) := DecodeName(b).value;
      |name| < 0x1_0000 && b == Be16(|name|) + name + rest
  {
    hide Be16, Host16;
    BeOfHost16(b);
    var (name, rest) := DecodeName(b).value;
    assert b == b[..2] + b[2..2 + |name|] + b[2 + |name|..];
  }

  lemma FieldSound(b: seq<byte>, w: bool)
    requires DecodeField(b, w).Some?
    ensures
      var (f, rest) := DecodeField(b, w).value;
      FieldOk(f, w) && b == EncodeField(f, w) + rest
  {
    hide Be16, Be32, Host16, Host32, DecodeName;
    var k := if w then 8 else 4;
    var (f, rest) := DecodeField(b, w).value;
    NameSound(b[k..]);
    BeOfHost32(b);
    if w {
      BeOfHost32(b[4..]);
      assert b == b[..4] + (b[4..][..4] + b[8..]);
    } else {
      assert b == b[..4] + b[4..];
    }
  }

  lemma {:induction false} FieldsSound(b: seq<byte>, n: nat, w: bool)
    requires DecodeFields(b, n, w).Some?
    ensures
      var (fs, rest) := DecodeFields(b, n, w).value;
      |fs| == n && FieldsOk(fs, w) && b == EncodeFields(fs, w) + rest
    decreases n
  {
    hide EncodeField, DecodeField, FieldOk;
    if n > 0 {
      FieldSound(b, w);
      var (f, more) := DecodeField(b, w).value;
      FieldsSound(more, n - 1, w);
      var (fs, rest) := DecodeFields(more, n - 1, w).value;
      assert ([f] + fs)[1..] == fs;
      Assoc(EncodeField(f, w), EncodeFields(fs, w), rest);
    }
  }

  lemma CutHeader(b: seq<byte>, n: nat)
    requires 10 + n <= |b|
    ensures b == b[..2] + (b[2..][..4] + (b[6..][..2] + (b[8..][..2] + (b[10..10 + n] + b[10 + n..]))))
  {
  }

  lemma JoinHeader(a: seq<byte>, b: seq<byte>, c: seq<byte>, d: seq<byte>, name: seq<byte>, fields: seq<byte>, rest: seq<byte>)
    ensures a + (b + (c + (d + (name + (fields + rest))))) == a + (b + (c + (d + (name + fields)))) + rest
  {
  }

  /** Whatever deserializes is a serialized type followed by the bytes that are left. */
  lemma DecodeSound(b: seq<byte>, w: bool)
    requires Decode(b, w).Some?
    ensures
      var (t, rest) := Decode(b, w).value;
      TypeOk(t, w) && b == Encode(t, w) + rest
  {
    hide Be16, Be32, Host16, Host32, EncodeFields, DecodeFields;
    var (t, rest) := Decode(b, w).value;
    var n := |t.name|;
    BeOfHost16(b);
    BeOfHost32(b[2..]);
    BeOfHost16(b[6..]);
    BeOfHost16(b[8..]);
    FieldsSound(b[10 + n..], Host16(b[8..]), w);
    CutHeader(b, n);
    JoinHeader(Be16(t.superSize), Be32(t.id), Be16(n), Be16(|t.fields|), t.name, EncodeFields(t.fields, w), rest);
  }

  /** A serialized type cut short anywhere does not deserialize. */
  lemma PrefixRejected(t: MessageType, w: bool, k: nat)
    requires TypeOk(t, w) && k < |Encode(t, w)|
    ensures Decode(Encode(t, w)[..k], w) == None
  {
    hide Encode, Decode;
    var all := Encode(t, w);
    RoundTrip(t, w, []);
    assert all + [] == all && all[..k] + all[k..] == all;
    if Decode(all[..k], w).Some? {
      DecodeSound(all[..k], w);
      var (t', rest) := Decode(all[..k], w).value;
      Assoc(Encode(t', w), rest, all[k..]);
      RoundTrip(t', w, rest + all[k..]);
      assert false;
    }
  }

  // ----- the loops -----

  /** The bytes of the fields, as Serialize adds them up: in 16 bits. */
  ghost function FieldsSize(fs: seq<Field>): nat {
    if fs == [] then 0 else FieldsSize(fs[..|fs| - 1]) + 10 + |fs[|fs| - 1].name|
  }

  lemma {:induction false} EncodeFieldsAppend(fs: seq<Field>, f: Field, w: bool)
    ensures EncodeFields(fs + [f], w) == EncodeFields(fs, w) + EncodeField(f, w)
    decreases |fs|
  {
    hide EncodeField;
    if fs == [] {
      assert EncodeFields([], w) == [];
      assert [f] == [] + [f];
    } else {
      assert (fs + [f])[1..] == fs[1..] + [f];
      EncodeFieldsAppend(fs[1..], f, w);
    }
  }

  lemma {:induction false} FieldsSizeMeans(fs: seq<Field>, w: bool)
    ensures |EncodeFields(fs, w)| == FieldsSize(fs) - if w then 0 else 4 * |fs|
    decreases |fs|
  {
    if fs != [] {
      var n := |fs| - 1;
      FieldsSizeMeans(fs[..n], w);
      EncodeFieldsAppend(fs[..n], fs[n], w);
      assert fs[..n] + [fs[n]] == fs;
    }
  }

  lemma {:induction false} FieldsSizeGrows(fs: seq<Field>, k: nat)
    requires k <= |fs|
    ensures FieldsSize(fs[..k]) <= FieldsSize(fs)
    decreases |fs|
  {
    if k < |fs| {
      var n := |fs| - 1;
      FieldsSizeGrows(fs[..n], k);
      assert fs[..n][..k] == fs[..k];
    } else {
      assert fs[..k] == fs;
    }
  }

  // ----- which field stands where -----

  /** At `k` stands `v`, the most significant byte first. */
  predicate Int16At(b: seq<byte>, k: nat, v: nat) {
    k + 2 <= |b| && 0x100 * (b[k] as int) + b[k + 1] as int == v
  }

  predicate Int32At(b: seq<byte>, k: nat, v: nat) {
    && k + 4 <= |b|
    && 0x100_0000 * (b[k] as int) + 0x1_0000 * (b[k + 1] as int) + 0x100 * (b[k + 2] as int) + b[k + 3] as int == v
  }

  lemma Be16At(b: seq<byte>, k: nat, v: nat, rest: seq<byte>)
    requires v < 0x1_0000 && k <= |b| && b[k..] == Be16(v) + rest
    ensures Int16At(b, k, v)
  {
    assert b[k] == b[k..][0] && b[k + 1] == b[k..][1];
  }

  lemma Be32At(b: seq<byte>, k: nat, v: nat, rest: seq<byte>)
    requires v < 0x1_0000_0000 && k <= |b| && b[k..] == Be32(v) + rest
    ensures Int32At(b, k, v)
  {
    hide Be16, Int16At, Int32At;
    var high, low := v / 0x1_0000, v % 0x1_0000;
    assert b[k..] == Be16(high) + (Be16(low) + rest);
    Be16At(b, k, high, Be16(low) + rest);
    assert b[k + 2..] == b[k..][2..] == Be16(low) + rest;
    Be16At(b, k + 2, low, rest);
    TwoHalves(b, k, v);
  }

  lemma TwoHalves(b: seq<byte>, k: nat, v: nat)
    requires Int16At(b, k, v / 0x1_0000) && Int16At(b, k + 2, v % 0x1_0000)
    ensures Int32At(b, k, v)
  {
  }

  /** In front: the size of the superclass at 0, the id at 2, the size of the name at 6, the number of fields at 8. */
  lemma HeaderLayout(t: MessageType, w: bool)
    requires TypeOk(t, w)
    ensures Int16At(Encode(t, w), 0, t.superSize) && Int32At(Encode(t, w), 2, t.id)
    ensures Int16At(Encode(t, w), 6, |t.name|) && Int16At(Encode(t, w), 8, |t.fields|)
    ensures |Encode(t, w)| == 10 + |t.name| + |EncodeFields(t.fields, w)|
    ensures Encode(t, w)[10..10 + |t.name|] == t.name && Encode(t, w)[10 + |t.name|..] == EncodeFields(t.fields, w)
  {
    hide Be16, Be32, Int16At, Int32At, EncodeFields, FieldsOk;
    var b, fields := Encode(t, w), EncodeFields(t.fields, w);
    var b8 := Be16(|t.fields|) + (t.name + fields);
    var b6 := Be16(|t.name|) + b8;
    var b2 := Be32(t.id) + b6;
    assert b[0..] == b == Be16(t.superSize) + b2;
    assert b[2..] == b2 && b[6..] == b6 && b[8..] == b8;
    Be16At(b, 0, t.superSize, b2);
    Be32At(b, 2, t.id, b6);
    Be16At(b, 6, |t.name|, b8);
    Be16At(b, 8, |t.fields|, t.name + fields);
    assert b[10..] == t.name + fields;
  }

  /** A field: its type at 0, its length at 4 if it is written, the size of its name, its name. */
  lemma FieldLayout(f: Field, w: bool)
    requires FieldOk(f, w)
    ensures
      var b, k := EncodeField(f, w), if w then 8 else 4;
      && Int32At(b, 0, f.fieldType) && (w ==> Int32At(b, 4, f.length))
      && |b| == k + 2 + |f.name| && Int16At(b, k, |f.name|) && b[k + 2..] == f.name
  {
    hide Be16, Be32, Int16At, Int32At;
    var b, k, named := EncodeField(f, w), if w then 8 else 4, Be16(|f.name|) + f.name;
    assert b[0..] == b;
    Be32At(b, 0, f.fieldType, Length(f, w) + named);
    assert b[4..] == Length(f, w) + named;
    if w {
      Be32At(b, 4, f.length, named);
    }
    assert b[k..] == named;
    Be16At(b, k, |f.name|, f.name);
    assert b[k + 2..] == b[k..][2..] == f.name;
  }

  /** Where field `i` starts. */
  ghost function FieldStart(t: MessageType, w: bool, i: nat): int
    requires i <= |t.fields|
  {
    10 + |t.name| + FieldsSize(t.fields[..i]) - if w then 0 else 4 * i
  }

  /** The fields stand behind the name, one behind the other. */
  lemma FieldAt(t: MessageType, w: bool, i: nat)
    requires TypeOk(t, w) && i < |t.fields|
    ensures
      var p, f := FieldStart(t, w, i), EncodeField(t.fields[i], w);
      10 <= p && p + |f| <= |Encode(t, w)| && Encode(t, w)[p..p + |f|] == f
  {
    hide EncodeField, Encode, FieldsOk, Int16At, Int32At, EncodeFields, FieldsSize;
    var fs := t.fields;
    HeaderLayout(t, w);
    FieldsSizeMeans(fs[..i], w);
    FieldsSplit(fs, w, i);
    var front, f, back := EncodeFields(fs[..i], w), EncodeField(fs[i], w), EncodeFields(fs[i + 1..], w);
    assert EncodeFields(fs, w)[|front|..|front| + |f|] == f;
  }

  lemma {:induction false} FieldsSplit(fs: seq<Field>, w: bool, i: nat)
    requires i < |fs|
    ensures EncodeFields(fs, w) == EncodeFields(fs[..i], w) + (EncodeField(fs[i], w) + EncodeFields(fs[i + 1..], w))
    decreases i
  {
    hide EncodeField;
    if i == 0 {
      assert EncodeFields(fs[..0], w) == [];
    } else {
      FieldsSplit(fs[1..], w, i - 1);
      assert fs[1..][..i - 1] == fs[..i][1..] && fs[1..][i..] == fs[i + 1..];
    }
  }

  /** The loop adds the sizes up in 16 bits. */
  method SumFieldSizes(fs: seq<Field>) returns (size: nat)
    ensures size == FieldsSize(fs) % 0x1_0000
  {
    size := 0;
    for i := 0 to |fs|
      invariant size == FieldsSize(fs[..i]) % 0x1_0000
    {
      AddWraps(FieldsSize(fs[..i]), 10 + |fs[i].name|);
      size := (size + 10 + |fs[i].name|) % 0x1_0000;
      assert fs[..i + 1][..i] == fs[..i];
    }
    assert fs[..|fs|] == fs;
  }

  lemma AddWraps(a: nat, b: nat)
    ensures (a % 0x1_0000 + b) % 0x1_0000 == (a + b) % 0x1_0000
  {
  }

  /** The test at the start of Serialize, with the size of the fields as the 16-bit sum has it. */
  ghost predicate TestPasses(t: MessageType, maxBytes: nat) {
    10 + |t.name| + FieldsSize(t.fields) % 0x1_0000 <= maxBytes
  }

  /** The test passes although the serialized type is longer than the space for it. */
  ghost predicate Overruns(t: MessageType, maxBytes: nat) {
    TestPasses(t, maxBytes) && maxBytes < |Encode(t, true)|
  }

  /** What Serialize does: it writes so many bytes, returns -1, or goes on writing behind the space it was given. */
  datatype Serialized = Written(size: nat) | TooSmall | Overrun

  lemma EncodeSize(t: MessageType)
    ensures |Encode(t, true)| == 10 + |t.name| + FieldsSize(t.fields)
  {
    FieldsSizeMeans(t.fields, true);
  }

  /** It can only overrun if the fields take more than 16 bits can count; a type that fits is always written. */
  lemma OverrunNeedsWrap(t: MessageType, maxBytes: nat)
    ensures Overruns(t, maxBytes) ==> FieldsSize(t.fields) >= 0x1_0000
    ensures |Encode(t, true)| <= maxBytes ==> TestPasses(t, maxBytes)
  {
    EncodeSize(t);
  }

  /** A type with 6554 fields without names passes the test for 768 bytes and takes more than 65000. */
  lemma OverrunWitness() returns (t: MessageType)
    ensures TypeOk(t, true) && |t.fields| == 6554 && Overruns(t, 768)
  {
    t := MessageType(0, 0, [], seq(6554, _ => Field(0, 0, [])));
    UnnamedSize(t.fields);
    EncodeSize(t);
  }

  lemma {:induction false} UnnamedSize(fs: seq<Field>)
    requires forall i | 0 <= i < |fs| :: fs[i].name == []
    ensures FieldsSize(fs) == 10 * |fs|
    decreases |fs|
  {
    if fs != [] {
      UnnamedSize(fs[..|fs| - 1]);
    }
  }

  /** Serialize into a buffer of which `maxBytes` may be used. */
  method Serialize(t: MessageType, buffer: array<byte>, maxBytes: nat) returns (r: Serialized)
    requires TypeOk(t, true) && maxBytes <= buffer.Length
    modifies buffer
    ensures r.TooSmall? <==> !TestPasses(t, maxBytes)
    ensures r.Overrun? <==> Overruns(t, maxBytes)
    ensures r.Written? ==> r.size == |Encode(t, true)| <= maxBytes && buffer[..r.size] == Encode(t, true)
    ensures r.Written? ==> buffer[r.size..] == old(buffer[r.size..])
    ensures r.TooSmall? ==> buffer[..] == old(buffer[..])
  {
    hide Be16, Be32, EncodeFields, FieldsSize, FieldsOk;
    var fieldsSize := SumFieldSizes(t.fields);
    FieldsSizeMeans(t.fields, true);
    if maxBytes < 10 + |t.name| + fieldsSize {
      return TooSmall;
    }
    var header := Be16(t.superSize) + Be32(t.id) + Be16(|t.name|) + Be16(|t.fields|) + t.name;
    var at := Copy(buffer, 0, header);
    ghost var was := old(buffer[..]);
    assert buffer[at..] == was[at..];
    assert Encode(t, true) == header + EncodeFields(t.fields, true);
    var end, over := WriteFields(t.fields, buffer, at, maxBytes);
    if over {
      return Overrun;
    }
    assert was[at..][end - at..] == was[end..];
    r := Written(end);
  }

  /** The loop over the fields, up to the first one that does not fit before `limit`. */
  method WriteFields(fs: seq<Field>, buffer: array<byte>, start: nat, limit: nat) returns (at: nat, over: bool)
    requires start <= limit <= buffer.Length
    modifies buffer
    ensures over <==> start + |EncodeFields(fs, true)| > limit
    ensures !over ==> at == start + |EncodeFields(fs, true)|
    ensures !over ==> buffer[..at] == old(buffer[..start]) + EncodeFields(fs, true)
    ensures !over ==> buffer[at..] == old(buffer[start..])[at - start..]
  {
    hide EncodeField, EncodeFields;
    at := start;
    EncodeFieldsEmpty();
    ghost var before, after := buffer[..start], buffer[start..];
    assert after[0..] == after;
    for i := 0 to |fs|
      invariant at == start + |EncodeFields(fs[..i], true)| <= limit
      invariant buffer[..at] == before + EncodeFields(fs[..i], true)
      invariant buffer[at..] == after[at - start..]
    {
      ghost var was := at;
      EncodeFieldsPrefix(fs, i);
      if at + |EncodeField(fs[i], true)| > limit {
        over := true;
        return;
      }
      at := Copy(buffer, at, EncodeField(fs[i], true));
      Assoc(before, EncodeFields(fs[..i], true), EncodeField(fs[i], true));
      assert after[at - start..] == after[was - start..][at - was..];
    }
    assert fs[..|fs|] == fs;
    over := false;
  }

  lemma EncodeFieldsEmpty()
    ensures EncodeFields([], true) == []
  {
  }

  lemma EncodeFieldsPrefix(fs: seq<Field>, i: nat)
    requires i < |fs|
    ensures EncodeFields(fs[..i + 1], true) == EncodeFields(fs[..i], true) + EncodeField(fs[i], true)
    ensures |EncodeFields(fs[..i + 1], true)| <= |EncodeFields(fs, true)|
  {
    hide EncodeField, EncodeFields;
    assert fs[..i + 1] == fs[..i] + [fs[i]];
    EncodeFieldsAppend(fs[..i], fs[i], true);
    FieldsSizeMeans(fs[..i + 1], true);
    FieldsSizeMeans(fs, true);
    FieldsSizeGrows(fs, i + 1);
  }

  /** Deserialize; `left` is the number of bytes behind the type. */
  method Deserialize(buffer: seq<byte>, w: bool) returns (r: Option<MessageType>, left: nat)
    ensures r.Some? <==> Decode(buffer, w).Some?
    ensures r.Some? ==> r.value == Decode(buffer, w).value.0 && left == |Decode(buffer, w).value.1|
  {
    hide Host16, Host32, DecodeField;
    if |buffer| < 10 {
      return None, |buffer|;
    }
    var nameLength, numberFields := Host16(buffer[6..]), Host16(buffer[8..]);
    if |buffer| - 10 < nameLength {
      return None, |buffer| - 10;
    }
    var rest, fields: seq<Field> := buffer[10 + nameLength..], [];
    ghost var start := rest;
    PrependedNone(DecodeFields(start, numberFields, w));
    for i := 0 to numberFields
      invariant DecodeFields(start, numberFields, w) == Prepended(fields, DecodeFields(rest, numberFields - i, w))
    {
      var next := DecodeField(rest, w);
      if next.None? {
        return None, |rest|;
      }
      PrependedStep(fields, rest, numberFields - i, w);
      fields, rest := fields + [next.value.0], next.value.1;
    }
    assert fields + [] == fields;
    r := Some(MessageType(Host16(buffer), Host32(buffer[2..]), buffer[10..10 + nameLength], fields));
    left := |rest|;
  }

  ghost function Prepended(fs: seq<Field>, d: Option<(seq<Field>, seq<byte>)>): Option<(seq<Field>, seq<byte>)> {
    match d
    case None => None
    case Some((more, rest)) => Some((fs + more, rest))
  }

  lemma PrependedNone(d: Option<(seq<Field>, seq<byte>)>)
    ensures Prepended([], d) == d
  {
    if d.Some? {
      assert [] + d.value.0 == d.value.0;
    }
  }

  lemma PrependedStep(fs: seq<Field>, b: seq<byte>, n: nat, w: bool)
    requires n > 0 && DecodeField(b, w).Some?
    ensures
      var (f, rest) := DecodeField(b, w).value;
      Prepended(fs, DecodeFields(b, n, w)) == Prepended(fs + [f], DecodeFields(rest, n - 1, w))
  {
    hide DecodeField;
    var (f, rest) := DecodeField(b, w).value;
    if DecodeFields(rest, n - 1, w).Some? {
      var more := DecodeFields(rest, n - 1, w).value.0;
      assert fs + ([f] + more) == fs + [f] + more;
    }
  }
}
