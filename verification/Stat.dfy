/** Stat records on the wire (mixp_pstat, mixp_stat_sizeof) and the loop that unpacks a directory
    listing (cmd/ixpc.c). */
module Stat {
  import opened Common
  import opened Wire
  import opened Layout
  import opened Places
  import C = Codec

  datatype Stat = Stat(typ: u16, dev: u32, qid: Qid, mode: u32, atime: u32, mtime: u32, length: u64,
                       name: seq<u8>, uid: seq<u8>, gid: seq<u8>, muid: seq<u8>)

  const NONE := Stat(0, 0, Qid(0, 0, 0), 0, 0, 0, 0, [], [], [], [])

  const KINDS := [K16, K16, K32, KQid, K32, K32, K32, K64, KStr, KStr, KStr, KStr]

  function Fixed(size: u16, st: Stat): seq<Val> {
    [V16(size), V16(st.typ), V32(st.dev), VQid(st.qid)]
  }

  function Times(st: Stat): seq<Val> {
    [V32(st.mode), V32(st.atime), V32(st.mtime), V64(st.length)]
  }

  function Names(st: Stat): seq<Val> {
    [VStr(st.name), VStr(st.uid), VStr(st.gid), VStr(st.muid)]
  }

  /** The fields of a stat record from stat(5): the size of what follows it, then the rest. */
  function Vals(size: u16, st: Stat): (vs: seq<Val>)
    ensures AllCountable(vs)
  {
    Fixed(size, st) + Times(st) + Names(st)
  }

  /** mixp_stat_sizeof. */
  function Sizeof(st: Stat): nat {
    2 + 2 + 4 + 13 + 3 * 4 + 8
    + (2 + Strlen(st.name)) + (2 + Strlen(st.uid)) + (2 + Strlen(st.gid)) + (2 + Strlen(st.muid))
  }

  /** The size field that is packed: an unsigned short. */
  function SizeField(st: Stat): u16 {
    (Sizeof(st) - 2) % 0x1_0000
  }

  function Sent4(st: Stat): nat {
    |Sent(st.name)| + |Sent(st.uid)| + |Sent(st.gid)| + |Sent(st.muid)|
  }

  lemma EncFour(a: Val, b: Val, c: Val, d: Val)
    requires AllCountable([a, b, c, d])
    ensures EncAll([a, b, c, d]) ==
            if Enc(a).Some? && Enc(b).Some? && Enc(c).Some? && Enc(d).Some?
            then Some(Enc(a).value + (Enc(b).value + (Enc(c).value + Enc(d).value))) else None
  {
    C.OneField(d, []);
    assert [c, d][1..] == [d] && [b, c, d][1..] == [c, d] && [a, b, c, d][1..] == [b, c, d];
    assert EncAll([c, d]).Some? <==> Enc(c).Some? && Enc(d).Some?;
    assert EncAll([b, c, d]).Some? <==> Enc(b).Some? && EncAll([c, d]).Some?;
  }

  lemma FixedLength(size: u16, st: Stat)
    ensures EncAll(Fixed(size, st)).Some? && |EncAll(Fixed(size, st)).value| == 21
  {
    EncFour(V16(size), V16(st.typ), V32(st.dev), VQid(st.qid));
  }

  lemma TimesLength(st: Stat)
    ensures EncAll(Times(st)).Some? && |EncAll(Times(st)).value| == 20
  {
    EncFour(V32(st.mode), V32(st.atime), V32(st.mtime), V64(st.length));
  }

  lemma NamesLength(st: Stat)
    ensures EncAll(Names(st)).Some? && |EncAll(Names(st)).value| == 8 + Sent4(st)
  {
    EncFour(VStr(st.name), VStr(st.uid), VStr(st.gid), VStr(st.muid));
  }

  /** What mixp_pstat writes is as long as its fields, strings counted up to 16 bits. */
  lemma EncLength(size: u16, st: Stat)
    ensures EncAll(Vals(size, st)).Some? && |EncAll(Vals(size, st)).value| == 49 + Sent4(st)
  {
    FixedLength(size, st);
    TimesLength(st);
    NamesLength(st);
    EncAllConcat(Fixed(size, st), Times(st));
    EncAllConcat(Fixed(size, st) + Times(st), Names(st));
  }

  /** mixp_stat_sizeof is the number of bytes that mixp_pstat writes exactly when no string is 65536
      bytes long or longer. */
  lemma SizeofExact(st: Stat, b: seq<u8>)
    requires EncAll(Vals(SizeField(st), st)) == Some(b)
    ensures |b| == Sizeof(st) <==>
            && Strlen(st.name) < 0x1_0000 && Strlen(st.uid) < 0x1_0000
            && Strlen(st.gid) < 0x1_0000 && Strlen(st.muid) < 0x1_0000
  {
    EncLength(SizeField(st), st);
    SentLength(st.name);
    SentLength(st.uid);
    SentLength(st.gid);
    SentLength(st.muid);
  }

  lemma SentLength(s: seq<u8>)
    ensures |Sent(s)| <= Strlen(s) && (|Sent(s)| == Strlen(s) <==> Strlen(s) < 0x1_0000)
  {}

  lemma KindsFour(a: Val, b: Val, c: Val, d: Val)
    ensures Kinds([a, b, c, d]) == [KindOf(a), KindOf(b), KindOf(c), KindOf(d)]
  {
    assert [d][1..] == [] && [c, d][1..] == [d] && [b, c, d][1..] == [c, d] && [a, b, c, d][1..] == [b, c, d];
    assert Kinds([c, d]) == [KindOf(c), KindOf(d)];
    assert Kinds([b, c, d]) == [KindOf(b), KindOf(c), KindOf(d)];
  }

  lemma ValsKinds(size: u16, st: Stat)
    ensures Kinds(Vals(size, st)) == KINDS
  {
    KindsFour(V16(size), V16(st.typ), V32(st.dev), VQid(st.qid));
    KindsFour(V32(st.mode), V32(st.atime), V32(st.mtime), V64(st.length));
    KindsFour(VStr(st.name), VStr(st.uid), VStr(st.gid), VStr(st.muid));
    KindsConcat(Fixed(size, st), Times(st));
    KindsConcat(Fixed(size, st) + Times(st), Names(st));
  }

  // ---------- mixp_pstat ----------

  method PFixed(msg: C.Message, size: u16, st: Stat) returns (size': u16, st': Stat)
    requires msg.Transcript()
    modifies msg`pos, msg`given, msg`got, msg.data
    ensures msg.Transcript() && st' == st.(typ := st'.typ, dev := st'.dev, qid := st'.qid)
    ensures msg.given == old(msg.given) + Fixed(size, st) && msg.got == old(msg.got) + Fixed(size', st')
  {
    size' := msg.PU16(size);
    var t := msg.PU16(st.typ);
    var d := msg.PU32(st.dev);
    var q := msg.PQid(st.qid);
    st' := st.(typ := t, dev := d, qid := q);
  }

  method PTimes(msg: C.Message, st: Stat) returns (st': Stat)
    requires msg.Transcript()
    modifies msg`pos, msg`given, msg`got, msg.data
    ensures msg.Transcript()
    ensures st' == st.(mode := st'.mode, atime := st'.atime, mtime := st'.mtime, length := st'.length)
    ensures msg.given == old(msg.given) + Times(st) && msg.got == old(msg.got) + Times(st')
  {
    var m := msg.PU32(st.mode);
    var a := msg.PU32(st.atime);
    var t := msg.PU32(st.mtime);
    var n := msg.PU64(st.length);
    st' := st.(mode := m, atime := a, mtime := t, length := n);
  }

  method PNames(msg: C.Message, st: Stat) returns (st': Stat)
    requires msg.Transcript()
    modifies msg`pos, msg`given, msg`got, msg.data
    ensures msg.Transcript() && st' == st.(name := st'.name, uid := st'.uid, gid := st'.gid, muid := st'.muid)
    ensures msg.given == old(msg.given) + Names(st) && msg.got == old(msg.got) + Names(st')
  {
    var n := msg.PString(st.name);
    var u := msg.PString(st.uid);
    var g := msg.PString(st.gid);
    var m := msg.PString(st.muid);
    st' := st.(name := n, uid := u, gid := g, muid := m);
  }

  /** mixp_pstat: packs the computed size field; on unpacking reads it and makes no use of it. */
  method PStat(msg: C.Message, st: Stat) returns (st': Stat, ghost size: u16)
    requires msg.Transcript()
    modifies msg`pos, msg`given, msg`got, msg.data
    ensures msg.Transcript()
    ensures msg.mode.MsgPack? ==> msg.given == old(msg.given) + Vals(SizeField(st), st)
    ensures exists s0 :: msg.given == old(msg.given) + Vals(s0, st)
    ensures msg.got == old(msg.got) + Vals(size, st')
  {
    var size0 := if msg.mode.MsgPack? then SizeField(st) else 0;
    st', size := PFields(msg, size0, st);
  }

  lemma ValsParts(given: seq<Val>, size: u16, st: Stat)
    ensures given + Fixed(size, st) + Times(st) + Names(st) == given + Vals(size, st)
  {}

  method PFields(msg: C.Message, size0: u16, st: Stat) returns (st': Stat, ghost size: u16)
    requires msg.Transcript()
    modifies msg`pos, msg`given, msg`got, msg.data
    ensures msg.Transcript()
    ensures msg.given == old(msg.given) + Vals(size0, st) && msg.got == old(msg.got) + Vals(size, st')
  {
    var size1, st1 := PFixed(msg, size0, st);
    var st2 := PTimes(msg, st1);
    st' := PNames(msg, st2);
    size := size1;
    ValsParts(old(msg.given), size0, st);
    ValsParts(old(msg.got), size, st');
  }

  // ---------- where the members stand ----------

  /** A record from at to end, by the places of stat(5). */
  predicate RecordAt(b: seq<u8>, at: nat, size: u16, st: Stat, end: int, packed: bool) {
    FixedFrom(b, at, size, st, packed) && TimesFrom(b, at, st, packed) && NamesFrom(b, at + 41, st, end, packed)
  }

  predicate FixedFrom(b: seq<u8>, at: nat, size: u16, st: Stat, packed: bool) {
    && ShortAt(b, at, size) && ShortAt(b, at + 2, st.typ) && IntAt(b, at + 4, st.dev)
    && QidAt(b, at + 8, st.qid, packed)
  }

  predicate TimesFrom(b: seq<u8>, at: nat, st: Stat, packed: bool) {
    && IntAt(b, at + 21, st.mode) && IntAt(b, at + 25, st.atime) && IntAt(b, at + 29, st.mtime)
    && LongAt(b, at + 33, st.length, packed)
  }

  predicate NamesFrom(b: seq<u8>, at: nat, st: Stat, end: int, packed: bool) {
    && StrAt(b, at, st.name, packed)
    && var p := AfterStr(b, at);
       && StrAt(b, p, st.uid, packed)
       && var q := AfterStr(b, p);
          && StrAt(b, q, st.gid, packed)
          && var r := AfterStr(b, q); StrAt(b, r, st.muid, packed) && end == AfterStr(b, r)
  }

  lemma FixedPlaces(b: seq<u8>, at: nat, size: u16, st: Stat, end: int, packed: bool)
    requires ListAt(b, at, Fixed(size, st), end, packed)
    ensures FixedFrom(b, at, size, st, packed) && end == at + 21
  {
    FourPlaces(b, at, V16(size), V16(st.typ), V32(st.dev), VQid(st.qid), end, packed);
  }

  lemma TimesPlaces(b: seq<u8>, at: nat, st: Stat, end: int, packed: bool)
    requires ListAt(b, at + 21, Times(st), end, packed)
    ensures TimesFrom(b, at, st, packed) && end == at + 41
  {
    FourPlaces(b, at + 21, V32(st.mode), V32(st.atime), V32(st.mtime), V64(st.length), end, packed);
  }

  lemma NamesPlaces(b: seq<u8>, at: nat, st: Stat, end: int, packed: bool)
    requires ListAt(b, at, Names(st), end, packed)
    ensures NamesFrom(b, at, st, end, packed)
  {
    FourPlaces(b, at, VStr(st.name), VStr(st.uid), VStr(st.gid), VStr(st.muid), end, packed);
  }

  lemma RecordPlaces(b: seq<u8>, at: nat, size: u16, st: Stat, end: int, packed: bool)
    requires ListAt(b, at, Vals(size, st), end, packed)
    ensures RecordAt(b, at, size, st, end, packed)
  {
    var p2 := TwoLists(b, at, Fixed(size, st) + Times(st), Names(st), end, packed);
    var p1 := TwoLists(b, at, Fixed(size, st), Times(st), p2, packed);
    FixedPlaces(b, at, size, st, p1, packed);
    TimesPlaces(b, at, st, p2, packed);
    NamesPlaces(b, p2, st, end, packed);
  }

  /** What packing leaves; the size field counts what follows it, unless a string is longer than it says. */
  lemma PackedRecord(b: seq<u8>, at: nat, st: Stat, end: nat)
    requires EncAll(Vals(SizeField(st), st)).Some? && at <= end <= |b|
    requires b[at..end] == EncAll(Vals(SizeField(st), st)).value
    ensures RecordAt(b, at, SizeField(st), st, end, true)
    ensures end - at == Sizeof(st) ==> ShortAt(b, at, (end - at - 2) % 0x1_0000)
  {
    PackedList(b, at, Vals(SizeField(st), st), end);
    RecordPlaces(b, at, SizeField(st), st, end, true);
  }

  /** What unpacking takes. */
  lemma UnpackedRecord(b: seq<u8>, at: nat, size: u16, st: Stat, rest: seq<u8>)
    requires at <= |b| && ParseAll(KINDS, b[at..]) == Some((Vals(size, st), rest))
    ensures RecordAt(b, at, size, st, |b| - |rest|, false)
  {
    ValsKinds(size, st);
    ParsedList(b, at, b[at..], Vals(size, st), rest);
    RecordPlaces(b, at, size, st, |b| - |rest|, false);
  }

  /** A record packed into a buffer: its members are in the bytes between the two cursors. */
  lemma RecordInBuffer(msg: C.Message, st: Stat)
    requires msg.Transcript() && msg.mode.MsgPack? && msg.given == Vals(SizeField(st), st)
    requires msg.start <= msg.end && msg.pos <= msg.end
    ensures RecordAt(msg.data[..], msg.start, SizeField(st), st, msg.pos, true)
  {
    PackedRecord(msg.data[..], msg.start, st, msg.pos);
  }

  // ---------- a directory listing ----------

  lemma ParseShrinks(k: Kind, b: seq<u8>)
    requires k in KINDS && Parse(k, b).Some?
    ensures |Parse(k, b).value.1| < |b|
  {}

  lemma {:induction false} ParseAllShrinks(ks: seq<Kind>, b: seq<u8>)
    requires ks != [] && (forall k :: k in ks ==> k in KINDS) && ParseAll(ks, b).Some?
    ensures |ParseAll(ks, b).value.1| < |b|
  {
    ParseShrinks(ks[0], b);
    if 1 < |ks| {
      ParseAllShrinks(ks[1..], Parse(ks[0], b).value.1);
    }
  }

  /** The complete records one after the other, and whether a last one is cut off. */
  function Listing(b: seq<u8>): (seq<seq<Val>>, bool)
    decreases |b|
  {
    if b == [] then ([], false)
    else
      match ParseAll(KINDS, b)
      case None => ([], true)
      case Some((vs, rest)) =>
        ParseAllShrinks(KINDS, b);
        var more := Listing(rest);
        ([vs] + more.0, more.1)
  }

  function EncList(list: seq<Stat>): seq<u8> {
    if list == [] then []
    else (match EncAll(Vals(SizeField(list[0]), list[0])) case Some(b) => b case None => []) + EncList(list[1..])
  }

  function CanonList(list: seq<Stat>): seq<seq<Val>> {
    if list == [] then [] else [CanonAll(Vals(SizeField(list[0]), list[0]))] + CanonList(list[1..])
  }

  /** Unpacking a concatenation of packed records gives the list back, up to Canon. */
  lemma {:induction false} ListingBack(list: seq<Stat>)
    ensures Listing(EncList(list)) == (CanonList(list), false)
  {
    if list != [] {
      var vs := Vals(SizeField(list[0]), list[0]);
      EncLength(SizeField(list[0]), list[0]);
      ValsKinds(SizeField(list[0]), list[0]);
      ParseAllBack(vs, EncList(list[1..]));
      ListingBack(list[1..]);
    }
  }

  /** stats are the records in list, whatever their size fields were. */
  ghost predicate Holds(stats: seq<Stat>, list: seq<seq<Val>>) {
    |list| <= |stats| && forall i :: 0 <= i < |list| ==> IsRecord(list[i], stats[i])
  }

  ghost predicate IsRecord(vs: seq<Val>, st: Stat) {
    exists size: u16 :: vs == Vals(size, st)
  }

  /** One record of the listing: on complete data it is the record at the cursor, and the cursor
      moves to the next; otherwise the cursor passes the end. */
  method Next(msg: C.Message) returns (st: Stat, ghost size: u16)
    requires msg.Valid() && msg.mode.MsgUnpack? && msg.pos < msg.end
    modifies msg`pos, msg`base, msg`start, msg`given, msg`got, msg.data
    ensures msg.data[..] == old(msg.data[..])
    ensures match ParseAll(KINDS, msg.data[old(msg.pos)..msg.end])
            case None => msg.end < msg.pos
            case Some((vs, rest)) =>
              && old(msg.pos) < msg.pos <= msg.end && vs == Vals(size, st) && rest == msg.data[msg.pos..msg.end]
              && RecordAt(msg.data[..msg.end], old(msg.pos), size, st, msg.pos, false)
  {
    msg.Begin();
    st, size := PStat(msg, NONE);
    ghost var s0 :| msg.given == [] + Vals(s0, NONE);
    ValsKinds(s0, NONE);
    assert msg.given == Vals(s0, NONE) && msg.got == Vals(size, st);
    ghost var b := msg.data[old(msg.pos)..msg.end];
    if ParseAll(KINDS, b).Some? {
      ParseAllShrinks(KINDS, b);
      assert msg.data[..msg.end][old(msg.pos)..] == b;
      UnpackedRecord(msg.data[..msg.end], old(msg.pos), size, st, msg.data[msg.pos..msg.end]);
    }
  }

  /** The loop of the ls command: the complete records of the buffer, in order, and one more, of
      which nothing is known, exactly when the data is cut off inside a record. */
  method List(msg: C.Message) returns (stats: seq<Stat>)
    requires msg.Valid() && msg.mode.MsgUnpack?
    modifies msg`pos, msg`base, msg`start, msg`given, msg`got, msg.data
    ensures msg.data[..] == old(msg.data[..])
    ensures Listed(stats, old(Rest(msg)))
  {
    stats := [];
    ghost var b := Rest(msg);
    ghost var done: seq<seq<Val>>, cut := [], false;
    assert done + Listing(b).0 == Listing(b).0;
    while msg.pos < msg.end
      invariant msg.Valid() && msg.mode.MsgUnpack? && msg.data[..] == old(msg.data[..])
      invariant Holds(stats, done) && |stats| == |done| + (if cut then 1 else 0)
      invariant !cut ==> Listing(b) == (done + Listing(Rest(msg)).0, Listing(Rest(msg)).1)
      invariant cut ==> msg.end < msg.pos && Listing(b) == (done, true)
      decreases msg.end - msg.pos
    {
      ghost var was := Rest(msg);
      var st, size := Next(msg);
      stats := stats + [st];
      if msg.pos <= msg.end {
        OneMore(was, done, Vals(size, st), Rest(msg), stats[..|stats| - 1], st, size);
        done := done + [Vals(size, st)];
      } else {
        assert done + [] == done;
        cut := true;
      }
    }
    assert done + [] == done;
  }

  lemma OneMore(b: seq<u8>, done: seq<seq<Val>>, vs: seq<Val>, rest: seq<u8>, stats: seq<Stat>, st: Stat, size: u16)
    requires ParseAll(KINDS, b) == Some((vs, rest)) && b != []
    requires Holds(stats, done) && |stats| == |done| && vs == Vals(size, st)
    ensures done + Listing(b).0 == done + [vs] + Listing(rest).0 && Listing(b).1 == Listing(rest).1
    ensures Holds(stats + [st], done + [vs])
  {
    ListingUnfolds(b, vs, rest);
    assert IsRecord(vs, st);
    assert done + ([vs] + Listing(rest).0) == done + [vs] + Listing(rest).0;
  }

  lemma ListingUnfolds(b: seq<u8>, vs: seq<Val>, rest: seq<u8>)
    requires ParseAll(KINDS, b) == Some((vs, rest)) && b != []
    ensures Listing(b) == ([vs] + Listing(rest).0, Listing(rest).1)
  {}

  /** The complete records, and one more exactly when the data is cut off inside one. */
  ghost predicate Listed(stats: seq<Stat>, b: seq<u8>) {
    Holds(stats, Listing(b).0) && |stats| == |Listing(b).0| + (if Listing(b).1 then 1 else 0)
  }

  ghost function Rest(msg: C.Message): seq<u8>
    reads msg, msg.data
    requires msg.Valid()
  {
    if msg.pos <= msg.end then msg.data[msg.pos..msg.end] else []
  }
}
