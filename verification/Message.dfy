/** Whole messages (libmixp/message.c): the routine that packs or unpacks by type, and what mixp_fcall2msg
    and mixp_msg2fcall return. */
module Message {
  import opened Common
  import opened Wire
  import opened Layout
  import opened Places
  import C = Codec

  const WITH_FIELDS: set<int> := {100, 101, 102, 103, 104, 105, 107, 108, 110, 111, 112, 113, 114, 115, 116, 117, 118,
                                  119, 120, 121, 122, 124, 125, 126}

  /** MIXP_FCALL with the members of its union side by side. A count that the C struct keeps next
      to a pointer is the length of the sequence here. */
  class Fcall {
    var typ: u8
    var tag: u16
    var fid: u32
    var msize: u32
    var version: seq<u8>
    var afid: u32
    var uname: seq<u8>
    var aname: seq<u8>
    var ename: seq<u8>
    var oldtag: u16
    var qid: Qid
    var iounit: u64
    var perm: u32
    var name: seq<u8>
    var mode: u8
    var newfid: u32
    var wname: seq<seq<u8>>
    var wqid: seq<Qid>
    var offset: u64
    var count: u64
    var data: seq<u8>
    var stat: seq<u8>

    constructor ()
      ensures Valid()
    {
      wname, wqid, data, stat := [], [], [], [];
    }

    ghost predicate Valid()
      reads this
    {
      |wname| < 0x1_0000 && |wqid| < 0x1_0000 && |stat| < 0x1_0000 && |data| < 0x1_0000_0000_0000_0000
    }

    /** The fields after the header, for the type typ. */
    ghost function Vals(): seq<Val>
      reads this
    {
      if typ == TVERSION || typ == RVERSION then [V32(msize), VStr(version)]
      else if typ == TAUTH then [V32(afid), VStr(uname), VStr(aname)]
      else if typ == RAUTH || typ == RATTACH then [VQid(qid)]
      else if typ == TATTACH then [V32(fid), V32(afid), VStr(uname), VStr(aname)]
      else if typ == RERROR then [VStr(ename)]
      else if typ == TFLUSH then [V16(oldtag)]
      else if typ == TWALK then [V32(fid), V32(newfid), VStrs(wname)]
      else if typ == RWALK then [VQids(wqid)]
      else if typ == TOPEN then [V32(fid), V8(mode)]
      else if typ == ROPEN || typ == RCREATE then [VQid(qid), VSize(iounit)]
      else if typ == TCREATE then [V32(fid), VStr(name), V32(perm), V8(mode)]
      else if typ == TREAD then [V32(fid), V64(offset), VSize(count)]
      else if typ == RREAD then [VData32(data)]
      else if typ == TWRITE then [V32(fid), V64(offset), VData32(data)]
      else if typ == RWRITE then [VSize(count)]
      else if typ == RCLUNK || typ == TCLUNK || typ == TREMOVE || typ == TSTAT then [V32(fid)]
      else if typ == RSTAT then [VData16(stat)]
      else if typ == TWSTAT then [V32(fid), VData16(stat)]
      else []
    }

    // Where the members stand in the message b, which ends at end, by the numbers and the places of
    // intro(5).

    ghost predicate Placed(b: seq<u8>, end: int, packed: bool)
      reads this
    {
      && ByteAt(b, 4, typ) && ShortAt(b, 5, tag)
      && SessionPlaced(b, end, packed) && FilePlaced(b, end, packed) && TransferPlaced(b, end, packed)
      && (typ in WITH_FIELDS || end == 7)
    }

    ghost predicate SessionPlaced(b: seq<u8>, end: int, packed: bool)
      reads this
    {
      && (typ == 100 || typ == 101 ==>
            IntAt(b, 7, msize) && StrAt(b, 11, version, packed) && end == AfterStr(b, 11))
      && (typ == 102 ==>
            && IntAt(b, 7, afid) && StrAt(b, 11, uname, packed) && StrAt(b, AfterStr(b, 11), aname, packed)
            && end == AfterStr(b, AfterStr(b, 11)))
      && (typ == 103 || typ == 105 ==> QidAt(b, 7, qid, packed) && end == 20)
      && (typ == 104 ==>
            && IntAt(b, 7, fid) && IntAt(b, 11, afid)
            && StrAt(b, 15, uname, packed) && StrAt(b, AfterStr(b, 15), aname, packed)
            && end == AfterStr(b, AfterStr(b, 15)))
      && (typ == 107 ==> StrAt(b, 7, ename, packed) && end == AfterStr(b, 7))
      && (typ == 108 ==> ShortAt(b, 7, oldtag) && end == 9)
    }

    ghost predicate FilePlaced(b: seq<u8>, end: int, packed: bool)
      reads this
    {
      && (typ == 110 ==>
            && IntAt(b, 7, fid) && IntAt(b, 11, newfid) && NamesAt(b, 15, wname, packed)
            && end == AfterStrs(b, 17, |wname|))
      && (typ == 111 ==> WalkedAt(b, 7, wqid, packed) && end == 9 + 13 * |wqid|)
      && (typ == 112 ==> IntAt(b, 7, fid) && ByteAt(b, 11, mode) && end == 12)
      && (typ == 113 || typ == 115 ==> QidAt(b, 7, qid, packed) && SizeAt(b, 20, iounit, packed) && end == 24)
      && (typ == 114 ==>
            && IntAt(b, 7, fid) && StrAt(b, 11, name, packed)
            && IntAt(b, AfterStr(b, 11), perm) && ByteAt(b, AfterStr(b, 11) + 4, mode)
            && end == AfterStr(b, 11) + 5)
    }

    ghost predicate TransferPlaced(b: seq<u8>, end: int, packed: bool)
      reads this
    {
      && (typ == 116 ==>
            IntAt(b, 7, fid) && LongAt(b, 11, offset, packed) && SizeAt(b, 19, count, packed) && end == 23)
      && (typ == 117 ==> DataAt(b, 7, data, packed) && end == 11 + Le32(b, 7))
      && (typ == 118 ==>
            && IntAt(b, 7, fid) && LongAt(b, 11, offset, packed) && DataAt(b, 19, data, packed)
            && end == 23 + Le32(b, 19))
      && (typ == 119 ==> SizeAt(b, 7, count, packed) && end == 11)
      && (typ == 120 || typ == 121 || typ == 122 || typ == 124 ==> IntAt(b, 7, fid) && end == 11)
      && (typ == 125 ==> ShortDataAt(b, 7, stat) && end == AfterStr(b, 7))
      && (typ == 126 ==> IntAt(b, 7, fid) && ShortDataAt(b, 11, stat) && end == AfterStr(b, 11))
    }

    lemma SessionPlaces(b: seq<u8>, end: int, packed: bool)
      requires ListAt(b, 7, Vals(), end, packed)
      ensures SessionPlaced(b, end, packed)
    {
      if typ == 100 || typ == 101 {
        TwoPlaces(b, 7, V32(msize), VStr(version), end, packed);
      } else if typ == 102 {
        ThreePlaces(b, 7, V32(afid), VStr(uname), VStr(aname), end, packed);
      } else if typ == 103 || typ == 105 {
        OnePlace(b, 7, VQid(qid), end, packed);
      } else if typ == 104 {
        AttachPlaces(b, end, packed);
      } else if typ == 107 {
        OnePlace(b, 7, VStr(ename), end, packed);
      } else if typ == 108 {
        OnePlace(b, 7, V16(oldtag), end, packed);
      }
    }

    lemma AttachPlaces(b: seq<u8>, end: int, packed: bool)
      requires ListAt(b, 7, Vals(), end, packed) && typ == 104
      ensures SessionPlaced(b, end, packed)
    {
      assert Vals()[1..] == [V32(afid), VStr(uname), VStr(aname)];
      ThreePlaces(b, 11, V32(afid), VStr(uname), VStr(aname), end, packed);
    }

    lemma FilePlaces(b: seq<u8>, end: int, packed: bool)
      requires ListAt(b, 7, Vals(), end, packed)
      ensures FilePlaced(b, end, packed)
    {
      if typ == 110 {
        ThreePlaces(b, 7, V32(fid), V32(newfid), VStrs(wname), end, packed);
      } else if typ == 111 {
        OnePlace(b, 7, VQids(wqid), end, packed);
      } else if typ == 112 {
        TwoPlaces(b, 7, V32(fid), V8(mode), end, packed);
      } else if typ == 113 || typ == 115 {
        TwoPlaces(b, 7, VQid(qid), VSize(iounit), end, packed);
      } else if typ == 114 {
        CreatePlaces(b, end, packed);
      }
    }

    lemma CreatePlaces(b: seq<u8>, end: int, packed: bool)
      requires ListAt(b, 7, Vals(), end, packed) && typ == 114
      ensures FilePlaced(b, end, packed)
    {
      assert Vals()[1..] == [VStr(name), V32(perm), V8(mode)];
      ThreePlaces(b, 11, VStr(name), V32(perm), V8(mode), end, packed);
    }

    lemma TransferPlaces(b: seq<u8>, end: int, packed: bool)
      requires ListAt(b, 7, Vals(), end, packed)
      ensures TransferPlaced(b, end, packed)
    {
      if typ == 116 {
        ThreePlaces(b, 7, V32(fid), V64(offset), VSize(count), end, packed);
      } else if typ == 117 {
        OnePlace(b, 7, VData32(data), end, packed);
      } else if typ == 118 {
        ThreePlaces(b, 7, V32(fid), V64(offset), VData32(data), end, packed);
      } else if typ == 119 {
        OnePlace(b, 7, VSize(count), end, packed);
      } else if typ == 120 || typ == 121 || typ == 122 || typ == 124 {
        OnePlace(b, 7, V32(fid), end, packed);
      } else if typ == 125 {
        OnePlace(b, 7, VData16(stat), end, packed);
      } else if typ == 126 {
        TwoPlaces(b, 7, V32(fid), VData16(stat), end, packed);
      }
    }

    lemma AllPlaces(b: seq<u8>, end: int, packed: bool)
      requires ListAt(b, 7, Vals(), end, packed) && ByteAt(b, 4, typ) && ShortAt(b, 5, tag)
      ensures Placed(b, end, packed)
    {
      SessionPlaces(b, end, packed);
      FilePlaces(b, end, packed);
      TransferPlaces(b, end, packed);
    }

    /** A packed message: its size comes first. */
    ghost predicate PackedAs(b: seq<u8>)
      reads this
    {
      IntAt(b, 0, |b| % 0x1_0000_0000) && Placed(b, |b|, true)
    }

    lemma PackedPlaces(b: seq<u8>)
      requires AllCountable(Vals()) && EncMsg(typ, tag, Vals()) == Some(b)
      ensures PackedAs(b)
    {
      var body := EncAll(Vals()).value;
      HeaderBack(typ, tag, body);
      LoadsThere(b, 0);
      LoadsThere(b, 5);
      assert b[7..|b|] == body;
      PackedList(b, 7, Vals(), |b|);
      AllPlaces(b, |b|, true);
    }

    /** What unpacking takes. */
    lemma UnpackedPlaces(b: seq<u8>, used: int)
      requires DecMsg(b) == Some(Decoded(typ, tag, Vals(), used))
      ensures Placed(b, used, false)
    {
      UnpackedList(b, used);
      AllPlaces(b, used, false);
    }

    lemma UnpackedList(b: seq<u8>, used: int)
      requires DecMsg(b) == Some(Decoded(typ, tag, Vals(), used))
      ensures ByteAt(b, 4, typ) && ShortAt(b, 5, tag) && ListAt(b, 7, Vals(), used, false)
    {
      var (vs, rest) := ParseAll(Fields(b[4]), b[7..]).value;
      LoadsThere(b, 5);
      ParsedList(b, 7, b[7..], vs, rest);
    }

    lemma ValsCountable()
      requires Valid()
      ensures AllCountable(Vals())
    {}

    /** The fields of every type are those of the table, in its order. */
    lemma ValsLayout()
      ensures Kinds(Vals()) == Fields(typ)
    {
      KindsOf(Vals());
    }
  }

  lemma KindsOf(vs: seq<Val>)
    requires |vs| <= 4
    ensures Kinds(vs) == seq(|vs|, i requires 0 <= i < |vs| => KindOf(vs[i]))
  {
    forall i | 0 <= i < |vs| ensures Kinds(vs)[i] == KindOf(vs[i]) {
      KindsAt(vs, i);
    }
  }

  lemma {:induction false} KindsAt(vs: seq<Val>, i: nat)
    requires i < |vs|
    ensures Kinds(vs)[i] == KindOf(vs[i])
  {
    if i > 0 {
      KindsAt(vs[1..], i - 1);
    }
  }

  // ---------- two fields in a row ----------

  method PIntInt(msg: C.Message, x: u32, y: u32) returns (x': u32, y': u32)
    requires msg.Transcript()
    modifies msg`pos, msg`given, msg`got, msg.data
    ensures msg.Transcript()
    ensures msg.given == old(msg.given) + [V32(x), V32(y)] && msg.got == old(msg.got) + [V32(x'), V32(y')]
  {
    x' := msg.PU32(x);
    y' := msg.PU32(y);
  }

  method PStringString(msg: C.Message, x: seq<u8>, y: seq<u8>) returns (x': seq<u8>, y': seq<u8>)
    requires msg.Transcript()
    modifies msg`pos, msg`given, msg`got, msg.data
    ensures msg.Transcript()
    ensures msg.given == old(msg.given) + [VStr(x), VStr(y)] && msg.got == old(msg.got) + [VStr(x'), VStr(y')]
  {
    x' := msg.PString(x);
    y' := msg.PString(y);
  }

  method PIntString(msg: C.Message, x: u32, y: seq<u8>) returns (x': u32, y': seq<u8>)
    requires msg.Transcript()
    modifies msg`pos, msg`given, msg`got, msg.data
    ensures msg.Transcript()
    ensures msg.given == old(msg.given) + [V32(x), VStr(y)] && msg.got == old(msg.got) + [V32(x'), VStr(y')]
  {
    x' := msg.PU32(x);
    y' := msg.PString(y);
  }

  method PIntByte(msg: C.Message, x: u32, y: u8) returns (x': u32, y': u8)
    requires msg.Transcript()
    modifies msg`pos, msg`given, msg`got, msg.data
    ensures msg.Transcript()
    ensures msg.given == old(msg.given) + [V32(x), V8(y)] && msg.got == old(msg.got) + [V32(x'), V8(y')]
  {
    x' := msg.PU32(x);
    y' := msg.PU8(y);
  }

  method PIntLong(msg: C.Message, x: u32, y: u64) returns (x': u32, y': u64)
    requires msg.Transcript()
    modifies msg`pos, msg`given, msg`got, msg.data
    ensures msg.Transcript()
    ensures msg.given == old(msg.given) + [V32(x), V64(y)] && msg.got == old(msg.got) + [V32(x'), V64(y')]
  {
    x' := msg.PU32(x);
    y' := msg.PU64(y);
  }

  method PQidSize(msg: C.Message, x: Qid, y: u64) returns (x': Qid, y': u64)
    requires msg.Transcript()
    modifies msg`pos, msg`given, msg`got, msg.data
    ensures msg.Transcript()
    ensures msg.given == old(msg.given) + [VQid(x), VSize(y)] && msg.got == old(msg.got) + [VQid(x'), VSize(y')]
  {
    x' := msg.PQid(x);
    y' := msg.PSize(y);
  }

  method PIntData(msg: C.Message, x: u32, y: seq<u8>) returns (x': u32, y': seq<u8>)
    requires msg.Transcript() && |y| < 0x1_0000
    modifies msg`pos, msg`given, msg`got, msg.data
    ensures msg.Transcript() && |y'| < 0x1_0000
    ensures msg.given == old(msg.given) + [V32(x), VData16(y)] && msg.got == old(msg.got) + [V32(x'), VData16(y')]
  {
    x' := msg.PU32(x);
    y' := msg.PData16(y);
  }

  /** Two pairs are four fields. */
  lemma Joined(vs: seq<Val>, a: Val, b: Val, c: Val, d: Val)
    ensures vs + [a, b] + [c, d] == vs + [a, b, c, d]
  {}

  const SESSION: set<int> := {TVERSION, RVERSION, TAUTH, TATTACH, RAUTH, RATTACH, RERROR, TFLUSH}
  const FILE: set<int> := {TWALK, RWALK, TOPEN, ROPEN, RCREATE, TCREATE}

  // ---------- ixp_pfcall: one method for each case of its switch ----------

  method PVersion(msg: C.Message, f: Fcall)
    requires msg.Transcript() && f.Valid() && (f.typ == TVERSION || f.typ == RVERSION)
    modifies msg`pos, msg`given, msg`got, msg.data, f`msize, f`version
    ensures msg.Transcript() && f.Valid() && f.typ == old(f.typ)
    ensures msg.given == old(msg.given + f.Vals()) && msg.got == old(msg.got) + f.Vals()
  {
    f.msize, f.version := PIntString(msg, f.msize, f.version);
  }

  method PAuth(msg: C.Message, f: Fcall)
    requires msg.Transcript() && f.Valid() && (f.typ == TAUTH)
    modifies msg`pos, msg`given, msg`got, msg.data, f`afid, f`uname, f`aname
    ensures msg.Transcript() && f.Valid() && f.typ == old(f.typ)
    ensures msg.given == old(msg.given + f.Vals()) && msg.got == old(msg.got) + f.Vals()
  {
    ghost var given, got, vals := msg.given, msg.got, f.Vals();
    f.afid := msg.PU32(f.afid);
    f.uname, f.aname := PStringString(msg, f.uname, f.aname);
    assert msg.given == given + vals;
    assert msg.got == got + f.Vals();
  }

  method PAttach(msg: C.Message, f: Fcall)
    requires msg.Transcript() && f.Valid() && (f.typ == TATTACH)
    modifies msg`pos, msg`given, msg`got, msg.data, f`fid, f`afid, f`uname, f`aname
    ensures msg.Transcript() && f.Valid() && f.typ == old(f.typ)
    ensures msg.given == old(msg.given + f.Vals()) && msg.got == old(msg.got) + f.Vals()
  {
    ghost var given, got := msg.given, msg.got;
    Joined(given, V32(f.fid), V32(f.afid), VStr(f.uname), VStr(f.aname));
    f.fid, f.afid := PIntInt(msg, f.fid, f.afid);
    f.uname, f.aname := PStringString(msg, f.uname, f.aname);
    Joined(got, V32(f.fid), V32(f.afid), VStr(f.uname), VStr(f.aname));
  }

  method PJustQid(msg: C.Message, f: Fcall)
    requires msg.Transcript() && f.Valid() && (f.typ == RAUTH || f.typ == RATTACH)
    modifies msg`pos, msg`given, msg`got, msg.data, f`qid
    ensures msg.Transcript() && f.Valid() && f.typ == old(f.typ)
    ensures msg.given == old(msg.given + f.Vals()) && msg.got == old(msg.got) + f.Vals()
  {
    f.qid := msg.PQid(f.qid);
  }

  method PError(msg: C.Message, f: Fcall)
    requires msg.Transcript() && f.Valid() && (f.typ == RERROR)
    modifies msg`pos, msg`given, msg`got, msg.data, f`ename
    ensures msg.Transcript() && f.Valid() && f.typ == old(f.typ)
    ensures msg.given == old(msg.given + f.Vals()) && msg.got == old(msg.got) + f.Vals()
  {
    f.ename := msg.PString(f.ename);
  }

  method PFlush(msg: C.Message, f: Fcall)
    requires msg.Transcript() && f.Valid() && (f.typ == TFLUSH)
    modifies msg`pos, msg`given, msg`got, msg.data, f`oldtag
    ensures msg.Transcript() && f.Valid() && f.typ == old(f.typ)
    ensures msg.given == old(msg.given + f.Vals()) && msg.got == old(msg.got) + f.Vals()
  {
    f.oldtag := msg.PU16(f.oldtag);
  }

  method PWalk(msg: C.Message, f: Fcall)
    requires msg.Transcript() && f.Valid() && (f.typ == TWALK)
    modifies msg`pos, msg`given, msg`got, msg.data, f`fid, f`newfid, f`wname
    ensures msg.Transcript() && f.Valid() && f.typ == old(f.typ)
    ensures msg.given == old(msg.given + f.Vals()) && msg.got == old(msg.got) + f.Vals()
  {
    ghost var given, got, vals := msg.given, msg.got, f.Vals();
    f.fid, f.newfid := PIntInt(msg, f.fid, f.newfid);
    f.wname := msg.PStrings(f.wname);
    assert msg.given == given + vals;
    assert msg.got == got + f.Vals();
  }

  method PWalked(msg: C.Message, f: Fcall)
    requires msg.Transcript() && f.Valid() && (f.typ == RWALK)
    modifies msg`pos, msg`given, msg`got, msg.data, f`wqid
    ensures msg.Transcript() && f.Valid() && f.typ == old(f.typ)
    ensures msg.given == old(msg.given + f.Vals()) && msg.got == old(msg.got) + f.Vals()
  {
    f.wqid := msg.PQids(f.wqid);
  }

  method POpen(msg: C.Message, f: Fcall)
    requires msg.Transcript() && f.Valid() && (f.typ == TOPEN)
    modifies msg`pos, msg`given, msg`got, msg.data, f`fid, f`mode
    ensures msg.Transcript() && f.Valid() && f.typ == old(f.typ)
    ensures msg.given == old(msg.given + f.Vals()) && msg.got == old(msg.got) + f.Vals()
  {
    f.fid, f.mode := PIntByte(msg, f.fid, f.mode);
  }

  method POpened(msg: C.Message, f: Fcall)
    requires msg.Transcript() && f.Valid() && (f.typ == ROPEN || f.typ == RCREATE)
    modifies msg`pos, msg`given, msg`got, msg.data, f`qid, f`iounit
    ensures msg.Transcript() && f.Valid() && f.typ == old(f.typ)
    ensures msg.given == old(msg.given + f.Vals()) && msg.got == old(msg.got) + f.Vals()
  {
    f.qid, f.iounit := PQidSize(msg, f.qid, f.iounit);
  }

  method PCreate(msg: C.Message, f: Fcall)
    requires msg.Transcript() && f.Valid() && (f.typ == TCREATE)
    modifies msg`pos, msg`given, msg`got, msg.data, f`fid, f`name, f`perm, f`mode
    ensures msg.Transcript() && f.Valid() && f.typ == old(f.typ)
    ensures msg.given == old(msg.given + f.Vals()) && msg.got == old(msg.got) + f.Vals()
  {
    ghost var given, got := msg.given, msg.got;
    Joined(given, V32(f.fid), VStr(f.name), V32(f.perm), V8(f.mode));
    f.fid, f.name := PIntString(msg, f.fid, f.name);
    f.perm, f.mode := PIntByte(msg, f.perm, f.mode);
    Joined(got, V32(f.fid), VStr(f.name), V32(f.perm), V8(f.mode));
  }

  method PRead(msg: C.Message, f: Fcall)
    requires msg.Transcript() && f.Valid() && (f.typ == TREAD)
    modifies msg`pos, msg`given, msg`got, msg.data, f`fid, f`offset, f`count
    ensures msg.Transcript() && f.Valid() && f.typ == old(f.typ)
    ensures msg.given == old(msg.given + f.Vals()) && msg.got == old(msg.got) + f.Vals()
  {
    ghost var given, got, vals := msg.given, msg.got, f.Vals();
    f.fid, f.offset := PIntLong(msg, f.fid, f.offset);
    f.count := msg.PSize(f.count);
    assert msg.given == given + vals;
    assert msg.got == got + f.Vals();
  }

  method PReadBack(msg: C.Message, f: Fcall)
    requires msg.Transcript() && f.Valid() && (f.typ == RREAD)
    modifies msg`pos, msg`given, msg`got, msg.data, f`data
    ensures msg.Transcript() && f.Valid() && f.typ == old(f.typ)
    ensures msg.given == old(msg.given + f.Vals()) && msg.got == old(msg.got) + f.Vals()
  {
    f.data := msg.PData32(f.data);
  }

  method PWrite(msg: C.Message, f: Fcall)
    requires msg.Transcript() && f.Valid() && (f.typ == TWRITE)
    modifies msg`pos, msg`given, msg`got, msg.data, f`fid, f`offset, f`data
    ensures msg.Transcript() && f.Valid() && f.typ == old(f.typ)
    ensures msg.given == old(msg.given + f.Vals()) && msg.got == old(msg.got) + f.Vals()
  {
    ghost var given, got, vals := msg.given, msg.got, f.Vals();
    f.fid, f.offset := PIntLong(msg, f.fid, f.offset);
    f.data := msg.PData32(f.data);
    assert msg.given == given + vals;
    assert msg.got == got + f.Vals();
  }

  method PWritten(msg: C.Message, f: Fcall)
    requires msg.Transcript() && f.Valid() && (f.typ == RWRITE)
    modifies msg`pos, msg`given, msg`got, msg.data, f`count
    ensures msg.Transcript() && f.Valid() && f.typ == old(f.typ)
    ensures msg.given == old(msg.given + f.Vals()) && msg.got == old(msg.got) + f.Vals()
  {
    f.count := msg.PSize(f.count);
  }

  method PJustFid(msg: C.Message, f: Fcall)
    requires msg.Transcript() && f.Valid() && (f.typ == RCLUNK || f.typ == TCLUNK || f.typ == TREMOVE || f.typ == TSTAT)
    modifies msg`pos, msg`given, msg`got, msg.data, f`fid
    ensures msg.Transcript() && f.Valid() && f.typ == old(f.typ)
    ensures msg.given == old(msg.given + f.Vals()) && msg.got == old(msg.got) + f.Vals()
  {
    f.fid := msg.PU32(f.fid);
  }

  method PStatBack(msg: C.Message, f: Fcall)
    requires msg.Transcript() && f.Valid() && (f.typ == RSTAT)
    modifies msg`pos, msg`given, msg`got, msg.data, f`stat
    ensures msg.Transcript() && f.Valid() && f.typ == old(f.typ)
    ensures msg.given == old(msg.given + f.Vals()) && msg.got == old(msg.got) + f.Vals()
  {
    f.stat := msg.PData16(f.stat);
  }

  method PWStat(msg: C.Message, f: Fcall)
    requires msg.Transcript() && f.Valid() && (f.typ == TWSTAT)
    modifies msg`pos, msg`given, msg`got, msg.data, f`fid, f`stat
    ensures msg.Transcript() && f.Valid() && f.typ == old(f.typ)
    ensures msg.given == old(msg.given + f.Vals()) && msg.got == old(msg.got) + f.Vals()
  {
    f.fid, f.stat := PIntData(msg, f.fid, f.stat);
  }

  /** The last cases of the switch; unknown types have no fields. */
  method PTransfer(msg: C.Message, f: Fcall)
    requires f.typ !in SESSION && f.typ !in FILE
    requires msg.Transcript() && f.Valid()
    modifies msg`pos, msg`given, msg`got, msg.data, f
    ensures msg.Transcript() && f.Valid() && f.typ == old(f.typ) && f.tag == old(f.tag)
    ensures msg.given == old(msg.given + f.Vals()) && msg.got == old(msg.got) + f.Vals()
  {
    if f.typ == TREAD {
      PRead(msg, f);
    } else if f.typ == RREAD {
      PReadBack(msg, f);
    } else if f.typ == TWRITE {
      PWrite(msg, f);
    } else if f.typ == RWRITE {
      PWritten(msg, f);
    } else if f.typ == RCLUNK || f.typ == TCLUNK || f.typ == TREMOVE || f.typ == TSTAT {
      PJustFid(msg, f);
    } else if f.typ == RSTAT {
      PStatBack(msg, f);
    } else if f.typ == TWSTAT {
      PWStat(msg, f);
    } else {
      assert f.Vals() == [];
    }
  }

  /** The cases for names and opening. */
  method PFile(msg: C.Message, f: Fcall)
    requires f.typ !in SESSION
    requires msg.Transcript() && f.Valid()
    modifies msg`pos, msg`given, msg`got, msg.data, f
    ensures msg.Transcript() && f.Valid() && f.typ == old(f.typ) && f.tag == old(f.tag)
    ensures msg.given == old(msg.given + f.Vals()) && msg.got == old(msg.got) + f.Vals()
  {
    if f.typ == TWALK {
      PWalk(msg, f);
    } else if f.typ == RWALK {
      PWalked(msg, f);
    } else if f.typ == TOPEN {
      POpen(msg, f);
    } else if f.typ == ROPEN || f.typ == RCREATE {
      POpened(msg, f);
    } else if f.typ == TCREATE {
      PCreate(msg, f);
    } else {
      PTransfer(msg, f);
    }
  }

  /** The switch. */
  method PBody(msg: C.Message, f: Fcall)
    requires msg.Transcript() && f.Valid()
    modifies msg`pos, msg`given, msg`got, msg.data, f
    ensures msg.Transcript() && f.Valid() && f.typ == old(f.typ) && f.tag == old(f.tag)
    ensures msg.given == old(msg.given + f.Vals()) && msg.got == old(msg.got) + f.Vals()
  {
    if f.typ == TVERSION || f.typ == RVERSION {
      PVersion(msg, f);
    } else if f.typ == TAUTH {
      PAuth(msg, f);
    } else if f.typ == TATTACH {
      PAttach(msg, f);
    } else if f.typ == RAUTH || f.typ == RATTACH {
      PJustQid(msg, f);
    } else if f.typ == RERROR {
      PError(msg, f);
    } else if f.typ == TFLUSH {
      PFlush(msg, f);
    } else {
      PFile(msg, f);
    }
  }

  function Header(t: u8, tag: u16): seq<Val> {
    [V8(t), V16(tag)]
  }

  /** Type and tag. */
  method PHeader(msg: C.Message, f: Fcall)
    requires msg.Transcript() && msg.given == [] && msg.got == []
    modifies msg`pos, msg`given, msg`got, msg.data, f`typ, f`tag
    ensures msg.Transcript()
    ensures msg.given == old(Header(f.typ, f.tag)) && msg.got == Header(f.typ, f.tag)
    ensures msg.mode.MsgUnpack? && msg.start <= msg.end && msg.start + 3 <= msg.end ==> f.typ == msg.base[msg.start]
  {
    f.typ := msg.PU8(f.typ);
    if msg.start + 3 <= msg.end {
      HeaderParse(msg, f);
    }
    f.tag := msg.PU16(f.tag);
  }

  /** ixp_pfcall. */
  method PFcall(msg: C.Message, f: Fcall)
    requires msg.Transcript() && msg.given == [] && msg.got == [] && f.Valid()
    modifies msg`pos, msg`given, msg`got, msg.data, f
    ensures msg.Transcript() && f.Valid()
    ensures Kinds(msg.given) == [K8, K16] + Fields(f.typ) && msg.got == Header(f.typ, f.tag) + f.Vals()
    ensures msg.mode.MsgPack? ==> msg.given == old(Header(f.typ, f.tag) + f.Vals())
    ensures msg.mode.MsgUnpack? && msg.start <= msg.end && msg.start + 3 <= msg.end ==> f.typ == msg.base[msg.start]
  {
    PHeader(msg, f);
    ghost var vals := f.Vals();
    f.ValsLayout();
    HeaderKinds(msg.given, vals);
    PBody(msg, f);
  }

  lemma HeaderParse(msg: C.Message, f: Fcall)
    requires msg.Transcript() && |msg.given| == 1 && msg.given[0].V8? && msg.got == [V8(f.typ)]
    requires msg.start + 3 <= msg.end
    ensures msg.mode.MsgUnpack? ==> f.typ == msg.base[msg.start]
  {
    var b := msg.base[msg.start..msg.end];
    C.OneField(msg.given[0], b);
    assert msg.given == [msg.given[0]];
  }

  lemma HeaderKinds(h: seq<Val>, vs: seq<Val>)
    requires |h| == 2 && h[0].V8? && h[1].V16?
    ensures Kinds(h + vs) == [K8, K16] + Kinds(vs)
  {
    KindsConcat(h, vs);
    assert h[1..] == [h[1]] && h[1..][1..] == [];
    assert Kinds(h) == [K8, K16];
  }

  lemma HeaderEnc(t: u8, tag: u16, vs: seq<Val>)
    requires AllCountable(vs)
    ensures AllCountable(Header(t, tag) + vs)
    ensures EncAll(Header(t, tag) + vs) ==
            match EncAll(vs) case None => None case Some(body) => Some([t] + E16(tag) + body)
  {
    C.OneField(V8(t), []);
    C.OneField(V16(tag), []);
    EncAllConcat([V8(t)], [V16(tag)]);
    assert [V8(t)] + [V16(tag)] == Header(t, tag);
    EncAllConcat(Header(t, tag), vs);
  }

  lemma HeaderParse2(b: seq<u8>)
    ensures ParseAll([K8, K16], b) == if |b| < 3 then None else Some((Header(b[0], L16(b[1..3])), b[3..]))
  {
    assert [K8] + [K16] == [K8, K16];
    ParseAllConcat([K8], [K16], b);
    C.OneField(V8(0), b);
    if 1 <= |b| {
      Parse16(b[1..]);
      if 3 <= |b| {
        HeaderSlices(b);
      }
    }
  }

  lemma HeaderSlices(b: seq<u8>)
    requires 3 <= |b|
    ensures b[1..][..2] == b[1..3] && b[1..][2..] == b[3..]
    ensures [V8(b[0])] + [V16(L16(b[1..3]))] == Header(b[0], L16(b[1..3]))
  {}

  lemma Parse16(b: seq<u8>)
    ensures ParseAll([K16], b) == if |b| < 2 then None else Some(([V16(L16(b[..2]))], b[2..]))
  {
    C.OneField(V16(0), b);
  }

  lemma HeaderParseAll(b: seq<u8>, ks: seq<Kind>)
    ensures ParseAll([K8, K16] + ks, b) ==
            if |b| < 3 then None
            else match ParseAll(ks, b[3..])
                 case None => None
                 case Some((vs, rest)) => Some((Header(b[0], L16(b[1..3])) + vs, rest))
  {
    ParseAllConcat([K8, K16], ks, b);
    HeaderParse2(b);
  }

  /** mixp_fcall2msg: 0 exactly when there are more than 16 names or qids or the message is longer
      than the buffer; otherwise the buffer starts with the whole message. */
  method Fcall2Msg(msg: C.Message, f: Fcall) returns (size: nat)
    requires f.Valid() && msg.data.Length < 0x1_0000_0000
    modifies msg, msg.data, f
    ensures f.typ == old(f.typ) && f.tag == old(f.tag) && f.Vals() == old(f.Vals()) && f.Valid()
    ensures AllCountable(f.Vals())
    ensures match EncMsg(f.typ, f.tag, f.Vals())
            case None => size == 0
            case Some(b) =>
              if msg.data.Length < |b| then size == 0
              else size == |b| && msg.data[..size] == b && msg.end == size && msg.pos == 0
    ensures 0 < size ==> f.PackedAs(msg.data[..size])
  {
    msg.end := msg.data.Length;
    msg.pos := 4;
    msg.mode := C.MsgPack;
    size := PackBody(msg, f);
    if size == 0 {
      return;
    }
    WriteSize(msg, f, size);
    f.PackedPlaces(msg.data[..size]);
  }

  /** The size prefix of a body just packed. */
  method WriteSize(msg: C.Message, f: Fcall, size: nat)
    requires f.Valid() && AllCountable(f.Vals()) && EncAll(f.Vals()).Some? && msg.Valid()
    requires 7 + |EncAll(f.Vals()).value| == size == msg.pos <= msg.end && size < 0x1_0000_0000
    requires msg.data[4..size] == [f.typ] + E16(f.tag) + EncAll(f.Vals()).value
    modifies msg`pos, msg`end, msg.data
    ensures msg.end == size <= msg.data.Length && msg.pos == 0
    ensures msg.data[..size] == Framed(f.typ, f.tag, EncAll(f.Vals()).value)
  {
    msg.end := msg.pos;
    msg.pos := 0;
    ghost var d0 := msg.data[..];
    msg.Store32(size);
    msg.pos := 0;
    Prefixed(d0, msg.data[..], size, f.typ, f.tag, EncAll(f.Vals()).value);
  }

  lemma Prefixed(d0: seq<u8>, d: seq<u8>, size: nat, t: u8, tag: u16, body: seq<u8>)
    requires size < 0x1_0000_0000 && C.Put(size, d0, 0, E32(size), d, 4)
    requires 7 + |body| == size <= |d0| && d0[4..size] == [t] + E16(tag) + body
    ensures d[..size] == Framed(t, tag, body)
  {
    assert d[4..size] == d0[4..size];
    assert d[..size] == d[..4] + d[4..size];
  }

  method PackBody(msg: C.Message, f: Fcall) returns (size: nat)
    requires f.Valid() && msg.data.Length < 0x1_0000_0000 && msg.end == msg.data.Length && msg.pos == 4
    requires msg.mode.MsgPack?
    modifies msg`pos, msg`base, msg`start, msg`given, msg`got, msg.data, f
    ensures f.typ == old(f.typ) && f.tag == old(f.tag) && f.Vals() == old(f.Vals()) && f.Valid()
    ensures AllCountable(f.Vals())
    ensures match EncAll(f.Vals())
            case None => size == 0
            case Some(body) =>
              if msg.end < 7 + |body| then size == 0
              else size == msg.pos == 7 + |body| && msg.data[4..size] == [f.typ] + E16(f.tag) + body
  {
    f.ValsCountable();
    HeaderEnc(f.typ, f.tag, f.Vals());
    msg.Begin();
    PFcall(msg, f);
    SameHeader(f.typ, f.tag, f.Vals(), old(f.typ), old(f.tag), old(f.Vals()));
    size := if msg.pos > msg.end then 0 else msg.pos;
  }

  lemma SameHeader(t: u8, tag: u16, vs: seq<Val>, t': u8, tag': u16, vs': seq<Val>)
    requires Header(t, tag) + vs == Header(t', tag') + vs'
    ensures t == t' && tag == tag' && vs == vs'
  {
    var ws, ws' := Header(t, tag) + vs, Header(t', tag') + vs';
    assert ws[0] == V8(t) && ws[1] == V16(tag) && ws[2..] == vs;
    assert ws'[0] == V8(t') && ws'[1] == V16(tag') && ws'[2..] == vs';
  }

  /** mixp_msg2fcall: 0 exactly when the declared fields run past the data or a count is over 16;
      otherwise the fields, and the bytes used. The buffer is only read. */
  method Msg2Fcall(msg: C.Message, f: Fcall) returns (size: nat)
    requires msg.Valid() && f.Valid()
    modifies msg, msg.data, f
    ensures msg.data[..] == old(msg.data[..]) && msg.end == old(msg.end) && f.Valid()
    ensures match DecMsg(msg.data[..msg.end])
            case None => size == 0
            case Some(m) => f.typ == m.t && f.tag == m.tag && f.Vals() == m.vs && size == m.used
    ensures 0 < size ==> f.Placed(msg.data[..msg.end], size, false)
  {
    msg.pos := 4;
    msg.mode := C.MsgUnpack;
    msg.Begin();
    PFcall(msg, f);
    size := if msg.pos > msg.end then 0 else msg.pos;
    Unpacked(msg, f);
    if 0 < size {
      f.UnpackedPlaces(msg.data[..msg.end], size);
    }
  }

  lemma Unpacked(msg: C.Message, f: Fcall)
    requires msg.Transcript() && msg.mode.MsgUnpack? && msg.start == 4 && msg.base == msg.data[..]
    requires Kinds(msg.given) == [K8, K16] + Fields(f.typ) && msg.got == Header(f.typ, f.tag) + f.Vals()
    requires 7 <= msg.end ==> f.typ == msg.base[4]
    ensures match DecMsg(msg.data[..msg.end])
            case None => msg.end < msg.pos
            case Some(m) =>
              msg.pos <= msg.end && f.typ == m.t && f.tag == m.tag && f.Vals() == m.vs && msg.pos == m.used
  {
    if 4 <= msg.end {
      HeaderParseAll(msg.base[4..msg.end], Fields(f.typ));
      if 7 <= msg.end {
        FieldsDecoded(msg.data[..], msg.end, msg.pos, f.typ, f.tag, f.Vals());
      }
    }
  }

  /** What is parsed from the type on is what is decoded. */
  lemma FieldsDecoded(d: seq<u8>, end: nat, pos: nat, t: u8, tag: u16, vs: seq<Val>)
    requires 7 <= end <= |d| && t == d[4]
    requires match ParseAll(Fields(t), d[4..end][3..])
             case None => end < pos
             case Some((ws, rest)) =>
               && 4 <= pos <= end && rest == d[pos..end]
               && Header(d[4..end][0], L16(d[4..end][1..3])) + ws == Header(t, tag) + vs
    ensures match DecMsg(d[..end])
            case None => end < pos
            case Some(m) => pos <= end && t == m.t && tag == m.tag && vs == m.vs && pos == m.used
  {
    var b := d[..end];
    assert d[4..end][3..] == b[7..];
    assert d[4..end][1..3] == b[5..7];
    match ParseAll(Fields(t), b[7..])
    case None =>
    case Some((ws, rest)) => SameHeader(t, tag, vs, b[4], L16(b[5..7]), ws);
  }
}
