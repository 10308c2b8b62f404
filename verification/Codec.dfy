/** The packing and unpacking cursor of libmixp/convert.c: one routine per type, working in place on
    the buffer, in either direction. A cursor that has run past the end stays past it and the buffer
    is not touched any more. Proved against the functions of Wire. */
module Codec {
  import opened Common
  import opened Wire
  import opened Layout
  import opened Places

  datatype Mode = MsgPack | MsgUnpack

  /** The bytes b were written at p0 and nothing else; when they do not fit, nothing outside p0..end is
      touched. */
  ghost predicate Put(end: nat, d0: seq<u8>, p0: nat, b: seq<u8>, d1: seq<u8>, p1: nat) {
    && |d1| == |d0| && p1 == p0 + |b|
    && (forall i :: 0 <= i < |d0| && (i < p0 || p1 <= i || end <= i) ==> d1[i] == d0[i])
    && (p1 <= end <= |d1| ==> d1[p0..p1] == b)
  }

  lemma PutThen(end: nat, d0: seq<u8>, p0: nat, a: seq<u8>, d1: seq<u8>, p1: nat, b: seq<u8>, d2: seq<u8>, p2: nat)
    requires Put(end, d0, p0, a, d1, p1) && Put(end, d1, p1, b, d2, p2)
    ensures Put(end, d0, p0, a + b, d2, p2)
  {
    if p2 <= end <= |d2| {
      assert d2[p0..p1] == d1[p0..p1];
      assert d2[p0..p2] == d2[p0..p1] + d2[p1..p2];
    }
  }

  /** What a routine for one field does, in both modes: packing the field v, or unpacking into w. */
  ghost predicate Field(mode: Mode, end: nat, d0: seq<u8>, p0: nat, v: Val, d1: seq<u8>, p1: nat, w: Val)
    requires Countable(v)
  {
    && |d1| == |d0| && KindOf(w) == KindOf(v)
    && (forall i :: 0 <= i < |d0| && (i < p0 || end <= i) ==> d1[i] == d0[i])
    && (end < p0 ==> end < p1)
    && (if mode.MsgPack? then
          && w == v
          && (p0 <= end <= |d0| ==>
                && (p1 <= end <==> Enc(v).Some? && p0 + |Enc(v).value| <= end)
                && (p1 <= end ==> p1 == p0 + |Enc(v).value| && d1[p0..p1] == Enc(v).value))
        else
          && d1 == d0
          && (p0 <= end <= |d0| ==>
                match Parse(KindOf(v), d0[p0..end])
                case None => end < p1
                case Some((x, rest)) => p0 <= p1 <= end && x == w && rest == d0[p1..end]))
  }

  /** The same for a list of fields. */
  ghost predicate Did(mode: Mode, end: nat, d0: seq<u8>, p0: nat, vs: seq<Val>, d1: seq<u8>, p1: nat, ws: seq<Val>)
    requires AllCountable(vs)
  {
    && |d1| == |d0| && Kinds(ws) == Kinds(vs)
    && (forall i :: 0 <= i < |d0| && (i < p0 || end <= i) ==> d1[i] == d0[i])
    && (end < p0 ==> end < p1)
    && (if mode.MsgPack? then
          && ws == vs
          && (p0 <= end <= |d0| ==>
                && (p1 <= end <==> EncAll(vs).Some? && p0 + |EncAll(vs).value| <= end)
                && (p1 <= end ==> p1 == p0 + |EncAll(vs).value| && d1[p0..p1] == EncAll(vs).value))
        else
          && d1 == d0
          && (p0 <= end <= |d0| ==>
                match ParseAll(Kinds(vs), d0[p0..end])
                case None => end < p1
                case Some((xs, rest)) => p0 <= p1 <= end && xs == ws && rest == d0[p1..end]))
  }

  lemma OneField(v: Val, b: seq<u8>)
    requires Countable(v)
    ensures AllCountable([v]) && Kinds([v]) == [KindOf(v)]
    ensures EncAll([v]) == Enc(v)
    ensures ParseAll([KindOf(v)], b) ==
            match Parse(KindOf(v), b) case None => None case Some((x, rest)) => Some(([x], rest))
  {
    assert [v][1..] == [] && [KindOf(v)][1..] == [];
    assert Enc(v).Some? ==> Enc(v).value + [] == Enc(v).value;
    assert forall x: Val :: [x] + [] == [x];
  }

  lemma FieldDid(mode: Mode, end: nat, d0: seq<u8>, p0: nat, v: Val, d1: seq<u8>, p1: nat, w: Val)
    requires Countable(v) && Field(mode, end, d0, p0, v, d1, p1, w) && Countable(w)
    ensures AllCountable([v]) && Did(mode, end, d0, p0, [v], d1, p1, [w])
  {
    OneField(w, []);
    if p0 <= end <= |d0| {
      OneField(v, d0[p0..end]);
    } else {
      OneField(v, []);
    }
  }

  lemma SlicesJoin(d1: seq<u8>, d2: seq<u8>, p0: nat, p1: nat, p2: nat)
    requires p0 <= p1 <= p2 <= |d1| == |d2|
    requires forall i :: 0 <= i < p1 ==> d2[i] == d1[i]
    ensures d2[p0..p2] == d1[p0..p1] + d2[p1..p2]
  {
    assert d2[p0..p1] == d1[p0..p1];
    assert d2[p0..p2] == d2[p0..p1] + d2[p1..p2];
  }

  /** Fields one after the other. */
  lemma DidThen(mode: Mode, end: nat, d0: seq<u8>, p0: nat, vs: seq<Val>, d1: seq<u8>, p1: nat, ws: seq<Val>,
                vs': seq<Val>, d2: seq<u8>, p2: nat, ws': seq<Val>)
    requires AllCountable(vs) && AllCountable(vs')
    requires Did(mode, end, d0, p0, vs, d1, p1, ws) && Did(mode, end, d1, p1, vs', d2, p2, ws')
    requires p0 <= p1 || end < p1
    ensures AllCountable(vs + vs') && Did(mode, end, d0, p0, vs + vs', d2, p2, ws + ws')
  {
    EncAllConcat(vs, vs');
    KindsConcat(vs, vs');
    KindsConcat(ws, ws');
    if p0 <= end <= |d0| {
      if mode.MsgPack? {
        if p2 <= end {
          SlicesJoin(d1, d2, p0, p1, p2);
        }
      } else {
        ParseAllConcat(Kinds(vs), Kinds(vs'), d0[p0..end]);
      }
    }
  }

  class Message {
    const data: array<u8>
    var pos: nat
    var end: nat
    var mode: Mode

    // What the routines did since Begin: where that was, the fields they were given, and the
    // fields they handed back.
    ghost var base: seq<u8>
    ghost var start: nat
    ghost var given: seq<Val>
    ghost var got: seq<Val>

    /** mixp_message. */
    constructor (data: array<u8>, mode: Mode)
      ensures this.data == data && pos == 0 && end == data.Length && this.mode == mode && Valid()
    {
      this.data, this.pos, this.end, this.mode := data, 0, data.Length, mode;
    }

    ghost predicate Valid()
      reads this
    {
      end <= data.Length
    }

    ghost predicate Transcript()
      reads this, data
    {
      && Valid() && AllCountable(given) && AllCountable(got)
      && Did(mode, end, base, start, given, data[..], pos, got) && (start <= pos || end < pos)
    }

    ghost method Begin()
      requires Valid()
      modifies this`base, this`start, this`given, this`got
      ensures Transcript() && base == data[..] && start == pos && given == [] && got == []
    {
      base, start, given, got := data[..], pos, [], [];
    }

    /** Enter one field into the transcript. */
    ghost method Note(d1: seq<u8>, p1: nat, v: Val, w: Val)
      requires Valid() && AllCountable(given) && AllCountable(got) && Countable(v) && Countable(w)
      requires Did(mode, end, base, start, given, d1, p1, got) && (start <= p1 || end < p1)
      requires Field(mode, end, d1, p1, v, data[..], pos, w) && (p1 <= pos || end < pos)
      modifies this`given, this`got
      ensures Transcript() && given == old(given) + [v] && got == old(got) + [w]
    {
      FieldDid(mode, end, d1, p1, v, data[..], pos, w);
      DidThen(mode, end, base, start, given, d1, p1, got, [v], data[..], pos, [w]);
      EncAllConcat(got, [w]);
      given, got := given + [v], got + [w];
    }

    // ---------- integers ----------

    method Store8(v: u8)
      requires Valid()
      modifies this`pos, data
      ensures Put(end, old(data[..]), old(pos), [v], data[..], pos)
      ensures pos <= end ==> data[old(pos)] == v
      ensures end < pos ==> data[..] == old(data[..])
    {
      if pos + 1 <= end {
        data[pos] := v;
      }
      pos := pos + 1;
    }

    method Store16(v: u16)
      requires Valid()
      modifies this`pos, data
      ensures Put(end, old(data[..]), old(pos), E16(v), data[..], pos)
      ensures pos <= end ==> Stored(data[..], old(pos), v, 2)
      ensures end < pos ==> data[..] == old(data[..])
    {
      if pos + 2 <= end {
        data[pos + 1] := v / 0x100;
        data[pos] := v % 0x100;
        Digits16(v);
        StoredThere(data[..], pos, E16(v), v);
      }
      pos := pos + 2;
    }

    method Store32(v: u32)
      requires Valid()
      modifies this`pos, data
      ensures Put(end, old(data[..]), old(pos), E32(v), data[..], pos)
      ensures pos <= end ==> Stored(data[..], old(pos), v, 4)
      ensures end < pos ==> data[..] == old(data[..])
    {
      if pos + 4 <= end {
        data[pos + 3] := v / 0x100_0000;
        data[pos + 2] := v / 0x1_0000 % 0x100;
        data[pos + 1] := v / 0x100 % 0x100;
        data[pos] := v % 0x100;
        Digits32(v);
        StoredThere(data[..], pos, E32(v), v);
      }
      pos := pos + 4;
    }

    method Store64(v: u64)
      requires Valid()
      modifies this`pos, data
      ensures Put(end, old(data[..]), old(pos), E64(v), data[..], pos)
      ensures pos <= end ==> Stored(data[..], old(pos), v, 8)
      ensures end < pos ==> data[..] == old(data[..])
    {
      var p7: u8 := v / 0x100_0000_0000_0000;
      var p6: u8 := v / 0x1_0000_0000_0000 % 0x100;
      var p5: u8 := v / 0x100_0000_0000 % 0x100;
      var p4: u8 := v / 0x1_0000_0000 % 0x100;
      var p3: u8 := v / 0x100_0000 % 0x100;
      var p2: u8 := v / 0x1_0000 % 0x100;
      var p1: u8 := v / 0x100 % 0x100;
      var p0: u8 := v % 0x100;
      assert E64(v) == [p0, p1, p2, p3, p4, p5, p6, p7] by { StoredBytes(v); }
      CopyIn([p0, p1, p2, p3, p4, p5, p6, p7]);
      if pos <= end {
        Digits64(v);
        StoredThere(data[..], old(pos), E64(v), v);
      }
    }

    method Load8() returns (v: u8)
      requires Valid()
      modifies this`pos
      ensures pos == old(pos) + 1 && v == if pos <= end then data[old(pos)] else 0
    {
      v := if pos + 1 <= end then data[pos] else 0;
      pos := pos + 1;
    }

    method Load16() returns (v: u16)
      requires Valid()
      modifies this`pos
      ensures pos == old(pos) + 2 && v == if pos <= end then L16(data[old(pos)..pos]) else 0
      ensures pos <= end ==> v == Le16(data[..], old(pos))
    {
      v := 0;
      if pos + 2 <= end {
        LoadsThere(data[..], pos);
        v := Word(data[pos], data[pos + 1], 0, 0);
      }
      pos := pos + 2;
    }

    method Load32() returns (v: u32)
      requires Valid()
      modifies this`pos
      ensures pos == old(pos) + 4 && v == if pos <= end then L32(data[old(pos)..pos]) else 0
      ensures pos <= end ==> v == Le32(data[..], old(pos))
    {
      v := 0;
      if pos + 4 <= end {
        LoadsThere(data[..], pos);
        v := Word(data[pos], data[pos + 1], data[pos + 2], data[pos + 3]);
      }
      pos := pos + 4;
    }

    method Load64() returns (v: u64)
      requires Valid()
      modifies this`pos
      ensures pos == old(pos) + 8 && v == if pos <= end then L64(data[old(pos)..pos]) else 0
      ensures pos <= end ==> v == Read64(data[..], old(pos))
    {
      v := 0;
      if pos + 8 <= end {
        Load64There(data[..], pos);
        v := Sum64(data[pos], data[pos + 1], data[pos + 2], data[pos + 3],
                   data[pos + 4], data[pos + 5], data[pos + 6], data[pos + 7]) % 0x1_0000_0000_0000_0000;
      }
      pos := pos + 8;
    }

    method PU8(v: u8) returns (w: u8)
      requires Transcript()
      modifies this`pos, this`given, this`got, data
      ensures Transcript() && given == old(given) + [V8(v)] && got == old(got) + [V8(w)]
    {
      ghost var from, at := data[..], pos;
      if mode.MsgPack? {
        Store8(v);
        w := v;
      } else {
        w := Load8();
      }
      Note(from, at, V8(v), V8(w));
    }

    method PU16(v: u16) returns (w: u16)
      requires Transcript()
      modifies this`pos, this`given, this`got, data
      ensures Transcript() && given == old(given) + [V16(v)] && got == old(got) + [V16(w)]
    {
      ghost var from, at := data[..], pos;
      if mode.MsgPack? {
        Store16(v);
        w := v;
      } else {
        w := Load16();
        Slice(data[..], old(pos), end, 2);
      }
      Note(from, at, V16(v), V16(w));
    }

    method PU32(v: u32) returns (w: u32)
      requires Transcript()
      modifies this`pos, this`given, this`got, data
      ensures Transcript() && given == old(given) + [V32(v)] && got == old(got) + [V32(w)]
    {
      ghost var from, at := data[..], pos;
      if mode.MsgPack? {
        Store32(v);
        w := v;
      } else {
        w := Load32();
        Slice(data[..], old(pos), end, 4);
      }
      Note(from, at, V32(v), V32(w));
    }

    method PU64(v: u64) returns (w: u64)
      requires Transcript()
      modifies this`pos, this`given, this`got, data
      ensures Transcript() && given == old(given) + [V64(v)] && got == old(got) + [V64(w)]
    {
      ghost var from, at := data[..], pos;
      if mode.MsgPack? {
        Store64(v);
        w := v;
      } else {
        w := Load64();
        Slice(data[..], old(pos), end, 8);
      }
      Note(from, at, V64(v), V64(w));
    }

    method PSize(v: u64) returns (w: u64)
      requires Transcript()
      modifies this`pos, this`given, this`got, data
      ensures Transcript() && given == old(given) + [VSize(v)] && got == old(got) + [VSize(w)]
    {
      ghost var from, at := data[..], pos;
      if mode.MsgPack? {
        Store32(v % 0x1_0000_0000);
        w := v;
      } else {
        w := Load32();
        Slice(data[..], old(pos), end, 4);
      }
      Note(from, at, VSize(v), VSize(w));
    }

    method PQid(q: Qid) returns (r: Qid)
      requires Transcript()
      modifies this`pos, this`given, this`got, data
      ensures Transcript() && given == old(given) + [VQid(q)] && got == old(got) + [VQid(r)]
    {
      ghost var from, at := data[..], pos;
      if mode.MsgPack? {
        PackQid(q);
        r := q;
      } else {
        r := UnpackQid();
        Slice(data[..], old(pos), end, 13);
      }
      Note(from, at, VQid(q), VQid(r));
    }

    method PackQid(q: Qid)
      requires Valid()
      modifies this`pos, data
      ensures Put(end, old(data[..]), old(pos), EQid(q), data[..], pos)
    {
      ghost var d0, p0 := data[..], pos;
      Store8(q.typ);
      ghost var d1, p1 := data[..], pos;
      Store32(q.version);
      ghost var d2, p2 := data[..], pos;
      Store64(q.path);
      PutThen(end, d0, p0, [q.typ], d1, p1, E32(q.version), d2, p2);
      PutThen(end, d0, p0, [q.typ] + E32(q.version), d2, p2, E64(q.path), data[..], pos);
    }

    method UnpackQid() returns (r: Qid)
      requires Valid()
      modifies this`pos
      ensures pos == old(pos) + 13
      ensures pos <= end ==> Wire.PQid(data[old(pos)..end]) == Some((r, data[pos..end]))
      ensures old(pos) <= end < pos ==> Wire.PQid(data[old(pos)..end]) == None
    {
      var t := Load8();
      var version := Load32();
      var path := Load64();
      r := Qid(t, version, path);
      if pos <= end {
        QidSlices(data[..], old(pos), end);
      }
    }

    // ---------- bytes and strings ----------

    /** memcpy into the buffer, if it fits; the cursor moves on in any case. */
    method CopyIn(b: seq<u8>)
      requires Valid()
      modifies this`pos, data
      ensures Put(end, old(data[..]), old(pos), b, data[..], pos)
      ensures end < pos ==> data[..] == old(data[..])
    {
      if pos + |b| <= end {
        forall i | 0 <= i < |b| {
          data[pos + i] := b[i];
        }
        assert data[pos..pos + |b|] == b;
      }
      pos := pos + |b|;
    }

    /** A copy of the next len bytes, if they are there; the cursor moves on in any case. */
    method CopyOut(len: nat) returns (b: seq<u8>)
      requires Valid()
      modifies this`pos
      ensures pos == old(pos) + len && b == if pos <= end then data[old(pos)..pos] else []
    {
      b := if pos + len <= end then data[pos..pos + len] else [];
      pos := pos + len;
    }

    method PString(s: seq<u8>) returns (t: seq<u8>)
      requires Transcript()
      modifies this`pos, this`given, this`got, data
      ensures Transcript() && given == old(given) + [VStr(s)] && got == old(got) + [VStr(t)]
    {
      ghost var from, at := data[..], pos;
      if mode.MsgPack? {
        PackString(s);
        t := s;
      } else {
        t := UnpackString();
      }
      Note(from, at, VStr(s), VStr(t));
    }

    method PackString(s: seq<u8>)
      requires Valid()
      modifies this`pos, data
      ensures Put(end, old(data[..]), old(pos), EStr(s), data[..], pos)
    {
      ghost var d0, p0 := data[..], pos;
      var len: u16 := Strlen(s) % 0x1_0000;
      Store16(len);
      ghost var d1, p1 := data[..], pos;
      CopyIn(s[..len]);
      PutThen(end, d0, p0, E16(len), d1, p1, s[..len], data[..], pos);
    }

    method UnpackString() returns (t: seq<u8>)
      requires Valid()
      modifies this`pos
      ensures old(pos) <= pos && (old(pos) <= end ==>
                match PStr(data[old(pos)..end])
                case None => end < pos
                case Some((x, rest)) => pos <= end && x == t && rest == data[pos..end])
    {
      StringAt(data[..], pos, end);
      var len := Load16();
      t := CopyOut(len);
    }

    /** A 32-bit count followed by that many bytes: mixp_psize and mixp_pdata. */
    method PData32(d: seq<u8>) returns (e: seq<u8>)
      requires Transcript() && |d| < 0x1_0000_0000_0000_0000
      modifies this`pos, this`given, this`got, data
      ensures Transcript() && given == old(given) + [VData32(d)] && got == old(got) + [VData32(e)]
      ensures |e| < 0x1_0000_0000_0000_0000
    {
      ghost var from, at := data[..], pos;
      if mode.MsgPack? {
        PackData32(d);
        e := d;
      } else {
        e := UnpackData32();
      }
      Note(from, at, VData32(d), VData32(e));
    }

    method PackData32(d: seq<u8>)
      requires Valid()
      modifies this`pos, data
      ensures Put(end, old(data[..]), old(pos), Enc(VData32(d)).value, data[..], pos)
    {
      ghost var d0, p0 := data[..], pos;
      var n: u32 := |d| % 0x1_0000_0000;
      Store32(n);
      ghost var d1, p1 := data[..], pos;
      CopyIn(d[..n]);
      PutThen(end, d0, p0, E32(n), d1, p1, d[..n], data[..], pos);
    }

    method UnpackData32() returns (e: seq<u8>)
      requires Valid()
      modifies this`pos
      ensures old(pos) <= pos && |e| < 0x1_0000_0000
      ensures old(pos) <= end ==>
                match Parse(KData32, data[old(pos)..end])
                case None => end < pos
                case Some((x, rest)) => pos <= end && x == VData32(e) && rest == data[pos..end]
    {
      Data32At(data[..], pos, end);
      var len := Load32();
      e := CopyOut(len);
    }

    /** A 16-bit count followed by that many bytes: mixp_pu16 and mixp_pdata. */
    method PData16(d: seq<u8>) returns (e: seq<u8>)
      requires Transcript() && |d| < 0x1_0000
      modifies this`pos, this`given, this`got, data
      ensures Transcript() && given == old(given) + [VData16(d)] && got == old(got) + [VData16(e)]
      ensures |e| < 0x1_0000
    {
      ghost var from, at := data[..], pos;
      if mode.MsgPack? {
        PackData16(d);
        e := d;
      } else {
        e := UnpackData16();
      }
      Note(from, at, VData16(d), VData16(e));
    }

    method PackData16(d: seq<u8>)
      requires Valid() && |d| < 0x1_0000
      modifies this`pos, data
      ensures Put(end, old(data[..]), old(pos), Enc(VData16(d)).value, data[..], pos)
    {
      ghost var d0, p0 := data[..], pos;
      var n: u16 := |d|;
      Store16(n);
      ghost var d1, p1 := data[..], pos;
      CopyIn(d[..n]);
      PutThen(end, d0, p0, E16(n), d1, p1, d[..n], data[..], pos);
      assert d[..n] == d;
    }

    method UnpackData16() returns (e: seq<u8>)
      requires Valid()
      modifies this`pos
      ensures old(pos) <= pos && |e| < 0x1_0000
      ensures old(pos) <= end ==>
                match Parse(KData16, data[old(pos)..end])
                case None => end < pos
                case Some((x, rest)) => pos <= end && x == VData16(e) && rest == data[pos..end]
    {
      Data16At(data[..], pos, end);
      var len := Load16();
      e := CopyOut(len);
    }

    // ---------- counted lists ----------

    method PQids(qs: seq<Qid>) returns (rs: seq<Qid>)
      requires Transcript() && |qs| < 0x1_0000
      modifies this`pos, this`given, this`got, data
      ensures Transcript() && given == old(given) + [VQids(qs)] && got == old(got) + [VQids(rs)]
      ensures |rs| < 0x1_0000
    {
      ghost var from, at := data[..], pos;
      if mode.MsgPack? {
        PackQids(qs);
        rs := qs;
      } else {
        rs := UnpackQids();
      }
      Note(from, at, VQids(qs), VQids(rs));
    }

    method PackQids(qs: seq<Qid>)
      requires Valid() && |qs| < 0x1_0000
      modifies this`pos, data
      ensures |qs| <= MAX_WELEM ==> Put(end, old(data[..]), old(pos), E16(|qs|) + EQids(qs), data[..], pos)
      ensures MAX_WELEM < |qs| ==>
                end < pos && forall i :: 0 <= i < data.Length && (i < old(pos) || end <= i) ==> data[i] == old(data[i])
    {
      ghost var d0, p0 := data[..], pos;
      Store16(|qs|);
      if |qs| > MAX_WELEM {
        pos := end + 1;
        return;
      }
      var i := 0;
      assert E16(|qs|) + EQids(qs[..0]) == E16(|qs|);
      while i < |qs|
        invariant 0 <= i <= |qs| && Valid()
        invariant Put(end, d0, p0, E16(|qs|) + EQids(qs[..i]), data[..], pos)
      {
        ghost var d1, p1 := data[..], pos;
        PackQid(qs[i]);
        PutThen(end, d0, p0, E16(|qs|) + EQids(qs[..i]), d1, p1, EQid(qs[i]), data[..], pos);
        EQidsSnoc(qs, i);
        i := i + 1;
      }
      assert qs[..i] == qs;
    }

    method UnpackQids() returns (rs: seq<Qid>)
      requires Valid()
      modifies this`pos
      ensures |rs| <= MAX_WELEM
      ensures (old(pos) <= pos || end < pos) && (end < old(pos) ==> end < pos)
      ensures old(pos) <= end ==>
                match PQidsCounted(data[old(pos)..end])
                case None => end < pos
                case Some((xs, rest)) => pos <= end && xs == rs && rest == data[pos..end]
    {
      rs := [];
      var num := Load16();
      Slice(data[..], old(pos), end, 2);
      if num > MAX_WELEM {
        pos := end + 1;
        return;
      }
      ghost var p1 := pos;
      var i := 0;
      while i < num
        invariant 0 <= i <= num && |rs| == i && p1 <= pos && Valid()
        invariant pos <= end ==> QidsAfter(data[p1..end], num, []) == QidsAfter(data[pos..end], num - i, rs)
        invariant p1 <= end < pos ==> QidsAfter(data[p1..end], num, []) == None
      {
        ghost var p2 := pos;
        var q := UnpackQid();
        if p2 <= end {
          QidsAfterStep(data[p2..end], num - i, rs);
        }
        rs := rs + [q];
        i := i + 1;
      }
      if p1 <= end {
        QidsAfterAll(data[p1..end], num);
        if pos <= end {
          assert QidsAfter(data[pos..end], 0, rs) == Some((rs, data[pos..end])) by { assert rs + [] == rs; }
        }
      }
    }

    method PStrings(ss: seq<seq<u8>>) returns (ts: seq<seq<u8>>)
      requires Transcript() && |ss| < 0x1_0000
      modifies this`pos, this`given, this`got, data
      ensures Transcript() && given == old(given) + [VStrs(ss)] && got == old(got) + [VStrs(ts)]
      ensures |ts| < 0x1_0000
    {
      ghost var from, at := data[..], pos;
      if mode.MsgPack? {
        PackStrings(ss);
        ts := ss;
      } else {
        ts := UnpackStrings();
      }
      Note(from, at, VStrs(ss), VStrs(ts));
    }

    method PackStrings(ss: seq<seq<u8>>)
      requires Valid() && |ss| < 0x1_0000
      modifies this`pos, data
      ensures |ss| <= MAX_WELEM ==> Put(end, old(data[..]), old(pos), E16(|ss|) + EStrs(ss), data[..], pos)
      ensures MAX_WELEM < |ss| ==>
                end < pos && forall i :: 0 <= i < data.Length && (i < old(pos) || end <= i) ==> data[i] == old(data[i])
    {
      ghost var d0, p0 := data[..], pos;
      Store16(|ss|);
      if |ss| > MAX_WELEM {
        pos := end + 1;
        return;
      }
      var i := 0;
      assert E16(|ss|) + EStrs(ss[..0]) == E16(|ss|);
      while i < |ss|
        invariant 0 <= i <= |ss| && Valid()
        invariant Put(end, d0, p0, E16(|ss|) + EStrs(ss[..i]), data[..], pos)
      {
        ghost var d1, p1 := data[..], pos;
        PackString(ss[i]);
        PutThen(end, d0, p0, E16(|ss|) + EStrs(ss[..i]), d1, p1, EStr(ss[i]), data[..], pos);
        EStrsSnoc(ss, i);
        i := i + 1;
      }
      assert ss[..i] == ss;
    }

    /** The first pass: only the lengths are read; it stops when the cursor has passed the end. */
    method SkipStrings(num: nat) returns (ok: bool)
      requires Valid() && (end < pos ==> num == 0)
      modifies this`pos
      ensures old(pos) <= pos && (end < old(pos) ==> ok)
      ensures old(pos) <= end ==> (ok <==> PStrs(data[old(pos)..end], num).Some?) && (!ok ==> end < pos)
    {
      var i := 0;
      ghost var all := pos <= end && PStrs(data[pos..end], num).Some?;
      while i < num
        invariant 0 <= i <= num && old(pos) <= pos && Valid() && (old(pos) <= end ==> pos <= end)
        invariant pos <= end ==> Skipping(all, data[pos..end], num - i)
      {
        SkipStep(all, data[pos..end], num - i);
        SkipString();
        if pos > end {
          return false;
        }
        i := i + 1;
      }
      ok := true;
    }

    method SkipString()
      requires Valid() && pos <= end
      modifies this`pos
      ensures old(pos) <= pos
      ensures if pos <= end
              then PStr(data[old(pos)..end]).Some? && PStr(data[old(pos)..end]).value.1 == data[pos..end]
              else PStr(data[old(pos)..end]).None?
    {
      ghost var p := pos;
      var len := Load16();
      Slice(data[..], p, end, 2);
      Slice(data[..], p + 2, end, len);
      pos := pos + len;
    }

    method UnpackStrings() returns (ts: seq<seq<u8>>)
      requires Valid()
      modifies this`pos
      ensures |ts| <= MAX_WELEM
      ensures (old(pos) <= pos || end < pos) && (end < old(pos) ==> end < pos)
      ensures old(pos) <= end ==>
                match PStrsCounted(data[old(pos)..end])
                case None => end < pos
                case Some((xs, rest)) => pos <= end && xs == ts && rest == data[pos..end]
    {
      ts := [];
      var num := Load16();
      Slice(data[..], old(pos), end, 2);
      if num > MAX_WELEM {
        pos := end + 1;
        return;
      }
      var s := pos;
      var ok := SkipStrings(num);
      if !ok {
        return;
      }
      pos := s;
      ts := CopyStrings(num);
    }

    /** The second pass: the strings are copied out. */
    method CopyStrings(num: nat) returns (ts: seq<seq<u8>>)
      requires Valid() && (if end < pos then num == 0 else PStrs(data[pos..end], num).Some?)
      modifies this`pos
      ensures |ts| == num && old(pos) <= pos
      ensures old(pos) <= end ==> pos <= end && PStrs(data[old(pos)..end], num) == Some((ts, data[pos..end]))
    {
      ts := [];
      var i := 0;
      ghost var p1 := pos;
      ghost var b1 := if pos <= end then data[pos..end] else [];
      if pos <= end {
        StrsAfterAll(b1, num);
      }
      while i < num
        invariant 0 <= i <= num && |ts| == i && p1 <= pos && (pos <= end || (num == 0 && pos == p1)) && Valid()
        invariant pos <= end ==> Copying(b1, num, data[pos..end], num - i, ts)
      {
        ghost var b := data[pos..end];
        CopyStep(b1, num, b, num - i, ts);
        var t := UnpackString();
        ts := ts + [t];
        i := i + 1;
      }
      if pos <= end {
        CopyEnd(b1, num, data[pos..end], ts);
      }
    }
  }

  /** Parsing n more, after acc. */
  ghost function QidsAfter(b: seq<u8>, n: nat, acc: seq<Qid>): Option<(seq<Qid>, seq<u8>)> {
    match Wire.PQids(b, n) case None => None case Some((qs, rest)) => Some((acc + qs, rest))
  }

  ghost function StrsAfter(b: seq<u8>, n: nat, acc: seq<seq<u8>>): Option<(seq<seq<u8>>, seq<u8>)> {
    match PStrs(b, n) case None => None case Some((ss, rest)) => Some((acc + ss, rest))
  }

  /** Whether all strings are complete is whether the n that are left in b are. */
  ghost predicate Skipping(all: bool, b: seq<u8>, n: nat) {
    all <==> PStrs(b, n).Some?
  }

  lemma SkipStep(all: bool, b: seq<u8>, n: nat)
    requires 0 < n && Skipping(all, b, n)
    ensures match PStr(b) case None => !all case Some((_, rest)) => Skipping(all, rest, n - 1)
  {
    PStrsDefined(b, n);
  }

  lemma PStrsDefined(b: seq<u8>, n: nat)
    requires 0 < n
    ensures PStrs(b, n).Some? <==> PStr(b).Some? && PStrs(PStr(b).value.1, n - 1).Some?
  {}

  lemma QidsAfterStep(b: seq<u8>, n: nat, acc: seq<Qid>)
    requires 0 < n
    ensures match Wire.PQid(b)
            case None => QidsAfter(b, n, acc) == None
            case Some((q, b1)) => QidsAfter(b, n, acc) == QidsAfter(b1, n - 1, acc + [q])
  {
    match Wire.PQid(b)
    case None =>
    case Some((q, b1)) =>
      match Wire.PQids(b1, n - 1)
      case None =>
      case Some((qs, b2)) => assert acc + ([q] + qs) == (acc + [q]) + qs;
  }

  lemma StrsAfterStep(b: seq<u8>, n: nat, acc: seq<seq<u8>>)
    requires 0 < n
    ensures match PStr(b)
            case None => StrsAfter(b, n, acc) == None && PStrs(b, n) == None
            case Some((s, b1)) =>
              && StrsAfter(b, n, acc) == StrsAfter(b1, n - 1, acc + [s])
              && (PStrs(b, n).Some? <==> PStrs(b1, n - 1).Some?)
  {
    match PStr(b)
    case None =>
    case Some((s, b1)) =>
      match PStrs(b1, n - 1)
      case None =>
      case Some((ss, b2)) => assert acc + ([s] + ss) == (acc + [s]) + ss;
  }

  lemma QidsAfterAll(b: seq<u8>, n: nat)
    ensures QidsAfter(b, n, []) == Wire.PQids(b, n)
  {
    match Wire.PQids(b, n)
    case None =>
    case Some((qs, rest)) => assert [] + qs == qs;
  }

  lemma StrsAfterAll(b: seq<u8>, n: nat)
    ensures StrsAfter(b, n, []) == PStrs(b, n)
  {
    match PStrs(b, n)
    case None =>
    case Some((ss, rest)) => assert [] + ss == ss;
  }

  /** Of num strings of b1, ts were copied and n are left in b. */
  ghost predicate Copying(b1: seq<u8>, num: nat, b: seq<u8>, n: nat, ts: seq<seq<u8>>) {
    PStrs(b, n).Some? && PStrs(b1, num) == StrsAfter(b, n, ts)
  }

  lemma CopyStep(b1: seq<u8>, num: nat, b: seq<u8>, n: nat, ts: seq<seq<u8>>)
    requires 0 < n && Copying(b1, num, b, n, ts)
    ensures PStr(b).Some? && Copying(b1, num, PStr(b).value.1, n - 1, ts + [PStr(b).value.0])
  {
    StrsAfterStep(b, n, ts);
  }

  lemma CopyEnd(b1: seq<u8>, num: nat, b: seq<u8>, ts: seq<seq<u8>>)
    requires Copying(b1, num, b, 0, ts)
    ensures PStrs(b1, num) == Some((ts, b))
  {
    assert ts + [] == ts;
  }

  lemma {:induction false} EQidsSnoc(qs: seq<Qid>, i: nat)
    requires i < |qs|
    ensures EQids(qs[..i + 1]) == EQids(qs[..i]) + EQid(qs[i])
    ensures forall c: seq<u8> :: c + EQids(qs[..i + 1]) == (c + EQids(qs[..i])) + EQid(qs[i])
  {
    if i == 0 {
      assert qs[..1] == [qs[0]] && qs[..0] == [];
      assert qs[..1][1..] == [];
    } else {
      EQidsSnoc(qs[1..], i - 1);
      assert qs[..i + 1][1..] == qs[1..][..i] && qs[..i][1..] == qs[1..][..i - 1];
    }
  }

  lemma {:induction false} EStrsSnoc(ss: seq<seq<u8>>, i: nat)
    requires i < |ss|
    ensures EStrs(ss[..i + 1]) == EStrs(ss[..i]) + EStr(ss[i])
    ensures forall c: seq<u8> :: c + EStrs(ss[..i + 1]) == (c + EStrs(ss[..i])) + EStr(ss[i])
  {
    if i == 0 {
      assert ss[..1] == [ss[0]] && ss[..0] == [];
      assert ss[..1][1..] == [];
    } else {
      EStrsSnoc(ss[1..], i - 1);
      assert ss[..i + 1][1..] == ss[1..][..i] && ss[..i][1..] == ss[1..][..i - 1];
    }
  }

  lemma QidSlices(d: seq<u8>, p: nat, end: nat)
    requires p + 13 <= end <= |d|
    ensures PQid(d[p..end]) == Some((Qid(d[p], L32(d[p + 1..p + 5]), L64(d[p + 5..p + 13])), d[p + 13..end]))
  {
    var b := d[p..end];
    SubSlice(d, p, end, 1, 5);
    SubSlice(d, p, end, 5, 13);
    assert b[13..] == d[p + 13..end];
  }

  lemma SubSlice(d: seq<u8>, p: nat, end: nat, i: nat, j: nat)
    requires p <= end <= |d| && i <= j <= end - p
    ensures d[p..end][i..j] == d[p + i..p + j]
  {
    assert forall k :: 0 <= k < j - i ==> d[p..end][i..j][k] == d[p + i..p + j][k];
  }

  /** Where counted data lies in the buffer. */
  lemma Data32At(d: seq<u8>, p: nat, end: nat)
    requires end <= |d|
    ensures p + 4 <= end ==>
              var n := L32(d[p..p + 4]);
              Parse(KData32, d[p..end]) ==
                (if end < p + 4 + n then None else Some((VData32(d[p + 4..p + 4 + n]), d[p + 4 + n..end])))
    ensures p <= end < p + 4 ==> Parse(KData32, d[p..end]) == None
  {
    Slice(d, p, end, 4);
    if p + 4 <= end {
      Slice(d, p + 4, end, L32(d[p..p + 4]));
    }
  }

  lemma Data16At(d: seq<u8>, p: nat, end: nat)
    requires end <= |d|
    ensures p + 2 <= end ==>
              var n := L16(d[p..p + 2]);
              Parse(KData16, d[p..end]) ==
                (if end < p + 2 + n then None else Some((VData16(d[p + 2..p + 2 + n]), d[p + 2 + n..end])))
    ensures p <= end < p + 2 ==> Parse(KData16, d[p..end]) == None
  {
    Slice(d, p, end, 2);
    if p + 2 <= end {
      Slice(d, p + 2, end, L16(d[p..p + 2]));
    }
  }

  lemma StringAt(d: seq<u8>, p: nat, end: nat)
    requires end <= |d|
    ensures p + 2 <= end ==>
              var n := L16(d[p..p + 2]);
              PStr(d[p..end]) == (if end < p + 2 + n then None else Some((d[p + 2..p + 2 + n], d[p + 2 + n..end])))
    ensures p <= end < p + 2 ==> PStr(d[p..end]) == None
  {
    Slice(d, p, end, 2);
    if p + 2 <= end {
      Slice(d, p + 2, end, L16(d[p..p + 2]));
    }
  }

  lemma Slice(d: seq<u8>, p: nat, end: nat, n: nat)
    requires end <= |d|
    ensures p <= end ==> (n <= |d[p..end]| <==> p + n <= end)
    ensures p + n <= end ==> d[p..end][..n] == d[p..p + n] && d[p..end][n..] == d[p + n..end]
  {}
}
