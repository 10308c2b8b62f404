/** Reading and writing an open fid in chunks (libmixp/client.c): the loops against a plain slice of
    the file. */
module ClientIo {
  import opened Common
  import opened Wire
  import opened Fids
  import opened Layout

  // ---------- initfid ----------

  const DEFAULT_IOUNIT := 4096

  /** The conversion of an int to a size_t. */
  function ToSize(n: int): u64
    requires -0x8000_0000 <= n < 0x8000_0000
  {
    if n < 0 then n + 0x1_0000_0000_0000_0000 else n
  }

  /** initfid: iounit is a size_t, so that it is never below 0. */
  function UnitOf(iounit: u32): u64 {
    var n := ToSize(Min(ToInt(iounit), ToInt(MAX_MSG) - 17));
    if n == 0 || n < 0 then DEFAULT_IOUNIT else n
  }

  lemma UnitExact(iounit: u32)
    ensures 1 <= UnitOf(iounit) < 0x8000_0000 <==> iounit < 0x8000_0000
    ensures UnitOf(iounit) ==
              if iounit == 0 then 4096 else if iounit <= 8175 then iounit
              else if iounit < 0x8000_0000 then 8175 else 0xFFFF_FFFF_0000_0000 + iounit
  {}

  /** With a server that settles the size of messages as request.c does, the iounit is usable unless the
      client asked for messages of 1 to 15 bytes. */
  lemma UnitOfServer(msize: u32)
    ensures 1 <= UnitOf(Iounit(Negotiated(msize))) < 0x8000_0000 <==> !(0 < msize < 16)
  {
    NegotiatedExact(msize);
    UnitExact(Iounit(Negotiated(msize)));
  }

  // ---------- reading ----------

  /** What a server replies to the k-th read of a call: an error or bytes. */
  type Reader = (nat, nat, nat) -> Option<seq<u8>>

  /** How many bytes there are from offset on, of n. */
  function Available(file: seq<u8>, offset: nat, n: nat): nat {
    if |file| <= offset then 0 else if offset + n <= |file| then n else |file| - offset
  }

  /** file[offset..min(offset+n, size)]. */
  function Slice(file: seq<u8>, offset: nat, n: nat): seq<u8> {
    seq(Available(file, offset, n), i requires 0 <= i < Available(file, offset, n) => file[offset + i])
  }

  /** A server that reads short only at the end of the file. */
  ghost predicate Honest(srv: Reader, file: seq<u8>) {
    forall k, offset, n :: HonestAt(srv, file, k, offset, n)
  }

  predicate HonestAt(srv: Reader, file: seq<u8>, k: nat, offset: nat, n: nat) {
    srv(k, offset, n) == Some(Slice(file, offset, n))
  }

  predicate Refused(reply: Option<seq<u8>>, n: nat) {
    reply == None || |reply.value| > n
  }

  /** The bytes a call gets, from its k-th request on; None if it fails. */
  function Bytes(srv: Reader, k: nat, unit: nat, offset: nat, count: nat): Option<seq<u8>>
    requires 0 < unit
    decreases count
  {
    if count == 0 then Some([])
    else
      var n := if count < unit then count else unit;
      var reply := srv(k, offset, n);
      if Refused(reply, n) then None
      else if |reply.value| < n then reply
      else
        match Bytes(srv, k + 1, unit, offset + n, count - n)
        case None => None
        case Some(rest) => Some(reply.value + rest)
  }

  lemma SliceSplit(file: seq<u8>, offset: nat, n: nat, m: nat)
    ensures |Slice(file, offset, n)| <= n
    ensures |Slice(file, offset, n)| == n ==>
              Slice(file, offset, n + m) == Slice(file, offset, n) + Slice(file, offset + n, m)
    ensures |Slice(file, offset, n)| < n ==> Slice(file, offset, n + m) == Slice(file, offset, n)
  {}

  /** Chunked reading is the plain slice, whatever the size of the chunks. */
  lemma {:induction false} ReadIsSlice(srv: Reader, file: seq<u8>, k: nat, unit: nat, offset: nat, count: nat)
    requires 0 < unit && Honest(srv, file)
    ensures Bytes(srv, k, unit, offset, count) == Some(Slice(file, offset, count))
    decreases count
  {
    if count == 0 {
      assert Slice(file, offset, 0) == [];
    } else {
      var n := if count < unit then count else unit;
      assert n + (count - n) == count;
      assert HonestAt(srv, file, k, offset, n);
      SliceSplit(file, offset, n, count - n);
      ReadIsSlice(srv, file, k + 1, unit, offset + n, count - n);
    }
  }

  /** The i-th request of a call, when all before it were answered in full. */
  function Asked(unit: nat, count: nat, i: nat): nat
    requires 0 < unit && i * unit < count
  {
    if count - i * unit < unit then count - i * unit else unit
  }

  /** The first i replies are full. */
  predicate Full(srv: Reader, k: nat, unit: nat, offset: nat, i: nat) {
    forall j :: 0 <= j < i ==> FullAt(srv, k, unit, offset, j)
  }

  predicate FullAt(srv: Reader, k: nat, unit: nat, offset: nat, j: nat) {
    var reply := srv(k + j, offset + j * unit, unit);
    reply.Some? && |reply.value| == unit
  }

  predicate FailsAt(srv: Reader, k: nat, unit: nat, offset: nat, count: nat, i: nat)
    requires 0 < unit
  {
    && i * unit < count && Full(srv, k, unit, offset, i)
    && Refused(srv(k + i, offset + i * unit, Asked(unit, count, i)), Asked(unit, count, i))
  }

  lemma TimesNext(i: nat, unit: nat)
    ensures (i + 1) * unit == i * unit + unit
  {}

  /** A call fails exactly when, after full replies, one is an error or longer than asked. */
  lemma {:induction false} FailsExactly(srv: Reader, k: nat, unit: nat, offset: nat, count: nat)
    requires 0 < unit
    ensures Bytes(srv, k, unit, offset, count) == None <==> exists i :: FailsAt(srv, k, unit, offset, count, i)
    decreases count
  {
    if Bytes(srv, k, unit, offset, count) == None {
      FailureFound(srv, k, unit, offset, count);
    } else {
      forall i: nat ensures !FailsAt(srv, k, unit, offset, count, i) {
        if FailsAt(srv, k, unit, offset, count, i) {
          FailureSeen(srv, k, unit, offset, count, i);
        }
      }
    }
  }

  lemma FullFirst(srv: Reader, k: nat, unit: nat, offset: nat, i: nat)
    requires 0 < i
    ensures Full(srv, k, unit, offset, i)
            <==> FullAt(srv, k, unit, offset, 0) && Full(srv, k + 1, unit, offset + unit, i - 1)
  {
    var k1, offset1 := k + 1, offset + unit;
    forall j | 0 < j ensures FullAt(srv, k, unit, offset, j) <==> FullAt(srv, k1, unit, offset1, j - 1) {
      TimesNext(j - 1, unit);
      assert offset + j * unit == offset1 + (j - 1) * unit && k + j == k1 + (j - 1);
    }
    if Full(srv, k, unit, offset, i) {
      forall j | 0 <= j < i - 1 ensures FullAt(srv, k1, unit, offset1, j) {
        var j1 := j + 1;
        assert FullAt(srv, k, unit, offset, j1);
      }
    }
  }

  lemma FailsLater(srv: Reader, k: nat, unit: nat, offset: nat, count: nat, i: nat)
    requires 0 < unit < count && 0 < i
    ensures FailsAt(srv, k, unit, offset, count, i)
            <==> FullAt(srv, k, unit, offset, 0) && FailsAt(srv, k + 1, unit, offset + unit, count - unit, i - 1)
  {
    TimesNext(i - 1, unit);
    FullFirst(srv, k, unit, offset, i);
    assert offset + i * unit == offset + unit + (i - 1) * unit && k + i == k + 1 + (i - 1);
  }

  lemma {:induction false} FailureFound(srv: Reader, k: nat, unit: nat, offset: nat, count: nat)
    requires 0 < unit && Bytes(srv, k, unit, offset, count) == None
    ensures exists i :: FailsAt(srv, k, unit, offset, count, i)
    decreases count
  {
    var n := if count < unit then count else unit;
    assert 0 * unit == 0;
    if Refused(srv(k, offset, n), n) {
      assert FailsAt(srv, k, unit, offset, count, 0);
    } else {
      FailureFound(srv, k + 1, unit, offset + n, count - n);
      var i: nat :| FailsAt(srv, k + 1, unit, offset + n, count - n, i);
      FailsLater(srv, k, unit, offset, count, i + 1);
      assert FailsAt(srv, k, unit, offset, count, i + 1);
    }
  }

  lemma {:induction false} FailureSeen(srv: Reader, k: nat, unit: nat, offset: nat, count: nat, i: nat)
    requires 0 < unit && FailsAt(srv, k, unit, offset, count, i)
    ensures Bytes(srv, k, unit, offset, count) == None
    decreases i
  {
    if i > 0 {
      TimesNext(i - 1, unit);
      assert 0 <= (i - 1) * unit;
      FailsLater(srv, k, unit, offset, count, i);
      FailureSeen(srv, k + 1, unit, offset + unit, count - unit, i - 1);
      assert 0 * unit == 0;
    }
  }

  class Cfid {
    var iounit: u64
    var offset: u64
    var open: bool

    constructor ()
      ensures !open
    {
      iounit, offset, open := 0, 0, false;
    }

    method InitFid(unit: u32)
      modifies this
      ensures open && offset == 0 && iounit == UnitOf(unit)
    {
      open := true;
      offset := 0;
      iounit := ToSize(Min(ToInt(unit), ToInt(MAX_MSG) - 17));
      if iounit == 0 {          // the test for iounit < 0 that follows never succeeds
        iounit := DEFAULT_IOUNIT;
      }
    }

    /** _pread: -1, or the number of bytes, which are then at the front of buf. The rest of buf is as
        it was. */
    method Pread(srv: Reader, buf: array<u8>, count: nat, at: nat) returns (r: int)
      requires 1 <= iounit < 0x8000_0000 && count <= buf.Length && count < 0x8000_0000
      requires at + count < 0x8000_0000_0000_0000
      modifies buf
      ensures match Bytes(srv, 0, iounit, at, count)
              case None => r == -1
              case Some(b) => r == |b| <= count && buf[..r] == b && buf[r..] == old(buf[r..])
      ensures buf[count..] == old(buf[count..])
    {
      var len, offset, k := 0, at, 0;      // k replies so far
      ghost var was, want := buf[..], Bytes(srv, 0, iounit, at, count);
      JoinNone(want);
      while len < count
        invariant 0 <= len <= count && offset == at + len
        invariant buf[len..] == was[len..]
        invariant want == Join(buf[..len], Bytes(srv, k, iounit, offset, count - len))
        decreases count - len
      {
        var n := Min(count - len, iounit);
        var reply := srv(k, offset, n);
        BytesStep(srv, k, iounit, offset, count - len, buf[..len]);
        if reply == None || |reply.value| > n {
          TailsToo(buf[..], was, len, count);
          return -1;
        }
        TailsToo(buf[..], was, len, len + |reply.value|);
        Copy(buf, len, reply.value);
        offset := offset + |reply.value|;
        len := len + |reply.value|;
        if |reply.value| < n {
          TailsToo(buf[..], was, len, count);
          return len;
        }
        k := k + 1;
      }
      r := len;
      assert buf[..len] + [] == buf[..len];
    }

    /** mixp_read: the offset moves by what was read. */
    method Read(srv: Reader, buf: array<u8>, count: nat) returns (r: int)
      requires 1 <= iounit < 0x8000_0000 && count <= buf.Length && count < 0x8000_0000
      requires offset + count < 0x8000_0000_0000_0000
      modifies this`offset, buf
      ensures match Bytes(srv, 0, iounit, old(offset), count)
              case None => r == -1 && offset == old(offset)
              case Some(b) => r == |b| <= count && buf[..r] == b && offset == old(offset) + r
    {
      r := Pread(srv, buf, count, offset);
      if r > 0 {
        offset := offset + r;
      }
    }

    /** _pwrite, to a server that accepts at least a byte of what it is sent or fails. The requests are
        sent for this.offset: the argument is not used. A reply for less than was sent is not noticed,
        since the count that is compared is the request's own; the rest is sent next. */
    method Pwrite(file: Remote, buf: seq<u8>, at: u64) returns (r: int)
      requires 1 <= iounit < 0x8000_0000 && |buf| < 0x8000_0000 && offset + |buf| < 0x1_0000_0000_0000_0000
      modifies this`offset, file
      ensures r == -1 || r == |buf|
      ensures r == |buf| ==> offset == old(offset) + r
      ensures r == -1 ==> old(offset) <= offset <= old(offset) + |buf|
      ensures file.bytes == Overwrite(old(file.bytes), old(offset), buf[..offset - old(offset)])
    {
      var len := 0;
      ghost var at0, bytes0 := offset, file.bytes;
      OverwriteNone(bytes0, at0);
      while true
        invariant 0 <= len <= |buf| && offset == at0 + len
        invariant file.bytes == Overwrite(bytes0, at0, buf[..len])
        decreases |buf| - len, |file.script|
      {
        var n := Min(|buf| - len, iounit);
        var d := buf[len..len + n];
        var c := file.Write(offset, d);
        if c == None {
          return -1;
        }
        OverwriteNext(bytes0, at0, buf[..len], d[..c.value]);
        assert buf[..len] + d[..c.value] == buf[..len + c.value];
        offset := offset + c.value;
        len := len + c.value;
        if len >= |buf| {
          break;
        }
      }
      r := len;
    }

    /** mixp_write: the offset moves a second time. */
    method Write(file: Remote, buf: seq<u8>) returns (r: int)
      requires 1 <= iounit < 0x8000_0000 && |buf| < 0x8000_0000 && offset + 2 * |buf| < 0x1_0000_0000_0000_0000
      modifies this`offset, file
      ensures r == -1 || r == |buf|
      ensures r == |buf| ==>
                offset == old(offset) + 2 * |buf| && file.bytes == Overwrite(old(file.bytes), old(offset), buf)
    {
      r := Pwrite(file, buf, offset);
      if r > 0 {
        offset := offset + r;
      }
      assert buf[..|buf|] == buf;
    }

    /** mixp_pwrite: the bytes go to the fid's own offset, which moves; where they were asked to go only
        matters when it is the same. */
    method PositionedWrite(file: Remote, buf: seq<u8>, at: u64) returns (r: int)
      requires 1 <= iounit < 0x8000_0000 && |buf| < 0x8000_0000 && offset + |buf| < 0x1_0000_0000_0000_0000
      modifies this`offset, file
      ensures r == -1 || r == |buf|
      ensures r == |buf| ==> offset == old(offset) + |buf| && file.bytes == Overwrite(old(file.bytes), old(offset), buf)
      ensures r == |buf| && (at == old(offset) || buf == []) ==> file.bytes == Overwrite(old(file.bytes), at, buf)
    {
      r := Pwrite(file, buf, at);
      assert buf[..|buf|] == buf;
      PwriteExact(old(offset), at, buf);
    }

    /** Two calls of mixp_write. */
    method WriteTwice(file: Remote, a: seq<u8>, b: seq<u8>) returns (r: int, r': int)
      requires 1 <= iounit < 0x8000_0000 && |a| < 0x8000_0000 && |b| < 0x8000_0000
      requires offset + 2 * |a| + 2 * |b| < 0x1_0000_0000_0000_0000
      modifies this`offset, file
      ensures r == |a| && r' == |b| ==>
                file.bytes == Overwrite(Overwrite(old(file.bytes), old(offset), a), old(offset) + 2 * |a|, b)
      ensures r == |a| && r' == |b| && (a == [] || b == []) ==>
                file.bytes == Overwrite(old(file.bytes), old(offset), a + b)
    {
      ghost var bytes0, at0 := file.bytes, offset;
      r := Write(file, a);
      r' := -1;
      if r == |a| {
        r' := Write(file, b);
        if a == [] || b == [] {
          WritesApart(bytes0, at0, a, b);
        }
      }
    }
  }

  /** One turn of the loop. */
  lemma BytesStep(srv: Reader, k: nat, unit: nat, offset: nat, count: nat, before: seq<u8>)
    requires 0 < unit && 0 < count
    ensures var n := Min(count, unit);
            var reply := srv(k, offset, n);
            Join(before, Bytes(srv, k, unit, offset, count)) ==
              if Refused(reply, n) then None
              else if |reply.value| < n then Some(before + reply.value)
              else Join(before + reply.value, Bytes(srv, k + 1, unit, offset + n, count - n))
  {
    var n := Min(count, unit);
    var reply := srv(k, offset, n);
    if reply.Some? {
      JoinJoin(before, reply.value, Bytes(srv, k + 1, unit, offset + n, count - n));
    }
  }

  lemma TailsToo(a: seq<u8>, b: seq<u8>, i: nat, j: nat)
    requires i <= j <= |a| == |b| && a[i..] == b[i..]
    ensures a[j..] == b[j..]
  {
    assert a[i..][j - i..] == a[j..] && b[i..][j - i..] == b[j..];
  }

  lemma JoinNone(b: Option<seq<u8>>)
    ensures Join([], b) == b
  {
    if b.Some? {
      assert [] + b.value == b.value;
    }
  }

  /** What was read before, and the rest of the call. */
  function Join(a: seq<u8>, b: Option<seq<u8>>): Option<seq<u8>> {
    match b case None => None case Some(s) => Some(a + s)
  }

  lemma JoinJoin(a: seq<u8>, b: seq<u8>, c: Option<seq<u8>>)
    ensures Join(a, Join(b, c)) == Join(a + b, c)
  {
    if c.Some? {
      assert a + (b + c.value) == a + b + c.value;
    }
  }

  /** memcpy. */
  method Copy(buf: array<u8>, at: nat, b: seq<u8>)
    requires at + |b| <= buf.Length
    modifies buf
    ensures buf[..at + |b|] == old(buf[..at]) + b && buf[at + |b|..] == old(buf[at + |b|..])
  {
    forall i | 0 <= i < |b| {
      buf[at + i] := b[i];
    }
    assert buf[..at] == old(buf[..at]) && buf[at..at + |b|] == b;
  }

  // ---------- successive reads ----------

  function Total(counts: seq<nat>): nat {
    if counts == [] then 0 else counts[0] + Total(counts[1..])
  }

  /** What calls of mixp_read deliver one after the other. */
  function Reads(srv: Reader, unit: nat, offset: nat, counts: seq<nat>): Option<seq<u8>>
    requires 0 < unit
    decreases |counts|
  {
    if counts == [] then Some([])
    else match Bytes(srv, 0, unit, offset, counts[0])
      case None => None
      case Some(b) => Join(b, Reads(srv, unit, offset + |b|, counts[1..]))
  }

  /** Together they are one read, which stops at the end of the file. */
  lemma {:induction false} SuccessiveReads(srv: Reader, file: seq<u8>, unit: nat, offset: nat, counts: seq<nat>)
    requires 0 < unit && Honest(srv, file)
    ensures Reads(srv, unit, offset, counts) == Some(Slice(file, offset, Total(counts)))
    decreases |counts|
  {
    if counts == [] {
      assert Slice(file, offset, 0) == [];
    } else {
      var b := Slice(file, offset, counts[0]);
      SuccessiveReads(srv, file, unit, offset + |b|, counts[1..]);
      ReadsNext(srv, file, unit, offset, counts, b, Total(counts[1..]));
    }
  }

  lemma ReadsNext(srv: Reader, file: seq<u8>, unit: nat, offset: nat, counts: seq<nat>, b: seq<u8>, m: nat)
    requires 0 < unit && Honest(srv, file) && counts != [] && b == Slice(file, offset, counts[0])
    requires Reads(srv, unit, offset + |b|, counts[1..]) == Some(Slice(file, offset + |b|, m))
    ensures Reads(srv, unit, offset, counts) == Some(Slice(file, offset, counts[0] + m))
  {
    var rest := Slice(file, offset + |b|, m);
    assert Reads(srv, unit, offset, counts) == Some(b + rest) by {
      ReadIsSlice(srv, file, 0, unit, offset, counts[0]);
      ReadsUnfold(srv, unit, offset, counts, b, rest);
    }
    assert b + rest == Slice(file, offset, counts[0] + m) by {
      SliceJoin(file, offset, counts[0], m);
    }
  }

  lemma ReadsUnfold(srv: Reader, unit: nat, offset: nat, counts: seq<nat>, b: seq<u8>, rest: seq<u8>)
    requires 0 < unit && counts != [] && Bytes(srv, 0, unit, offset, counts[0]) == Some(b)
    requires Reads(srv, unit, offset + |b|, counts[1..]) == Some(rest)
    ensures Reads(srv, unit, offset, counts) == Some(b + rest)
  {}

  lemma SliceJoin(file: seq<u8>, offset: nat, n: nat, m: nat)
    ensures var b := Slice(file, offset, n); b + Slice(file, offset + |b|, m) == Slice(file, offset, n + m)
  {
    SliceSplit(file, offset, n, m);
  }

  // ---------- writing ----------

  /** The file with d at offset; a gap is filled with zeros. */
  function Overwrite(file: seq<u8>, offset: nat, d: seq<u8>): seq<u8> {
    if d == [] then file
    else seq(if |file| < offset + |d| then offset + |d| else |file|,
             i requires 0 <= i =>
               if offset <= i < offset + |d| then d[i - offset] else if i < |file| then file[i] else 0)
  }

  lemma OverwriteNone(file: seq<u8>, offset: nat)
    ensures Overwrite(file, offset, []) == file
  {}

  lemma OverwriteNext(file: seq<u8>, offset: nat, a: seq<u8>, b: seq<u8>)
    ensures Overwrite(Overwrite(file, offset, a), offset + |a|, b) == Overwrite(file, offset, a + b)
  {
    if a == [] {
      assert a + b == b;
    } else if b == [] {
      assert a + b == a;
    } else {
      var mid := Overwrite(file, offset, a);
      OverwriteBoth(file, mid, Overwrite(mid, offset + |a|, b), offset, a, b);
    }
  }

  lemma OverwriteBoth(file: seq<u8>, mid: seq<u8>, r: seq<u8>, offset: nat, a: seq<u8>, b: seq<u8>)
    requires a != [] && b != []
    requires mid == Overwrite(file, offset, a) && r == Overwrite(mid, offset + |a|, b)
    ensures r == Overwrite(file, offset, a + b)
  {
    OverwriteMeans(file, offset, a);
    OverwriteMeans(mid, offset + |a|, b);
    Twice(file, mid, r, offset, a, b);
    OverwriteMeans(file, offset, a + b);
    OverwrittenOnce(file, offset, a + b, r, Overwrite(file, offset, a + b));
  }

  ghost predicate Overwritten(file: seq<u8>, offset: nat, d: seq<u8>, r: seq<u8>) {
    && |r| == (if |file| < offset + |d| then offset + |d| else |file|)
    && forall i :: 0 <= i < |r| ==>
         r[i] == if offset <= i < offset + |d| then d[i - offset] else if i < |file| then file[i] else 0
  }

  lemma OverwriteMeans(file: seq<u8>, offset: nat, d: seq<u8>)
    requires d != []
    ensures Overwritten(file, offset, d, Overwrite(file, offset, d))
  {
    var r := Overwrite(file, offset, d);
    forall i | 0 <= i < |r|
      ensures r[i] == if offset <= i < offset + |d| then d[i - offset] else if i < |file| then file[i] else 0
    {}
  }

  lemma OverwrittenOnce(file: seq<u8>, offset: nat, d: seq<u8>, r: seq<u8>, r': seq<u8>)
    requires Overwritten(file, offset, d, r) && Overwritten(file, offset, d, r')
    ensures r == r'
  {}

  lemma Twice(file: seq<u8>, mid: seq<u8>, r: seq<u8>, offset: nat, a: seq<u8>, b: seq<u8>)
    requires Overwritten(file, offset, a, mid) && Overwritten(mid, offset + |a|, b, r)
    ensures Overwritten(file, offset, a + b, r)
  {}

  /** A server that takes any number of bytes of a write, at least one, or fails. */
  class Remote {
    var bytes: seq<u8>
    var script: seq<Option<nat>>

    constructor (bytes: seq<u8>, script: seq<Option<nat>>)
      ensures this.bytes == bytes && this.script == script
    {
      this.bytes, this.script := bytes, script;
    }

    method Write(offset: nat, d: seq<u8>) returns (c: Option<nat>)
      modifies this
      ensures c == None ==> bytes == old(bytes)
      ensures c.Some? ==> c.value <= |d| && (d != [] ==> 0 < c.value)
      ensures c.Some? ==> bytes == Overwrite(old(bytes), offset, d[..c.value])
    {
      var turn: Option<nat> := Some(|d|);
      if script != [] {
        turn := script[0];
        script := script[1..];
      }
      c := match turn case None => None case Some(k) => Some(if k + 1 < |d| then k + 1 else |d|);
      if c.Some? {
        bytes := Overwrite(bytes, offset, d[..c.value]);
      }
    }
  }

  lemma WritesApart(file: seq<u8>, offset: nat, a: seq<u8>, b: seq<u8>)
    requires a == [] || b == []
    ensures Overwrite(Overwrite(file, offset, a), offset + 2 * |a|, b) == Overwrite(file, offset, a + b)
  {
    assert a == [] ==> a + b == b;
    assert b == [] ==> a + b == a;
  }

  /** Two successive calls of mixp_write leave their bytes side by side exactly when one of them is
      empty: the second starts as far behind the first as the first is long. */
  lemma WritesExact(offset: nat, a: seq<u8>, b: seq<u8>)
    ensures (forall f :: Overwrite(Overwrite(f, offset, a), offset + 2 * |a|, b) == Overwrite(f, offset, a + b))
            <==> a == [] || b == []
  {
    if a == [] {
      assert a + b == b;
    } else if b == [] {
      assert a + b == a;
    } else {
      assert |Overwrite(Overwrite([], offset, a), offset + 2 * |a|, b)| == offset + 2 * |a| + |b|;
      assert |Overwrite([], offset, a + b)| == offset + |a| + |b|;
    }
  }

  /** mixp_pwrite writes where it was asked to, whatever the file, exactly when that is where the fid's
      own offset is, or nothing is written. */
  lemma PwriteExact(own: nat, asked: nat, d: seq<u8>)
    ensures (forall f :: Overwrite(f, own, d) == Overwrite(f, asked, d)) <==> own == asked || d == []
  {
    if d != [] && own != asked {
      assert |Overwrite([], own, d)| == own + |d| && |Overwrite([], asked, d)| == asked + |d|;
    }
  }

  // ---------- chunks and messages ----------

  /** A full chunk of a write does not fit a message of the largest size: of at most 8175 bytes, those
      of up to 8169 can be packed, and the server receives those of up to 8168. */
  lemma WriteFits(tag: u16, fid: u32, offset: u64, d: seq<u8>)
    requires |d| <= 8175
    ensures EncMsg(118, tag, [V32(fid), V64(offset), VData32(d)]).Some?
    ensures |EncMsg(118, tag, [V32(fid), V64(offset), VData32(d)]).value| <= 8192 <==> |d| <= 8169
    ensures |EncMsg(118, tag, [V32(fid), V64(offset), VData32(d)]).value| < 8192 <==> |d| <= 8168
  {
    EncOne(VData32(d));
    EncCons(V64(offset), [VData32(d)]);
    assert [V64(offset)] + [VData32(d)] == [V64(offset), VData32(d)];
    EncCons(V32(fid), [V64(offset), VData32(d)]);
    assert [V32(fid)] + [V64(offset), VData32(d)] == [V32(fid), V64(offset), VData32(d)];
    assert |Enc(VData32(d)).value| == 4 + |d|;
  }

  lemma EncOne(v: Val)
    requires Countable(v) && Enc(v).Some?
    ensures EncAll([v]) == Some(Enc(v).value)
  {
    assert [v][1..] == [] && Enc(v).value + [] == Enc(v).value;
  }

  lemma EncCons(v: Val, vs: seq<Val>)
    requires Countable(v) && AllCountable(vs) && Enc(v).Some? && EncAll(vs).Some?
    ensures EncAll([v] + vs) == Some(Enc(v).value + EncAll(vs).value)
  {
    assert ([v] + vs)[1..] == vs;
  }

  /** A full chunk of a read does. */
  lemma ReadFits(tag: u16, d: seq<u8>)
    requires |d| <= 8175
    ensures EncMsg(117, tag, [VData32(d)]).Some? && |EncMsg(117, tag, [VData32(d)]).value| < 8192
  {
    EncOne(VData32(d));
    assert |Enc(VData32(d)).value| == 4 + |d|;
  }
}
