/** Framing (libmixp/transport.c): whole messages over a byte stream whose reads and writes may be
    short or interrupted. The stream follows a script that says how each call goes; a script is any
    finite list, after which calls are complete. */
module Transport {
  import opened Common
  import opened Wire
  import opened Layout
  import C = Codec

  /** How a call of read or write goes: up to n+1 bytes, or -1 with EINTR. */
  datatype Io = Chunk(n: nat) | Eintr

  class Stream {
    var bytes: seq<u8>     // written and not yet read
    var script: seq<Io>

    constructor (script: seq<Io>)
      ensures bytes == [] && this.script == script
    {
      this.bytes, this.script := [], script;
    }

    /** How many of n bytes the next call moves; -1 for an interrupted call. */
    method Turn(n: nat) returns (r: int)
      requires 0 < n
      modifies this`script
      ensures |script| <= |old(script)|
      ensures r == -1 ==> |script| < |old(script)|
      ensures r == -1 || 1 <= r <= n
    {
      r := n;
      if script != [] {
        var io := script[0];
        script := script[1..];
        r := match io case Eintr => -1 case Chunk(k) => if k + 1 < n then k + 1 else n;
      }
    }

    method Write(b: seq<u8>) returns (r: int)
      requires b != []
      modifies this
      ensures |script| <= |old(script)|
      ensures (r == -1 && |script| < |old(script)| && bytes == old(bytes))
              || (1 <= r <= |b| && bytes == old(bytes) + b[..r])
    {
      r := Turn(|b|);
      if r > 0 {
        bytes := bytes + b[..r];
      }
    }

    /** 0 at end of file. */
    method Read(n: nat) returns (r: int, b: seq<u8>)
      requires 0 < n
      modifies this
      ensures |script| <= |old(script)|
      ensures if old(bytes) == [] then r == 0 && b == [] && bytes == []
              else (r == -1 && |script| < |old(script)| && bytes == old(bytes))
                   || (1 <= r <= n && r <= |old(bytes)| && b == old(bytes)[..r] && bytes == old(bytes)[r..])
    {
      if bytes == [] {
        return 0, [];
      }
      r := Turn(if n < |bytes| then n else |bytes|);
      b := [];
      if r > 0 {
        b := bytes[..r];
        bytes := bytes[r..];
      }
    }
  }

  /** mixp_sendmsg: all of the message goes out, whatever the short writes and interruptions. */
  method SendMsg(fd: Stream, msg: C.Message) returns (n: nat)
    requires msg.Valid()
    modifies fd, msg`pos
    ensures n == msg.end && fd.bytes == old(fd.bytes) + msg.data[..msg.end]
  {
    msg.pos := 0;
    while msg.pos < msg.end
      invariant msg.pos <= msg.end && fd.bytes == old(fd.bytes) + msg.data[..msg.pos]
      decreases |fd.script| + msg.end - msg.pos
    {
      var r := fd.Write(msg.data[msg.pos..msg.end]);
      if r < 1 {
        continue;
      }
      SentOn(old(fd.bytes), msg.data[..], msg.pos, msg.end, r);
      msg.pos := msg.pos + r;
    }
    n := msg.pos;
  }

  lemma SentOn(sent: seq<u8>, d: seq<u8>, p: nat, end: nat, r: nat)
    requires p <= end <= |d| && r <= end - p
    ensures sent + d[..p] + d[p..end][..r] == sent + d[..p + r]
  {
    assert d[p..end][..r] == d[p..p + r];
    assert d[..p] + d[p..p + r] == d[..p + r];
  }

  /** mread. */
  method MRead(fd: Stream, msg: C.Message, count: nat) returns (r: int)
    requires msg.Valid() && msg.pos < msg.end && 0 < count
    modifies fd, msg`pos, msg.data
    ensures |fd.script| <= |old(fd.script)|
    ensures if old(fd.bytes) == []
            then r == 0 && fd.bytes == [] && msg.pos == old(msg.pos) && msg.data[..] == old(msg.data[..])
            else (r == -1 && |fd.script| < |old(fd.script)| && fd.bytes == old(fd.bytes)
                  && msg.pos == old(msg.pos) && msg.data[..] == old(msg.data[..]))
                 || (1 <= r <= count && r <= |old(fd.bytes)| && msg.pos == old(msg.pos) + r <= msg.end
                     && fd.bytes == old(fd.bytes)[r..] && msg.data[old(msg.pos)..msg.pos] == old(fd.bytes)[..r]
                     && msg.data[..old(msg.pos)] == old(msg.data[..msg.pos]))
  {
    var n := msg.end - msg.pos;
    if n > count {
      n := count;
    }
    var b: seq<u8>;
    r, b := fd.Read(n);
    if r > 0 {
      Fill(msg.data, msg.pos, b);
      msg.pos := msg.pos + r;
    }
  }

  method Fill(data: array<u8>, at: nat, b: seq<u8>)
    requires at + |b| <= data.Length
    modifies data
    ensures data[at..at + |b|] == b && data[..at] == old(data[..at])
  {
    forall i | 0 <= i < |b| {
      data[at + i] := b[i];
    }
  }

  /** readn: count bytes, or as many as there are before the end of file. */
  method ReadN(fd: Stream, msg: C.Message, count: nat) returns (got: nat)
    requires msg.Valid() && msg.pos + count <= msg.end
    modifies fd, msg`pos, msg.data
    ensures got == (if count <= |old(fd.bytes)| then count else |old(fd.bytes)|)
    ensures msg.pos == old(msg.pos) + got && fd.bytes == old(fd.bytes)[got..]
    ensures msg.data[old(msg.pos)..msg.pos] == old(fd.bytes)[..got]
    ensures msg.data[..old(msg.pos)] == old(msg.data[..msg.pos])
  {
    var num := count;
    ghost var p0, b0 := msg.pos, fd.bytes;
    while num > 0
      invariant 0 <= num <= count && msg.pos == p0 + (count - num) && count - num <= |b0|
      invariant fd.bytes == b0[count - num..] && msg.data[p0..msg.pos] == b0[..count - num]
      invariant msg.data[..p0] == old(msg.data[..msg.pos])
      decreases |fd.script| + num
    {
      ghost var p1, b1, d1 := msg.pos, fd.bytes, msg.data[..];
      var r := MRead(fd, msg, num);
      if r == -1 {
        continue;
      }
      if r == 0 {
        return count - num;
      }
      Grown(d1, msg.data[..], b0, p0, p1, count - num, r);
      num := num - r;
    }
    got := count - num;
  }

  lemma Grown(d1: seq<u8>, d2: seq<u8>, b0: seq<u8>, p0: nat, p1: nat, k: nat, r: nat)
    requires p0 <= p1 && p1 == p0 + k && p1 + r <= |d1| == |d2| && k + r <= |b0|
    requires d1[p0..p1] == b0[..k] && d2[..p1] == d1[..p1] && d2[p1..p1 + r] == b0[k..][..r]
    ensures d2[p0..p1 + r] == b0[..k + r] && d2[..p0] == d1[..p0] && b0[k..][r..] == b0[k + r..]
  {
    assert d2[p0..p1] == d2[..p1][p0..] && d1[p0..p1] == d1[..p1][p0..];
    assert d2[p0..p1 + r] == d2[p0..p1] + d2[p1..p1 + r];
    assert d2[..p0] == d2[..p1][..p0] && d1[..p0] == d1[..p1][..p0];
  }

  /** The frame at the front of the stream that a buffer of n bytes can receive. */
  function Frame(b: seq<u8>, n: nat): Option<nat> {
    if |b| < 4 || L32(b[..4]) < 4 || n <= L32(b[..4]) || |b| < L32(b[..4]) then None
    else Some(L32(b[..4]))
  }

  /** mixp_recvmsg: the next message, and nothing of what follows it. It fails exactly when the
      prefix is cut off, is below 4 or not below the size of the buffer, or the message is cut off. */
  method RecvMsg(fd: Stream, msg: C.Message) returns (msize: nat)
    requires 4 <= msg.data.Length < 0x1_0000_0000
    modifies fd, msg`pos, msg`end, msg`mode, msg.data
    ensures match Frame(old(fd.bytes), msg.data.Length)
            case None => msize == 0
            case Some(n) =>
              && msize == n == msg.end && msg.Valid() && msg.data[..n] == old(fd.bytes)[..n]
              && fd.bytes == old(fd.bytes)[n..]
  {
    msg.mode := C.MsgUnpack;
    msg.pos := 0;
    msg.end := msg.data.Length;
    ghost var b := fd.bytes;
    var got := ReadN(fd, msg, 4);
    if got != 4 {
      return 0;
    }
    msg.pos := 0;
    var prefix := msg.Load32();
    assert prefix == L32(b[..4]) by {
      assert msg.data[0..4] == b[..4];
    }
    var size: nat := ((prefix as int) - 4) % 0x1_0000_0000;
    if msg.pos + size >= msg.end {
      return 0;
    }
    got := ReadN(fd, msg, size);
    if got != size {
      return 0;
    }
    msg.end := msg.pos;
    msize := prefix;
    PrefixAndRest(msg.data[..], b, size);
  }

  lemma PrefixAndRest(d: seq<u8>, b: seq<u8>, size: nat)
    requires 4 + size <= |d| && 4 + size <= |b| && d[..4] == b[..4] && d[4..4 + size] == b[4..][..size]
    ensures d[..4 + size] == b[..4 + size] && b[4..][size..] == b[4 + size..]
  {
    assert d[..4 + size] == d[..4] + d[4..4 + size];
    assert b[..4 + size] == b[..4] + b[4..][..size];
  }

  // ---------- sequences of messages ----------

  /** A message that is prefixed with its own size, which the buffer exceeds. */
  predicate Framable(f: seq<u8>, n: nat) {
    4 <= |f| < n && L32(f[..4]) == |f|
  }

  function Concat(fs: seq<seq<u8>>): seq<u8> {
    if fs == [] then [] else fs[0] + Concat(fs[1..])
  }

  /** What repeated calls of mixp_recvmsg return until one fails. */
  function Received(b: seq<u8>, n: nat): seq<seq<u8>>
    decreases |b|
  {
    match Frame(b, n)
    case None => []
    case Some(k) => [b[..k]] + Received(b[k..], n)
  }

  lemma FrameOf(f: seq<u8>, rest: seq<u8>, n: nat)
    requires Framable(f, n)
    ensures Frame(f + rest, n) == Some(|f|) && (f + rest)[..|f|] == f && (f + rest)[|f|..] == rest
  {
    assert (f + rest)[..4] == f[..4];
  }

  /** Framing: a sequence of messages sent comes back as the same sequence. */
  lemma {:induction false} FramingExact(fs: seq<seq<u8>>, n: nat)
    requires forall f :: f in fs ==> Framable(f, n)
    ensures Received(Concat(fs), n) == fs
  {
    if fs != [] {
      FrameOf(fs[0], Concat(fs[1..]), n);
      FramingExact(fs[1..], n);
    }
  }

  /** Packed messages are framable, except for one exactly as large as the receiver's buffer. */
  lemma PackedIsFramable(t: u8, tag: u16, body: seq<u8>, n: nat)
    requires |Framed(t, tag, body)| <= n < 0x1_0000_0000
    ensures Framable(Framed(t, tag, body), n) <==> |Framed(t, tag, body)| < n
  {
    var f := Framed(t, tag, body);
    assert |f| == 7 + |body| && L32(f[..4]) == (7 + |body|) % 0x1_0000_0000 by {
      HeaderBack(t, tag, body);
    }
    if |f| < n {
      SmallMod(|f|, 0x1_0000_0000);
    }
  }

  lemma SmallMod(x: nat, m: nat)
    requires x < m
    ensures x % m == x
  {}

  lemma {:induction false} ConcatSnoc(fs: seq<seq<u8>>, f: seq<u8>)
    ensures Concat(fs + [f]) == Concat(fs) + f
  {
    if fs == [] {
      assert [f][1..] == [] && f + [] == f && [] + [f] == [f] && [] + f == f;
    } else {
      assert (fs + [f])[1..] == fs[1..] + [f];
      ConcatSnoc(fs[1..], f);
      assert fs[0] + (Concat(fs[1..]) + f) == fs[0] + Concat(fs[1..]) + f;
    }
  }

  /** Messages sent one after the other with mixp_sendmsg. */
  method SendAll(fd: Stream, msg: C.Message, fs: seq<seq<u8>>)
    requires forall f :: f in fs ==> Framable(f, msg.data.Length)
    modifies fd, msg`pos, msg`end, msg.data
    ensures fd.bytes == old(fd.bytes) + Concat(fs)
  {
    var i := 0;
    assert Concat(fs[..0]) == [];
    while i < |fs|
      invariant 0 <= i <= |fs| && fd.bytes == old(fd.bytes) + Concat(fs[..i])
    {
      assert fs[i] in fs;
      SendOne(fd, msg, fs[i]);
      assert fs[..i + 1] == fs[..i] + [fs[i]];
      ConcatSnoc(fs[..i], fs[i]);
      i := i + 1;
    }
    assert fs[..i] == fs;
  }

  method SendOne(fd: Stream, msg: C.Message, f: seq<u8>)
    requires |f| <= msg.data.Length
    modifies fd, msg`pos, msg`end, msg.data
    ensures fd.bytes == old(fd.bytes) + f
  {
    Fill(msg.data, 0, f);
    msg.pos, msg.end := 0, |f|;
    assert msg.data[..msg.end] == f;
    var _ := SendMsg(fd, msg);
  }

  /** What comes out of mixp_recvmsg called until it fails. */
  method ReceiveAll(fd: Stream, msg: C.Message) returns (fs: seq<seq<u8>>)
    requires 4 <= msg.data.Length < 0x1_0000_0000
    modifies fd, msg`pos, msg`end, msg`mode, msg.data
    ensures fs == Received(old(fd.bytes), msg.data.Length)
  {
    fs := [];
    ghost var b := fd.bytes;
    while true
      invariant Received(b, msg.data.Length) == fs + Received(fd.bytes, msg.data.Length)
      decreases |fd.bytes|
    {
      ghost var b0 := fd.bytes;
      var n := RecvMsg(fd, msg);
      if n == 0 {
        return;
      }
      assert [b0[..n]] + Received(b0[n..], msg.data.Length) == Received(b0, msg.data.Length);
      fs := fs + [msg.data[..n]];
    }
  }

  /** Framing under any fragmentation: whatever the two scripts, the list sent is the list received. */
  method Relay(sending: seq<Io>, receiving: seq<Io>, out: C.Message, into: C.Message, fs: seq<seq<u8>>)
    returns (got: seq<seq<u8>>)
    requires out != into && out.data != into.data && 4 <= into.data.Length < 0x1_0000_0000
    requires into.data.Length <= out.data.Length && forall f :: f in fs ==> Framable(f, into.data.Length)
    modifies out, out.data, into, into.data
    ensures got == fs
  {
    var fd := new Stream(sending);
    SendAll(fd, out, fs);
    assert [] + Concat(fs) == Concat(fs);
    fd.script := receiving;
    got := ReceiveAll(fd, into);
    FramingExact(fs, into.data.Length);
  }

  lemma ConcatPrefix(fs: seq<seq<u8>>, g: nat, s: nat)
    requires g < s <= |fs|
    ensures Concat(fs[g..s]) == fs[g] + Concat(fs[g + 1..s])
  {
    assert fs[g..s][0] == fs[g] && fs[g..s][1..] == fs[g + 1..s];
  }

  lemma ConcatLonger(fs: seq<seq<u8>>, g: nat, s: nat)
    requires g <= s < |fs|
    ensures Concat(fs[g..s + 1]) == Concat(fs[g..s]) + fs[s]
  {
    assert fs[g..s + 1] == fs[g..s] + [fs[s]];
    ConcatSnoc(fs[g..s], fs[s]);
  }

  /** The next message of those under way. */
  method ReceiveNext(fd: Stream, msg: C.Message, ghost f: seq<u8>, ghost rest: seq<u8>) returns (got: seq<u8>)
    requires 4 <= msg.data.Length < 0x1_0000_0000 && Framable(f, msg.data.Length) && fd.bytes == f + rest
    modifies fd, msg`pos, msg`end, msg`mode, msg.data
    ensures got == f && fd.bytes == rest
  {
    FrameOf(f, rest, msg.data.Length);
    var n := RecvMsg(fd, msg);
    got := msg.data[..n];
  }

  /** Framing with both ends at work on one stream: turns says who goes on, and a receiver that nothing is
      under way for waits. Whatever the turns and the script, what was received is at any time the first
      part of what was sent, and in the end all of it. */
  method Exchange(script: seq<Io>, turns: seq<bool>, out: C.Message, into: C.Message, fs: seq<seq<u8>>)
    returns (got: seq<seq<u8>>)
    requires out != into && out.data != into.data && 4 <= into.data.Length < 0x1_0000_0000
    requires into.data.Length <= out.data.Length && forall f :: f in fs ==> Framable(f, into.data.Length)
    modifies out, out.data, into, into.data
    ensures got == fs
  {
    var fd := new Stream(script);
    var k, s, g := 0, 0, 0;
    got := [];
    while k < |turns| || s < |fs| || g < s
      invariant k <= |turns| && g <= s <= |fs| && fd.bytes == Concat(fs[g..s]) && got == fs[..g]
      decreases |turns| - k + 2 * |fs| - s - g
    {
      if s < |fs| && (|turns| <= k || turns[k]) {
        assert fs[s] in fs;
        ConcatLonger(fs, g, s);
        SendOne(fd, out, fs[s]);
        s := s + 1;
      } else if g < s {
        assert fs[g] in fs;
        ConcatPrefix(fs, g, s);
        var f := ReceiveNext(fd, into, fs[g], Concat(fs[g + 1..s]));
        got := got + [f];
        g := g + 1;
      }
      k := if k < |turns| then k + 1 else k;
    }
  }

  /** Pack, send, receive, unpack: the message that arrives is the one that was sent, up to Canon. */
  lemma WireRoundTrip(t: u8, tag: u16, vs: seq<Val>, body: seq<u8>, rest: seq<u8>, n: nat)
    requires AllCountable(vs) && Kinds(vs) == Fields(t) && EncAll(vs) == Some(body)
    requires |Framed(t, tag, body)| < n < 0x1_0000_0000
    ensures var b := Framed(t, tag, body) + rest;
            && Frame(b, n) == Some(|Framed(t, tag, body)|)
            && DecMsg(b[..|Framed(t, tag, body)|]) == Some(Decoded(t, tag, CanonAll(vs), |Framed(t, tag, body)|))
            && b[|Framed(t, tag, body)|..] == rest
  {
    var f := Framed(t, tag, body);
    PackedIsFramable(t, tag, body, n);
    FrameOf(f, rest, n);
    assert f + [] == f;
    MessageBack(t, tag, vs, body, []);
  }
}
