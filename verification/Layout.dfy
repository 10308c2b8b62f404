/** The messages of 9P2000 as lists of fields, and whole messages on the wire (libmixp/message.c). */
module Layout {
  import opened Common
  import opened Wire

  const TVERSION := 100
  const RVERSION := 101
  const TAUTH := 102
  const RAUTH := 103
  const TATTACH := 104
  const RATTACH := 105
  const RERROR := 107
  const TFLUSH := 108
  const TWALK := 110
  const RWALK := 111
  const TOPEN := 112
  const ROPEN := 113
  const TCREATE := 114
  const RCREATE := 115
  const TREAD := 116
  const RREAD := 117
  const TWRITE := 118
  const RWRITE := 119
  const TCLUNK := 120
  const RCLUNK := 121
  const TREMOVE := 122
  const TSTAT := 124
  const RSTAT := 125
  const TWSTAT := 126

  /** The fields after size[4] type[1] tag[2], from intro(5) of the Plan 9 manual, section 5. Rflush,
      Rremove, Rwstat and unknown types have none. */
  function Intro5(t: u8): seq<Kind> {
    if t == TVERSION || t == RVERSION then [K32, KStr]
    else if t == TAUTH then [K32, KStr, KStr]
    else if t == RAUTH || t == RATTACH then [KQid]
    else if t == TATTACH then [K32, K32, KStr, KStr]
    else if t == RERROR then [KStr]
    else if t == TFLUSH then [K16]
    else if t == TWALK then [K32, K32, KStrs]
    else if t == RWALK then [KQids]
    else if t == TOPEN then [K32, K8]
    else if t == ROPEN || t == RCREATE then [KQid, KSize]
    else if t == TCREATE then [K32, KStr, K32, K8]
    else if t == TREAD then [K32, K64, KSize]
    else if t == RREAD then [KData32]
    else if t == TWRITE then [K32, K64, KData32]
    else if t == RWRITE then [KSize]
    else if t == TCLUNK || t == TREMOVE || t == TSTAT then [K32]
    else if t == RSTAT then [KData16]
    else if t == TWSTAT then [K32, KData16]
    else []
  }

  /** What libmixp packs and unpacks: intro(5), except that its Rclunk carries the fid. */
  function Fields(t: u8): seq<Kind> {
    if t == RCLUNK then [K32] else Intro5(t)
  }

  predicate AllCountable(vs: seq<Val>) {
    forall v :: v in vs ==> Countable(v)
  }

  function Framed(t: u8, tag: u16, body: seq<u8>): seq<u8> {
    E32((7 + |body|) % 0x1_0000_0000) + [t] + E16(tag) + body
  }

  /** A whole message: size prefix, type, tag, fields. */
  function EncMsg(t: u8, tag: u16, vs: seq<Val>): Option<seq<u8>>
    requires AllCountable(vs)
  {
    match EncAll(vs)
    case None => None
    case Some(body) => Some(Framed(t, tag, body))
  }

  datatype Decoded = Decoded(t: u8, tag: u16, vs: seq<Val>, used: int)

  /** The message at the front of b; the size prefix is skipped, not checked. */
  function DecMsg(b: seq<u8>): Option<Decoded> {
    if |b| < 7 then None
    else
      match ParseAll(Fields(b[4]), b[7..])
      case None => None
      case Some((vs, rest)) => Some(Decoded(b[4], L16(b[5..7]), vs, |b| - |rest|))
  }

  lemma HeaderBack(t: u8, tag: u16, body: seq<u8>)
    ensures var b := Framed(t, tag, body);
            && |b| == 7 + |body| && b[4] == t && L16(b[5..7]) == tag && b[7..] == body
            && L32(b[..4]) == (7 + |body|) % 0x1_0000_0000
  {
    var n: u32 := (7 + |body|) % 0x1_0000_0000;
    var b := E32(n) + [t] + E16(tag) + body;
    assert b[5..7] == E16(tag) && b[..4] == E32(n);
    Load16(tag);
    Load32(n);
  }

  /** The bytes of the header: size, type and tag, least significant byte first. */
  lemma HeaderBytes(t: u8, tag: u16, body: seq<u8>)
    requires 7 + |body| < 0x1_0000_0000
    ensures var b, n := Framed(t, tag, body), 7 + |body|;
            b[..7] == [n % 0x100, n / 0x100 % 0x100, n / 0x1_0000 % 0x100, n / 0x100_0000, t, tag % 0x100, tag / 0x100]
  {
    var n: u32 := 7 + |body|;
    var h := E32(n) + [t] + E16(tag);
    assert Framed(t, tag, body) == h + body;
    assert h == [n % 0x100, n / 0x100 % 0x100, n / 0x1_0000 % 0x100, n / 0x100_0000, t, tag % 0x100, tag / 0x100];
  }

  lemma DecodeAt(b: seq<u8>, t: u8, tag: u16, vs: seq<Val>, rest: seq<u8>)
    requires 7 <= |b| && b[4] == t && L16(b[5..7]) == tag && ParseAll(Fields(t), b[7..]) == Some((vs, rest))
    ensures DecMsg(b) == Some(Decoded(t, tag, vs, |b| - |rest|))
  {}

  lemma PrefixSlices(b: seq<u8>, rest: seq<u8>)
    requires 7 <= |b|
    ensures (b + rest)[4] == b[4] && (b + rest)[5..7] == b[5..7] && (b + rest)[7..] == b[7..] + rest
  {}

  lemma PrefixedBack(b: seq<u8>, t: u8, tag: u16, rest: seq<u8>, vs: seq<Val>)
    requires 7 <= |b| && b[4] == t && L16(b[5..7]) == tag
    requires ParseAll(Fields(t), b[7..] + rest) == Some((vs, rest))
    ensures DecMsg(b + rest) == Some(Decoded(t, tag, vs, |b|))
  {
    PrefixSlices(b, rest);
    DecodeAt(b + rest, t, tag, vs, rest);
  }

  /** Unpacking a packed message, whatever follows it, gives back its type, its tag, its fields up to
      Canon, and its size. */
  lemma MessageBack(t: u8, tag: u16, vs: seq<Val>, body: seq<u8>, rest: seq<u8>)
    requires AllCountable(vs) && Kinds(vs) == Fields(t) && EncAll(vs) == Some(body)
    ensures DecMsg(Framed(t, tag, body) + rest) == Some(Decoded(t, tag, CanonAll(vs), |Framed(t, tag, body)|))
  {
    var b := Framed(t, tag, body);
    assert 7 <= |b| && b[4] == t && L16(b[5..7]) == tag && b[7..] == body by {
      HeaderBack(t, tag, body);
    }
    assert ParseAll(Fields(t), body + rest) == Some((CanonAll(vs), rest)) by {
      ParseAllBack(vs, rest);
    }
    PrefixedBack(b, t, tag, rest, CanonAll(vs));
  }

  /** A message survives packing and unpacking exactly when its strings are NUL-free and shorter than
      65536 bytes, its sizes fit 32 bits and its 64-bit fields are in the domain of the load. */
  lemma RoundTripExact(t: u8, tag: u16, vs: seq<Val>, body: seq<u8>)
    requires AllCountable(vs) && Kinds(vs) == Fields(t) && EncAll(vs) == Some(body)
    ensures var b := Framed(t, tag, body);
            DecMsg(b) == Some(Decoded(t, tag, vs, |b|)) <==> forall v :: v in vs ==> Clean(v)
  {
    var b := Framed(t, tag, body);
    assert b + [] == b;
    MessageBack(t, tag, vs, body, []);
    CanonAllExact(vs);
  }

  lemma {:induction false} EncAllFails(vs: seq<Val>)
    requires AllCountable(vs)
    ensures EncAll(vs).None? <==>
              exists v :: v in vs && ((v.VStrs? && 16 < |v.ss|) || (v.VQids? && 16 < |v.qs|))
  {
    if vs != [] {
      EncAllFails(vs[1..]);
      assert vs == [vs[0]] + vs[1..];
    }
  }

  lemma {:induction false} EncAllConcat(vs: seq<Val>, ws: seq<Val>)
    requires AllCountable(vs) && AllCountable(ws)
    ensures AllCountable(vs + ws)
    ensures EncAll(vs + ws) ==
            if EncAll(vs).Some? && EncAll(ws).Some? then Some(EncAll(vs).value + EncAll(ws).value) else None
  {
    if vs == [] {
      assert vs + ws == ws;
      assert EncAll(ws).Some? ==> [] + EncAll(ws).value == EncAll(ws).value;
    } else {
      assert (vs + ws)[1..] == vs[1..] + ws;
      EncAllConcat(vs[1..], ws);
      if EncAll(vs).Some? && EncAll(ws).Some? {
        var b, bs, cs := Enc(vs[0]).value, EncAll(vs[1..]).value, EncAll(ws).value;
        assert b + (bs + cs) == (b + bs) + cs;
      }
    }
  }

  lemma {:induction false} KindsConcat(vs: seq<Val>, ws: seq<Val>)
    ensures Kinds(vs + ws) == Kinds(vs) + Kinds(ws)
  {
    if vs == [] {
      assert vs + ws == ws;
    } else {
      assert (vs + ws)[1..] == vs[1..] + ws;
      KindsConcat(vs[1..], ws);
    }
  }

  lemma {:induction false} ParseAllConcat(ks: seq<Kind>, ls: seq<Kind>, b: seq<u8>)
    ensures ParseAll(ks + ls, b) ==
            match ParseAll(ks, b)
            case None => None
            case Some((vs, b1)) =>
              match ParseAll(ls, b1)
              case None => None
              case Some((ws, b2)) => Some((vs + ws, b2))
  {
    if ks == [] {
      assert ks + ls == ls;
      assert forall ws: seq<Val> :: [] + ws == ws;
    } else {
      assert (ks + ls)[1..] == ks[1..] + ls;
      match Parse(ks[0], b)
      case None =>
      case Some((v, b1)) =>
        ParseAllConcat(ks[1..], ls, b1);
        match ParseAll(ks[1..], b1)
        case None =>
        case Some((vs, b2)) =>
          match ParseAll(ls, b2)
          case None =>
          case Some((ws, b3)) => assert [v] + (vs + ws) == ([v] + vs) + ws;
    }
  }
}
