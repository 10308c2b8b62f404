/** The wire format of 9P2000 messages as libmixp packs and unpacks them (libmixp/convert.c,
    libmixp/message.c), as functions on byte sequences: one encoder and one parser per kind of
    field, and the layout of each message as the list of its fields. */
module Wire {
  import opened Common

  type u8 = x: int | 0 <= x < 0x100
  type u16 = x: int | 0 <= x < 0x1_0000
  type u32 = x: int | 0 <= x < 0x1_0000_0000
  type u64 = x: int | 0 <= x < 0x1_0000_0000_0000_0000

  const MAX_WELEM := 16

  datatype Qid = Qid(typ: u8, version: u32, path: u64)

  datatype Kind = K8 | K16 | K32 | K64 | KSize | KStr | KStrs | KQid | KQids | KData32 | KData16

  datatype Val =
    | V8(b: u8) | V16(h: u16) | V32(w: u32) | V64(g: u64)
    | VSize(n: u64)                 // a size_t, sent as 32 bits
    | VStr(s: seq<u8>)              // a C string: what counts is the part before the first NUL
    | VStrs(ss: seq<seq<u8>>)       // a 16-bit count and that many strings
    | VQid(q: Qid)
    | VQids(qs: seq<Qid>)           // a 16-bit count and that many qids
    | VData32(d: seq<u8>)           // a size_t count, sent as 32 bits, and that many bytes
    | VData16(d: seq<u8>)           // a 16-bit count and that many bytes

  function KindOf(v: Val): Kind {
    match v
    case V8(_) => K8 case V16(_) => K16 case V32(_) => K32 case V64(_) => K64 case VSize(_) => KSize
    case VStr(_) => KStr case VStrs(_) => KStrs case VQid(_) => KQid case VQids(_) => KQids
    case VData32(_) => KData32 case VData16(_) => KData16
  }

  function Kinds(vs: seq<Val>): (ks: seq<Kind>)
    ensures |ks| == |vs|
  {
    if vs == [] then [] else [KindOf(vs[0])] + Kinds(vs[1..])
  }

  /** Counts that the C struct holds in 16 bits. */
  predicate Countable(v: Val) {
    (v.VStrs? ==> |v.ss| < 0x1_0000) && (v.VQids? ==> |v.qs| < 0x1_0000) && (v.VData16? ==> |v.d| < 0x1_0000)
  }

  // ---------- integers ----------

  function E16(v: u16): seq<u8> {
    [v % 0x100, v / 0x100]
  }

  function E32(v: u32): seq<u8> {
    [v % 0x100, v / 0x100 % 0x100, v / 0x1_0000 % 0x100, v / 0x100_0000]
  }

  function E64(v: u64): seq<u8> {
    E32(v % 0x1_0000_0000) + E32(v / 0x1_0000_0000)
  }

  function Word(a: int, b: int, c: int, d: int): int {
    a + 0x100 * b + 0x1_0000 * c + 0x100_0000 * d
  }

  function L16(b: seq<u8>): u16
    requires |b| == 2
  {
    Word(b[0], b[1], 0, 0)
  }

  function L32(b: seq<u8>): u32
    requires |b| == 4
  {
    Word(b[0], b[1], b[2], b[3])
  }

  /** The sum in mixp_pu64_load: buf[3]<<24 is an int, so it is negative from 128 on and sign
      extended; buf[7] is shifted by 52 and not by 56. Taken modulo 2^64. */
  function L64(b: seq<u8>): u64
    requires |b| == 8
  {
    Sum64(b[0], b[1], b[2], b[3], b[4], b[5], b[6], b[7]) % 0x1_0000_0000_0000_0000
  }

  function Sum64(b0: int, b1: int, b2: int, b3: int, b4: int, b5: int, b6: int, b7: int): int {
    Word(b0, b1, b2, if b3 < 0x80 then b3 else b3 - 0x100)
    + 0x1_0000_0000 * (Word(b4, b5, b6, 0) + 0x10_0000 * b7)
  }

  /** The values that mixp_pu64_load gets back: below 2^56 and with bit 31 clear. */
  predicate Loadable64(v: u64) {
    v < 0x100_0000_0000_0000 && v / 0x8000_0000 % 2 == 0
  }

  lemma Load16(v: u16)
    ensures L16(E16(v)) == v
  {}

  /** The middle digits of a number in base 256. */
  lemma Digits(v: int)
    requires 0 <= v
    ensures v / 0x100 % 0x100 == v % 0x1_0000 / 0x100
    ensures v / 0x1_0000 % 0x100 == v % 0x100_0000 / 0x1_0000
  {
    var q, r := v / 0x1_0000, v % 0x1_0000;
    assert v == 0x1_0000 * q + r;
    assert v / 0x100 == 0x100 * q + r / 0x100;
    var q3, r3 := v / 0x100_0000, v % 0x100_0000;
    assert v == 0x100_0000 * q3 + r3;
    assert v / 0x1_0000 == 0x100 * q3 + r3 / 0x1_0000;
  }

  lemma DigitSum(v: int)
    requires 0 <= v
    ensures Word(v % 0x100, v / 0x100 % 0x100, v / 0x1_0000 % 0x100, v / 0x100_0000) == v
  {
    Digits(v);
    var r3 := v % 0x100_0000;
    var r2 := v % 0x1_0000;
    assert v == 0x100_0000 * (v / 0x100_0000) + r3;
    assert r3 % 0x1_0000 == r2;
    assert r3 == 0x1_0000 * (r3 / 0x1_0000) + r2;
    assert r2 % 0x100 == v % 0x100;
    assert r2 == 0x100 * (r2 / 0x100) + v % 0x100;
  }

  lemma Load32(v: u32)
    ensures L32(E32(v)) == v
  {
    DigitSum(v);
  }

  /** The top byte and bit 31 of a 64-bit value, in its two halves. */
  lemma Halves(v: int)
    requires 0 <= v < 0x1_0000_0000_0000_0000
    ensures var lo, hi := v % 0x1_0000_0000, v / 0x1_0000_0000;
            && v == 0x1_0000_0000 * hi + lo && 0 <= hi < 0x1_0000_0000
            && v / 0x100_0000_0000_0000 == hi / 0x100_0000
            && v / 0x8000_0000 % 2 == lo / 0x8000_0000 == (if lo / 0x100_0000 < 0x80 then 0 else 1)
  {
    var lo, hi := v % 0x1_0000_0000, v / 0x1_0000_0000;
    assert v == 0x1_0000_0000 * hi + lo;
    assert v / 0x8000_0000 == 2 * hi + lo / 0x8000_0000;
    var q, r := hi / 0x100_0000, hi % 0x100_0000;
    assert hi == 0x100_0000 * q + r;
    assert v == 0x100_0000_0000_0000 * q + (0x1_0000_0000 * r + lo);
  }

  /** By how much the load misses a stored value: by its bit 31 and by its top byte. */
  function LoadError(v: int): int {
    0x1_0000_0000 * (v / 0x8000_0000 % 2) + 0xF0_0000_0000_0000 * (v / 0x100_0000_0000_0000)
  }

  lemma SumOfDigits(v: int)
    requires 0 <= v < 0x1_0000_0000_0000_0000
    ensures var lo, hi := v % 0x1_0000_0000, v / 0x1_0000_0000;
            Sum64(lo % 0x100, lo / 0x100 % 0x100, lo / 0x1_0000 % 0x100, lo / 0x100_0000,
                  hi % 0x100, hi / 0x100 % 0x100, hi / 0x1_0000 % 0x100, hi / 0x100_0000) == v - LoadError(v)
  {
    var lo, hi := v % 0x1_0000_0000, v / 0x1_0000_0000;
    Halves(v);
    DigitSum(lo);
    DigitSum(hi);
  }

  lemma StoredDigits(v: u64)
    ensures var lo: int, hi: int := v % 0x1_0000_0000, v / 0x1_0000_0000;
            E64(v) == [lo % 0x100, lo / 0x100 % 0x100, lo / 0x1_0000 % 0x100, lo / 0x100_0000,
                       hi % 0x100, hi / 0x100 % 0x100, hi / 0x1_0000 % 0x100, hi / 0x100_0000]
  {}

  /** What loading a stored 64-bit value gives. */
  lemma Load64Value(v: u64)
    ensures L64(E64(v)) == (v - LoadError(v)) % 0x1_0000_0000_0000_0000
  {
    SumOfDigits(v);
    StoredDigits(v);
  }

  lemma ErrorBounds(v: int)
    requires 0 <= v < 0x1_0000_0000_0000_0000
    ensures 0 <= LoadError(v) < 0x1_0000_0000_0000_0000
    ensures LoadError(v) == 0 <==> v < 0x100_0000_0000_0000 && v / 0x8000_0000 % 2 == 0
  {}

  lemma ModuloExact(v: int, err: int, m: int)
    requires 0 <= v < m && 0 <= err < m
    ensures (v - err) % m == v <==> err == 0
  {
    if err <= v {
      SmallModulo(v - err, m);
    } else {
      SmallModulo(v - err + m, m);
      assert (v - err) % m == (v - err + m) % m;
    }
  }

  lemma SmallModulo(x: int, m: int)
    requires 0 <= x < m
    ensures x % m == x && (x - m) % m == x
  {}

  /** Load inverts store exactly on the values below 2^56 with bit 31 clear. */
  lemma Load64Exact(v: u64)
    ensures L64(E64(v)) == v <==> Loadable64(v)
  {
    Load64Value(v);
    ErrorBounds(v);
    ModuloExact(v, LoadError(v), 0x1_0000_0000_0000_0000);
  }

  // ---------- the fields ----------

  function Strlen(s: seq<u8>): (n: nat)
    ensures n <= |s| && (n < |s| ==> s[n] == 0) && forall i :: 0 <= i < n ==> s[i] != 0
  {
    if s == [] || s[0] == 0 then 0 else 1 + Strlen(s[1..])
  }

  /** What mixp_pstring sends of a string: its length is cut to 16 bits. */
  function Sent(s: seq<u8>): seq<u8> {
    s[..Strlen(s) % 0x1_0000]
  }

  function EStr(s: seq<u8>): seq<u8> {
    E16(|Sent(s)|) + Sent(s)
  }

  function EStrs(ss: seq<seq<u8>>): seq<u8> {
    if ss == [] then [] else EStr(ss[0]) + EStrs(ss[1..])
  }

  function EQid(q: Qid): seq<u8> {
    [q.typ] + E32(q.version) + E64(q.path)
  }

  function EQids(qs: seq<Qid>): seq<u8> {
    if qs == [] then [] else EQid(qs[0]) + EQids(qs[1..])
  }

  /** More than 16 names or qids cannot be packed. */
  function Enc(v: Val): Option<seq<u8>>
    requires Countable(v)
  {
    match v
    case V8(b) => Some([b])
    case V16(h) => Some(E16(h))
    case V32(w) => Some(E32(w))
    case V64(g) => Some(E64(g))
    case VSize(n) => Some(E32(n % 0x1_0000_0000))
    case VStr(s) => Some(EStr(s))
    case VStrs(ss) => if |ss| <= MAX_WELEM then Some(E16(|ss|) + EStrs(ss)) else None
    case VQid(q) => Some(EQid(q))
    case VQids(qs) => if |qs| <= MAX_WELEM then Some(E16(|qs|) + EQids(qs)) else None
    case VData32(d) => Some(E32(|d| % 0x1_0000_0000) + d[..|d| % 0x1_0000_0000])
    case VData16(d) => Some(E16(|d|) + d)
  }

  function EncAll(vs: seq<Val>): Option<seq<u8>>
    requires forall v :: v in vs ==> Countable(v)
  {
    if vs == [] then Some([])
    else
      match (Enc(vs[0]), EncAll(vs[1..]))
      case (Some(b), Some(bs)) => Some(b + bs)
      case _ => None
  }

  /** n bytes off the front of b. */
  function Take(b: seq<u8>, n: nat): Option<(seq<u8>, seq<u8>)> {
    if n <= |b| then Some((b[..n], b[n..])) else None
  }

  function PStr(b: seq<u8>): Option<(seq<u8>, seq<u8>)> {
    if |b| < 2 then None else Take(b[2..], L16(b[..2]))
  }

  function PStrs(b: seq<u8>, n: nat): (r: Option<(seq<seq<u8>>, seq<u8>)>)
    ensures r.Some? ==> |r.value.0| == n
  {
    if n == 0 then Some(([], b))
    else
      match PStr(b)
      case None => None
      case Some((s, b1)) =>
        match PStrs(b1, n - 1)
        case None => None
        case Some((ss, b2)) => Some(([s] + ss, b2))
  }

  function PStrsCounted(b: seq<u8>): (r: Option<(seq<seq<u8>>, seq<u8>)>)
    ensures r.Some? ==> |r.value.0| <= MAX_WELEM
  {
    if |b| < 2 || MAX_WELEM < L16(b[..2]) then None else PStrs(b[2..], L16(b[..2]))
  }

  function PQid(b: seq<u8>): Option<(Qid, seq<u8>)> {
    if |b| < 13 then None else Some((Qid(b[0], L32(b[1..5]), L64(b[5..13])), b[13..]))
  }

  function PQids(b: seq<u8>, n: nat): (r: Option<(seq<Qid>, seq<u8>)>)
    ensures r.Some? ==> |r.value.0| == n
  {
    if n == 0 then Some(([], b))
    else
      match PQid(b)
      case None => None
      case Some((q, b1)) =>
        match PQids(b1, n - 1)
        case None => None
        case Some((qs, b2)) => Some(([q] + qs, b2))
  }

  function PQidsCounted(b: seq<u8>): (r: Option<(seq<Qid>, seq<u8>)>)
    ensures r.Some? ==> |r.value.0| <= MAX_WELEM
  {
    if |b| < 2 || MAX_WELEM < L16(b[..2]) then None else PQids(b[2..], L16(b[..2]))
  }

  /** The field of kind k at the front of b, and the rest. */
  function Parse(k: Kind, b: seq<u8>): (r: Option<(Val, seq<u8>)>)
    ensures r.Some? ==> KindOf(r.value.0) == k && Countable(r.value.0)
  {
    match k
    case K8 => if |b| < 1 then None else Some((V8(b[0]), b[1..]))
    case K16 => if |b| < 2 then None else Some((V16(L16(b[..2])), b[2..]))
    case K32 => if |b| < 4 then None else Some((V32(L32(b[..4])), b[4..]))
    case K64 => if |b| < 8 then None else Some((V64(L64(b[..8])), b[8..]))
    case KSize => if |b| < 4 then None else Some((VSize(L32(b[..4])), b[4..]))
    case KStr => (match PStr(b) case None => None case Some((s, b')) => Some((VStr(s), b')))
    case KStrs =>
      (match PStrsCounted(b) case None => None case Some((ss, b')) => Some((VStrs(ss), b')))
    case KQid => (match PQid(b) case None => None case Some((q, b')) => Some((VQid(q), b')))
    case KQids =>
      (match PQidsCounted(b) case None => None case Some((qs, b')) => Some((VQids(qs), b')))
    case KData32 =>
      if |b| < 4 then None
      else (match Take(b[4..], L32(b[..4])) case None => None case Some((d, b')) => Some((VData32(d), b')))
    case KData16 =>
      if |b| < 2 then None
      else (match Take(b[2..], L16(b[..2])) case None => None case Some((d, b')) => Some((VData16(d), b')))
  }

  function ParseAll(ks: seq<Kind>, b: seq<u8>): (r: Option<(seq<Val>, seq<u8>)>)
    ensures r.Some? ==> Kinds(r.value.0) == ks && forall v :: v in r.value.0 ==> Countable(v)
  {
    if ks == [] then Some(([], b))
    else
      match Parse(ks[0], b)
      case None => None
      case Some((v, b1)) =>
        match ParseAll(ks[1..], b1)
        case None => None
        case Some((vs, b2)) => Some(([v] + vs, b2))
  }

  // ---------- what survives a round trip ----------

  function CanonQid(q: Qid): Qid {
    q.(path := L64(E64(q.path)))
  }

  function CanonStrs(ss: seq<seq<u8>>): (r: seq<seq<u8>>)
    ensures |r| == |ss|
  {
    if ss == [] then [] else [Sent(ss[0])] + CanonStrs(ss[1..])
  }

  function CanonQids(qs: seq<Qid>): (r: seq<Qid>)
    ensures |r| == |qs|
  {
    if qs == [] then [] else [CanonQid(qs[0])] + CanonQids(qs[1..])
  }

  function Canon(v: Val): Val {
    match v
    case V64(g) => V64(L64(E64(g)))
    case VSize(n) => VSize(n % 0x1_0000_0000)
    case VStr(s) => VStr(Sent(s))
    case VStrs(ss) => VStrs(CanonStrs(ss))
    case VQid(q) => VQid(CanonQid(q))
    case VQids(qs) => VQids(CanonQids(qs))
    case VData32(d) => VData32(d[..|d| % 0x1_0000_0000])
    case _ => v
  }

  function CanonAll(vs: seq<Val>): (r: seq<Val>)
    ensures |r| == |vs|
  {
    if vs == [] then [] else [Canon(vs[0])] + CanonAll(vs[1..])
  }

  predicate CleanStr(s: seq<u8>) {
    0 !in s && |s| < 0x1_0000
  }

  /** NUL-free strings under 65536 bytes, 32-bit sizes and counts, 64-bit fields in the domain of
      the load. */
  predicate Clean(v: Val) {
    match v
    case V64(g) => Loadable64(g)
    case VSize(n) => n < 0x1_0000_0000
    case VStr(s) => CleanStr(s)
    case VStrs(ss) => forall s :: s in ss ==> CleanStr(s)
    case VQid(q) => Loadable64(q.path)
    case VQids(qs) => forall q :: q in qs ==> Loadable64(q.path)
    case VData32(d) => |d| < 0x1_0000_0000
    case _ => true
  }

  lemma SentExact(s: seq<u8>)
    ensures Sent(s) == s <==> CleanStr(s)
  {
    if Sent(s) == s {
      assert |s| == Strlen(s) % 0x1_0000;
      assert |s| == Strlen(s);
    }
  }

  lemma {:induction false} CanonStrsExact(ss: seq<seq<u8>>)
    ensures CanonStrs(ss) == ss <==> forall s :: s in ss ==> CleanStr(s)
  {
    if ss != [] {
      SentExact(ss[0]);
      CanonStrsExact(ss[1..]);
      assert ss == [ss[0]] + ss[1..];
    }
  }

  lemma {:induction false} CanonQidsExact(qs: seq<Qid>)
    ensures CanonQids(qs) == qs <==> forall q :: q in qs ==> Loadable64(q.path)
  {
    if qs != [] {
      Load64Exact(qs[0].path);
      CanonQidsExact(qs[1..]);
      assert qs == [qs[0]] + qs[1..];
    }
  }

  lemma CanonExact(v: Val)
    ensures Canon(v) == v <==> Clean(v)
  {
    match v
    case V64(g) => Load64Exact(g);
    case VStr(s) => SentExact(s);
    case VStrs(ss) => CanonStrsExact(ss);
    case VQid(q) => Load64Exact(q.path);
    case VQids(qs) => CanonQidsExact(qs);
    case _ =>
  }

  lemma PStrBack(s: seq<u8>, rest: seq<u8>)
    ensures PStr(EStr(s) + rest) == Some((Sent(s), rest))
  {
    var b := EStr(s) + rest;
    assert b[..2] == E16(|Sent(s)|) && b[2..] == Sent(s) + rest;
    Load16(|Sent(s)|);
  }

  lemma {:induction false} PStrsBack(ss: seq<seq<u8>>, rest: seq<u8>)
    ensures PStrs(EStrs(ss) + rest, |ss|) == Some((CanonStrs(ss), rest))
  {
    if ss == [] {
      assert EStrs(ss) + rest == rest;
    } else {
      assert EStrs(ss) + rest == EStr(ss[0]) + (EStrs(ss[1..]) + rest);
      PStrBack(ss[0], EStrs(ss[1..]) + rest);
      PStrsBack(ss[1..], rest);
    }
  }

  lemma PQidBack(q: Qid, rest: seq<u8>)
    ensures PQid(EQid(q) + rest) == Some((CanonQid(q), rest))
  {
    var b := EQid(q) + rest;
    assert b[1..5] == E32(q.version) && b[5..13] == E64(q.path) && b[13..] == rest;
    Load32(q.version);
  }

  lemma {:induction false} PQidsBack(qs: seq<Qid>, rest: seq<u8>)
    ensures PQids(EQids(qs) + rest, |qs|) == Some((CanonQids(qs), rest))
  {
    if qs == [] {
      assert EQids(qs) + rest == rest;
    } else {
      assert EQids(qs) + rest == EQid(qs[0]) + (EQids(qs[1..]) + rest);
      PQidBack(qs[0], EQids(qs[1..]) + rest);
      PQidsBack(qs[1..], rest);
    }
  }

  lemma CountAt(n: u16, body: seq<u8>, rest: seq<u8>)
    ensures var b := E16(n) + body + rest; |b| >= 2 && L16(b[..2]) == n && b[2..] == body + rest
  {
    var b := E16(n) + body + rest;
    assert b[..2] == E16(n);
    Load16(n);
  }

  lemma StrsBack(ss: seq<seq<u8>>, rest: seq<u8>)
    requires |ss| <= MAX_WELEM
    ensures PStrsCounted(E16(|ss|) + EStrs(ss) + rest) == Some((CanonStrs(ss), rest))
  {
    CountAt(|ss|, EStrs(ss), rest);
    PStrsBack(ss, rest);
  }

  lemma QidsBack(qs: seq<Qid>, rest: seq<u8>)
    requires |qs| <= MAX_WELEM
    ensures PQidsCounted(E16(|qs|) + EQids(qs) + rest) == Some((CanonQids(qs), rest))
  {
    CountAt(|qs|, EQids(qs), rest);
    PQidsBack(qs, rest);
  }

  lemma DataBack(v: Val, rest: seq<u8>)
    requires Countable(v) && (v.VData16? || v.VData32?)
    ensures Parse(KindOf(v), Enc(v).value + rest) == Some((Canon(v), rest))
  {
    match v
    case VData16(d) => Data16Back(d, rest);
    case VData32(d) => Data32Back(d[..|d| % 0x1_0000_0000], rest);
  }

  lemma Data16Back(d: seq<u8>, rest: seq<u8>)
    requires |d| < 0x1_0000
    ensures Parse(KData16, E16(|d|) + d + rest) == Some((VData16(d), rest))
  {
    var b := E16(|d|) + d + rest;
    assert b[..2] == E16(|d|);
    assert b[2..] == d + rest;
    Load16(|d|);
    TakeBack(d, rest);
  }

  lemma Data32Back(d: seq<u8>, rest: seq<u8>)
    requires |d| < 0x1_0000_0000
    ensures Parse(KData32, E32(|d|) + d + rest) == Some((VData32(d), rest))
  {
    var b := E32(|d|) + d + rest;
    assert b[..4] == E32(|d|);
    assert b[4..] == d + rest;
    Load32(|d|);
    TakeBack(d, rest);
  }

  lemma TakeBack(d: seq<u8>, rest: seq<u8>)
    ensures Take(d + rest, |d|) == Some((d, rest))
  {}

  lemma IntegerBack(v: Val, rest: seq<u8>)
    requires v.V8? || v.V16? || v.V32? || v.V64? || v.VSize?
    ensures Parse(KindOf(v), Enc(v).value + rest) == Some((Canon(v), rest))
  {
    var b := Enc(v).value + rest;
    match v
    case V8(x) =>
    case V16(x) =>
      assert b[..2] == E16(x);
      Load16(x);
    case V32(x) =>
      assert b[..4] == E32(x);
      Load32(x);
    case V64(x) => assert b[..8] == E64(x);
    case VSize(n) =>
      assert b[..4] == E32(n % 0x1_0000_0000);
      Load32(n % 0x1_0000_0000);
  }

  lemma NameBack(s: seq<u8>, rest: seq<u8>)
    ensures Parse(KStr, Enc(VStr(s)).value + rest) == Some((VStr(Sent(s)), rest))
  {
    PStrBack(s, rest);
  }

  lemma ParseNames(b: seq<u8>, ss: seq<seq<u8>>, rest: seq<u8>)
    requires PStrsCounted(b) == Some((ss, rest))
    ensures Parse(KStrs, b) == Some((VStrs(ss), rest))
  {}

  lemma EncNames(ss: seq<seq<u8>>)
    requires |ss| <= MAX_WELEM
    ensures Enc(VStrs(ss)) == Some(E16(|ss|) + EStrs(ss))
  {}

  lemma NamesBack(ss: seq<seq<u8>>, rest: seq<u8>)
    requires |ss| <= MAX_WELEM
    ensures Parse(KStrs, E16(|ss|) + EStrs(ss) + rest) == Some((VStrs(CanonStrs(ss)), rest))
  {
    StrsBack(ss, rest);
    ParseNames(E16(|ss|) + EStrs(ss) + rest, CanonStrs(ss), rest);
  }

  lemma QidBack(v: Val, rest: seq<u8>)
    requires Countable(v) && Enc(v).Some? && (v.VQid? || v.VQids?)
    ensures Parse(KindOf(v), Enc(v).value + rest) == Some((Canon(v), rest))
  {
    match v
    case VQid(q) => PQidBack(q, rest);
    case VQids(qs) => QidsBack(qs, rest);
  }

  /** Parsing what was encoded gives the field back up to Canon, and leaves what follows. */
  lemma ParseBack(v: Val, rest: seq<u8>)
    requires Countable(v) && Enc(v).Some?
    ensures Parse(KindOf(v), Enc(v).value + rest) == Some((Canon(v), rest))
  {
    if v.VStr? {
      NameBack(v.s, rest);
    } else if v.VStrs? {
      EncNames(v.ss);
      NamesBack(v.ss, rest);
    } else if v.VQid? || v.VQids? {
      QidBack(v, rest);
    } else if v.VData16? || v.VData32? {
      DataBack(v, rest);
    } else {
      IntegerBack(v, rest);
    }
  }

  lemma {:induction false} ParseAllBack(vs: seq<Val>, rest: seq<u8>)
    requires (forall v :: v in vs ==> Countable(v)) && EncAll(vs).Some?
    ensures ParseAll(Kinds(vs), EncAll(vs).value + rest) == Some((CanonAll(vs), rest))
  {
    if vs == [] {
      assert EncAll(vs).value + rest == rest;
    } else {
      var tail := EncAll(vs[1..]).value + rest;
      assert EncAll(vs).value + rest == Enc(vs[0]).value + tail;
      ParseBack(vs[0], tail);
      ParseAllBack(vs[1..], rest);
      assert Kinds(vs)[1..] == Kinds(vs[1..]);
    }
  }

  lemma {:induction false} CanonAllExact(vs: seq<Val>)
    ensures CanonAll(vs) == vs <==> forall v :: v in vs ==> Clean(v)
  {
    if vs != [] {
      CanonExact(vs[0]);
      CanonAllExact(vs[1..]);
      assert vs == [vs[0]] + vs[1..];
    }
  }
}
