/** Where the bytes of a field lie: least significant byte first (libmixp/convert.c). A description by
    offsets, beside the encoders and parsers of Wire. */
module Places {
  import opened Common
  import opened Wire

  function Pow256(i: nat): (p: nat)
    ensures p > 0
  {
    if i == 0 then 1 else 0x100 * Pow256(i - 1)
  }

  /** The bytes from at on are the base 256 digits of v. */
  ghost predicate Stored(b: seq<u8>, at: nat, v: nat, width: nat) {
    at + width <= |b| && forall i :: 0 <= i < width ==> b[at + i] == v / Pow256(i) % 0x100
  }

  function Byte(b: seq<u8>, i: nat): int
    requires i < |b|
  {
    b[i]
  }

  function Le16(b: seq<u8>, at: nat): u16
    requires at + 2 <= |b|
  {
    Byte(b, at) + 0x100 * Byte(b, at + 1)
  }

  function Le32(b: seq<u8>, at: nat): u32
    requires at + 4 <= |b|
  {
    Byte(b, at) + 0x100 * Byte(b, at + 1) + 0x1_0000 * Byte(b, at + 2) + 0x100_0000 * Byte(b, at + 3)
  }

  function Le64(b: seq<u8>, at: nat): u64
    requires at + 8 <= |b|
  {
    Le32(b, at) + 0x1_0000_0000 * Le32(b, at + 4)
  }

  /** What the 64-bit load makes of eight bytes: the fourth counts as signed, and the last for 2^52. */
  function Read64(b: seq<u8>, at: nat): u64
    requires at + 8 <= |b|
  {
    var fourth := if Byte(b, at + 3) < 0x80 then Byte(b, at + 3) else Byte(b, at + 3) - 0x100;
    (Byte(b, at) + 0x100 * Byte(b, at + 1) + 0x1_0000 * Byte(b, at + 2) + 0x100_0000 * fourth
     + 0x1_0000_0000 * Byte(b, at + 4) + 0x100_0000_0000 * Byte(b, at + 5)
     + 0x1_0000_0000_0000 * Byte(b, at + 6) + 0x10_0000_0000_0000 * Byte(b, at + 7)) % 0x1_0000_0000_0000_0000
  }

  // ---------- integers ----------

  lemma Powers()
    ensures Pow256(0) == 1 && Pow256(1) == 0x100 && Pow256(2) == 0x1_0000 && Pow256(3) == 0x100_0000
    ensures Pow256(4) == 0x1_0000_0000 && Pow256(5) == 0x100_0000_0000
    ensures Pow256(6) == 0x1_0000_0000_0000 && Pow256(7) == 0x100_0000_0000_0000
  {
    assert Pow256(1) == 0x100 * Pow256(0);
    assert Pow256(2) == 0x100 * Pow256(1);
    assert Pow256(3) == 0x100 * Pow256(2);
    assert Pow256(4) == 0x100 * Pow256(3);
    assert Pow256(5) == 0x100 * Pow256(4);
    assert Pow256(6) == 0x100 * Pow256(5);
    assert Pow256(7) == 0x100 * Pow256(6);
  }

  /** The stored bytes of each width are the digits, least significant first. */
  lemma Digits16(v: u16)
    ensures Stored(E16(v), 0, v, 2)
  {
    Powers();
  }

  lemma Digits32(v: u32)
    ensures Stored(E32(v), 0, v, 4)
  {
    Powers();
  }

  lemma Digits64(v: u64)
    ensures Stored(E64(v), 0, v, 8)
  {
    Powers();
    StoredBytes(v);
    var b := E64(v);
    assert b[0] == v / Pow256(0) % 0x100 && b[1] == v / Pow256(1) % 0x100;
    assert b[2] == v / Pow256(2) % 0x100 && b[3] == v / Pow256(3) % 0x100;
    assert b[4] == v / Pow256(4) % 0x100 && b[5] == v / Pow256(5) % 0x100;
    assert b[6] == v / Pow256(6) % 0x100 && b[7] == v / Pow256(7) % 0x100;
  }

  lemma LowBytes(v: int, lo: int, hi: int)
    requires 0 <= lo < 0x1_0000_0000 && 0 <= hi && v == 0x1_0000_0000 * hi + lo
    ensures lo % 0x100 == v % 0x100 && lo / 0x100 % 0x100 == v / 0x100 % 0x100
    ensures lo / 0x1_0000 % 0x100 == v / 0x1_0000 % 0x100 && lo / 0x100_0000 == v / 0x100_0000 % 0x100
  {
    SameByte(v, lo, 0x100_0000 * hi);
    LowByte(v, lo, hi, 0x100);
    LowByte(v, lo, hi, 0x1_0000);
    LowByte(v, lo, hi, 0x100_0000);
    assert 0 <= lo / 0x100_0000 < 0x100;
  }

  lemma HighBytes(v: int, lo: int, hi: int)
    requires 0 <= lo < 0x1_0000_0000 && 0 <= hi && v == 0x1_0000_0000 * hi + lo
    ensures hi == v / 0x1_0000_0000 && hi / 0x100 % 0x100 == v / 0x100_0000_0000 % 0x100
    ensures hi / 0x1_0000 % 0x100 == v / 0x1_0000_0000_0000 % 0x100
    ensures hi / 0x100_0000 == v / 0x100_0000_0000_0000
  {
    DivideTwice(v, lo, hi, 0x100);
    DivideTwice(v, lo, hi, 0x1_0000);
    DivideTwice(v, lo, hi, 0x100_0000);
  }

  lemma StoredBytes(v: u64)
    ensures E64(v) == [v % 0x100, v / 0x100 % 0x100, v / 0x1_0000 % 0x100, v / 0x100_0000 % 0x100,
                       v / 0x1_0000_0000 % 0x100, v / 0x100_0000_0000 % 0x100, v / 0x1_0000_0000_0000 % 0x100,
                       v / 0x100_0000_0000_0000]
  {
    var lo: int, hi: int := v % 0x1_0000_0000, v / 0x1_0000_0000;
    StoredDigits(v);
    LowBytes(v, lo, hi);
    HighBytes(v, lo, hi);
  }

  /** The low bytes of a 64-bit value are those of its low half. */
  lemma LowByte(v: int, lo: int, hi: int, m: int)
    requires 0 <= lo < 0x1_0000_0000 && 0 <= hi && v == 0x1_0000_0000 * hi + lo
    requires m == 0x100 || m == 0x1_0000 || m == 0x100_0000
    ensures lo / m % 0x100 == v / m % 0x100
  {
    if m == 0x100 {
      SameByte(v / 0x100, lo / 0x100, 0x1_0000 * hi) by {
        assert v / 0x100 == 0x100_0000 * hi + lo / 0x100;
      }
    } else if m == 0x1_0000 {
      SameByte(v / 0x1_0000, lo / 0x1_0000, 0x100 * hi) by {
        assert v / 0x1_0000 == 0x1_0000 * hi + lo / 0x1_0000;
      }
    } else {
      SameByte(v / 0x100_0000, lo / 0x100_0000, hi) by {
        assert v / 0x100_0000 == 0x100 * hi + lo / 0x100_0000;
      }
    }
  }

  lemma SameByte(x: int, y: int, k: int)
    requires 0 <= y && x == 0x100 * k + y
    ensures x % 0x100 == y % 0x100
  {}

  /** Dividing by 2^32 and then by m is dividing by 2^32 * m. */
  lemma DivideTwice(v: int, lo: int, hi: int, m: int)
    requires 0 <= lo < 0x1_0000_0000 && 0 <= hi && v == 0x1_0000_0000 * hi + lo
    requires m == 0x100 || m == 0x1_0000 || m == 0x100_0000
    ensures hi / m == v / (0x1_0000_0000 * m)
  {
    if m == 0x100 {
      var q, r := hi / 0x100, hi % 0x100;
      assert v == 0x100_0000_0000 * q + (0x1_0000_0000 * r + lo);
    } else if m == 0x1_0000 {
      var q, r := hi / 0x1_0000, hi % 0x1_0000;
      assert v == 0x1_0000_0000_0000 * q + (0x1_0000_0000 * r + lo);
    } else {
      var q, r := hi / 0x100_0000, hi % 0x100_0000;
      assert v == 0x100_0000_0000_0000 * q + (0x1_0000_0000 * r + lo);
    }
  }

  /** Bytes written at a place are the digits there. */
  lemma StoredThere(b: seq<u8>, at: nat, e: seq<u8>, v: nat)
    requires at + |e| <= |b| && b[at..at + |e|] == e && Stored(e, 0, v, |e|)
    ensures Stored(b, at, v, |e|)
  {
    forall i | 0 <= i < |e| ensures b[at + i] == v / Pow256(i) % 0x100 {
      assert b[at + i] == e[0 + i];
    }
  }

  /** Reading at a place what the loads read off a slice. */
  lemma LoadsThere(b: seq<u8>, at: nat)
    ensures at + 2 <= |b| ==> L16(b[at..at + 2]) == Le16(b, at)
    ensures at + 4 <= |b| ==> L32(b[at..at + 4]) == Le32(b, at)
    ensures at + 8 <= |b| ==> L64(b[at..at + 8]) == Read64(b, at)
  {
    if at + 8 <= |b| {
      Load64There(b, at);
    }
  }

  lemma Load64There(b: seq<u8>, at: nat)
    requires at + 8 <= |b|
    ensures L64(b[at..at + 8]) == Read64(b, at)
  {
    Sum(b[at], b[at + 1], b[at + 2], b[at + 3], b[at + 4], b[at + 5], b[at + 6], b[at + 7]);
    var c := b[at..at + 8];
    assert c[0] == b[at] && c[1] == b[at + 1] && c[2] == b[at + 2] && c[3] == b[at + 3];
    assert c[4] == b[at + 4] && c[5] == b[at + 5] && c[6] == b[at + 6] && c[7] == b[at + 7];
  }

  lemma Sum(b0: int, b1: int, b2: int, b3: int, b4: int, b5: int, b6: int, b7: int)
    ensures Sum64(b0, b1, b2, b3, b4, b5, b6, b7) ==
            b0 + 0x100 * b1 + 0x1_0000 * b2 + 0x100_0000 * (if b3 < 0x80 then b3 else b3 - 0x100)
            + 0x1_0000_0000 * b4 + 0x100_0000_0000 * b5 + 0x1_0000_0000_0000 * b6 + 0x10_0000_0000_0000 * b7
  {}

  lemma Whole16(b: seq<u8>, at: nat, v: u16)
    requires at + 2 <= |b| && b[at..at + 2] == E16(v)
    ensures Le16(b, at) == v
  {
    assert b[at] == E16(v)[0] && b[at + 1] == E16(v)[1];
  }

  lemma Whole32(b: seq<u8>, at: nat, v: u32)
    requires at + 4 <= |b| && b[at..at + 4] == E32(v)
    ensures Le32(b, at) == v
  {
    var e := b[at..at + 4];
    assert b[at] == e[0] && b[at + 1] == e[1] && b[at + 2] == e[2] && b[at + 3] == e[3];
    DigitSum(v);
  }

  lemma Whole64(b: seq<u8>, at: nat, v: u64)
    requires at + 8 <= |b| && b[at..at + 8] == E64(v)
    ensures Le64(b, at) == v
  {
    var e := b[at..at + 8];
    assert b[at..at + 4] == e[..4] == E32(v % 0x1_0000_0000);
    assert b[at + 4..at + 8] == e[4..] == E32(v / 0x1_0000_0000);
    Whole32(b, at, v % 0x1_0000_0000);
    Whole32(b, at + 4, v / 0x1_0000_0000);
  }

  // ---------- fields ----------

  predicate ByteAt(b: seq<u8>, at: nat, v: u8) {
    at + 1 <= |b| && b[at] == v
  }

  predicate ShortAt(b: seq<u8>, at: nat, v: u16) {
    at + 2 <= |b| && Le16(b, at) == v
  }

  predicate IntAt(b: seq<u8>, at: nat, v: u32) {
    at + 4 <= |b| && Le32(b, at) == v
  }

  /** Packing leaves the value itself; unpacking takes what the load makes of the bytes. */
  predicate LongAt(b: seq<u8>, at: nat, v: u64, packed: bool) {
    at + 8 <= |b| && v == if packed then Le64(b, at) else Read64(b, at)
  }

  /** A size_t, of which 32 bits are packed. */
  predicate SizeAt(b: seq<u8>, at: nat, n: u64, packed: bool) {
    at + 4 <= |b| && Le32(b, at) == if packed then n % 0x1_0000_0000 else n
  }

  /** A 16-bit length and that many bytes; packing sends a string up to its first NUL, cut to 16 bits. */
  predicate StrAt(b: seq<u8>, at: nat, s: seq<u8>, packed: bool) {
    && at + 2 <= |b| && AfterStr(b, at) <= |b|
    && b[at + 2..AfterStr(b, at)] == if packed then Sent(s) else s
  }

  /** The place behind the string at a place. */
  function AfterStr(b: seq<u8>, at: nat): nat
    requires at + 2 <= |b|
  {
    at + 2 + Le16(b, at)
  }

  predicate QidAt(b: seq<u8>, at: nat, q: Qid, packed: bool) {
    at + 13 <= |b| && b[at] == q.typ && Le32(b, at + 1) == q.version && LongAt(b, at + 5, q.path, packed)
  }

  predicate StrsAt(b: seq<u8>, at: nat, ss: seq<seq<u8>>, packed: bool)
    decreases |ss|
  {
    ss == [] || (StrAt(b, at, ss[0], packed) && StrsAt(b, AfterStr(b, at), ss[1..], packed))
  }

  predicate QidsAt(b: seq<u8>, at: nat, qs: seq<Qid>, packed: bool) {
    forall i :: 0 <= i < |qs| ==> QidAt(b, at + 13 * i, qs[i], packed)
  }

  /** A 16-bit count and that many strings or qids. */
  predicate NamesAt(b: seq<u8>, at: nat, ss: seq<seq<u8>>, packed: bool) {
    at + 2 <= |b| && Le16(b, at) == |ss| && StrsAt(b, at + 2, ss, packed)
  }

  predicate WalkedAt(b: seq<u8>, at: nat, qs: seq<Qid>, packed: bool) {
    at + 2 <= |b| && Le16(b, at) == |qs| && QidsAt(b, at + 2, qs, packed)
  }

  /** A 32-bit count, or a 16-bit one, and that many bytes. */
  predicate DataAt(b: seq<u8>, at: nat, d: seq<u8>, packed: bool) {
    && at + 4 <= |b| && at + 4 + Le32(b, at) <= |b|
    && b[at + 4..at + 4 + Le32(b, at)] == if packed then d[..|d| % 0x1_0000_0000] else d
  }

  predicate ShortDataAt(b: seq<u8>, at: nat, d: seq<u8>) {
    at + 2 <= |b| && AfterStr(b, at) <= |b| && b[at + 2..AfterStr(b, at)] == d
  }

  predicate ValAt(b: seq<u8>, at: nat, v: Val, packed: bool) {
    match v
    case V8(x) => ByteAt(b, at, x)
    case V16(x) => ShortAt(b, at, x)
    case V32(x) => IntAt(b, at, x)
    case V64(x) => LongAt(b, at, x, packed)
    case VSize(n) => SizeAt(b, at, n, packed)
    case VStr(s) => StrAt(b, at, s, packed)
    case VStrs(ss) => NamesAt(b, at, ss, packed)
    case VQid(q) => QidAt(b, at, q, packed)
    case VQids(qs) => WalkedAt(b, at, qs, packed)
    case VData32(d) => DataAt(b, at, d, packed)
    case VData16(d) => ShortDataAt(b, at, d)
  }

  function AfterStrs(b: seq<u8>, at: nat, n: nat): nat
    decreases n
  {
    if n == 0 || |b| < at + 2 then at else AfterStrs(b, AfterStr(b, at), n - 1)
  }

  /** The place behind a field. */
  function Behind(b: seq<u8>, at: nat, v: Val): nat
    requires ValAt(b, at, v, true) || ValAt(b, at, v, false)
  {
    match v
    case V8(_) => at + 1
    case V16(_) => at + 2
    case V32(_) => at + 4
    case V64(_) => at + 8
    case VSize(_) => at + 4
    case VStr(_) => AfterStr(b, at)
    case VStrs(ss) => AfterStrs(b, at + 2, |ss|)
    case VQid(_) => at + 13
    case VQids(qs) => at + 2 + 13 * |qs|
    case VData32(_) => at + 4 + Le32(b, at)
    case VData16(_) => AfterStr(b, at)
  }

  /** The fields lie one behind the other, from at to end. */
  predicate ListAt(b: seq<u8>, at: nat, vs: seq<Val>, end: int, packed: bool)
    decreases |vs|
  {
    if vs == [] then at == end
    else ValAt(b, at, vs[0], packed) && ListAt(b, Behind(b, at, vs[0]), vs[1..], end, packed)
  }

  lemma OnePlace(b: seq<u8>, at: nat, v: Val, end: int, packed: bool)
    requires ListAt(b, at, [v], end, packed)
    ensures ValAt(b, at, v, packed) && Behind(b, at, v) == end
  {
    assert [v][1..] == [];
  }

  lemma TwoPlaces(b: seq<u8>, at: nat, v: Val, w: Val, end: int, packed: bool)
    requires ListAt(b, at, [v, w], end, packed)
    ensures ValAt(b, at, v, packed)
    ensures var p := Behind(b, at, v); ValAt(b, p, w, packed) && Behind(b, p, w) == end
  {
    assert [v, w][1..] == [w];
    OnePlace(b, Behind(b, at, v), w, end, packed);
  }

  lemma ThreePlaces(b: seq<u8>, at: nat, v: Val, w: Val, x: Val, end: int, packed: bool)
    requires ListAt(b, at, [v, w, x], end, packed)
    ensures ValAt(b, at, v, packed)
    ensures var p := Behind(b, at, v);
            ValAt(b, p, w, packed) && (var q := Behind(b, p, w); ValAt(b, q, x, packed) && Behind(b, q, x) == end)
  {
    assert [v, w, x][1..] == [w, x];
    TwoPlaces(b, Behind(b, at, v), w, x, end, packed);
  }

  lemma FourPlaces(b: seq<u8>, at: nat, v: Val, w: Val, x: Val, y: Val, end: int, packed: bool)
    requires ListAt(b, at, [v, w, x, y], end, packed)
    ensures ValAt(b, at, v, packed)
    ensures var p := Behind(b, at, v);
            && ValAt(b, p, w, packed)
            && var q := Behind(b, p, w);
               && ValAt(b, q, x, packed)
               && var r := Behind(b, q, x); ValAt(b, r, y, packed) && Behind(b, r, y) == end
  {
    assert [v, w, x, y][1..] == [w, x, y];
    ThreePlaces(b, Behind(b, at, v), w, x, y, end, packed);
  }

  /** Where the second of two lists starts. */
  lemma {:induction false} TwoLists(b: seq<u8>, at: nat, vs: seq<Val>, ws: seq<Val>, end: int, packed: bool)
      returns (mid: nat)
    requires ListAt(b, at, vs + ws, end, packed)
    ensures ListAt(b, at, vs, mid, packed) && ListAt(b, mid, ws, end, packed)
    decreases |vs|
  {
    if vs == [] {
      assert vs + ws == ws;
      mid := at;
    } else {
      assert (vs + ws)[1..] == vs[1..] + ws;
      mid := TwoLists(b, Behind(b, at, vs[0]), vs[1..], ws, end, packed);
    }
  }

  // ---------- what packing leaves ----------

  lemma Part(b: seq<u8>, at: nat, e: seq<u8>, i: nat, j: nat)
    requires at + |e| <= |b| && b[at..at + |e|] == e && i <= j <= |e|
    ensures b[at + i..at + j] == e[i..j]
  {
    forall k | i <= k < j ensures b[at + k] == e[k] {
      assert b[at..at + |e|][k] == b[at + k];
    }
  }

  lemma PackedQid(b: seq<u8>, at: nat, q: Qid)
    requires at + 13 <= |b| && b[at..at + 13] == EQid(q)
    ensures QidAt(b, at, q, true)
  {
    var e := EQid(q);
    assert e == [q.typ] + E32(q.version) + E64(q.path);
    assert e[1..5] == E32(q.version) && e[5..13] == E64(q.path);
    assert b[at] == b[at..at + 13][0];
    Part(b, at, e, 1, 5);
    Part(b, at, e, 5, 13);
    Whole32(b, at + 1, q.version);
    Whole64(b, at + 5, q.path);
  }

  lemma PackedCounted(b: seq<u8>, at: nat, n: u16, rest: seq<u8>)
    requires at + 2 + |rest| <= |b| && b[at..at + 2 + |rest|] == E16(n) + rest
    ensures Le16(b, at) == n && b[at + 2..at + 2 + |rest|] == rest
  {
    var e := E16(n) + rest;
    assert e[0..2] == E16(n) && e[2..|e|] == rest;
    Part(b, at, e, 0, 2);
    Part(b, at, e, 2, |e|);
    Whole16(b, at, n);
  }

  lemma PackedStr(b: seq<u8>, at: nat, s: seq<u8>)
    requires at + |EStr(s)| <= |b| && b[at..at + |EStr(s)|] == EStr(s)
    ensures StrAt(b, at, s, true) && AfterStr(b, at) == at + |EStr(s)|
  {
    PackedCounted(b, at, |Sent(s)|, Sent(s));
  }

  lemma {:induction false} PackedStrs(b: seq<u8>, at: nat, ss: seq<seq<u8>>)
    requires at + |EStrs(ss)| <= |b| && b[at..at + |EStrs(ss)|] == EStrs(ss)
    ensures StrsAt(b, at, ss, true) && AfterStrs(b, at, |ss|) == at + |EStrs(ss)|
    decreases |ss|
  {
    if ss != [] {
      OneStr(b, at, ss[0], EStrs(ss[1..]));
      PackedStrs(b, AfterStr(b, at), ss[1..]);
      StrsFrom(b, at, ss, true);
    }
  }

  lemma OneStr(b: seq<u8>, at: nat, s: seq<u8>, rest: seq<u8>)
    requires at + |EStr(s) + rest| <= |b| && b[at..at + |EStr(s) + rest|] == EStr(s) + rest
    ensures StrAt(b, at, s, true)
    ensures var next := AfterStr(b, at);
            next == at + |EStr(s)| && next + |rest| <= |b| && b[next..next + |rest|] == rest
  {
    TwoParts(b, at, EStr(s), rest);
    PackedStr(b, at, s);
  }

  lemma StrsFrom(b: seq<u8>, at: nat, ss: seq<seq<u8>>, packed: bool)
    requires ss != [] && StrAt(b, at, ss[0], packed) && StrsAt(b, AfterStr(b, at), ss[1..], packed)
    ensures StrsAt(b, at, ss, packed)
    ensures AfterStrs(b, at, |ss|) == AfterStrs(b, AfterStr(b, at), |ss| - 1)
  {}

  lemma TwoParts(b: seq<u8>, at: nat, e: seq<u8>, f: seq<u8>)
    requires at + |e + f| <= |b| && b[at..at + |e + f|] == e + f
    ensures b[at..at + |e|] == e && b[at + |e|..at + |e| + |f|] == f
  {
    var g := e + f;
    assert g[0..|e|] == e && g[|e|..|g|] == f;
    Part(b, at, g, 0, |e|);
    Part(b, at, g, |e|, |g|);
  }

  lemma {:induction false} PackedQids(b: seq<u8>, at: nat, qs: seq<Qid>)
    requires at + |EQids(qs)| <= |b| && b[at..at + |EQids(qs)|] == EQids(qs)
    ensures QidsAt(b, at, qs, true) && |EQids(qs)| == 13 * |qs|
    decreases |qs|
  {
    if qs != [] {
      assert EQids(qs) == EQid(qs[0]) + EQids(qs[1..]);
      TwoParts(b, at, EQid(qs[0]), EQids(qs[1..]));
      PackedQid(b, at, qs[0]);
      PackedQids(b, at + 13, qs[1..]);
      QidsFrom(b, at, qs, true);
    }
  }

  lemma QidsFrom(b: seq<u8>, at: nat, qs: seq<Qid>, packed: bool)
    requires qs != [] && QidAt(b, at, qs[0], packed) && QidsAt(b, at + 13, qs[1..], packed)
    ensures QidsAt(b, at, qs, packed)
  {
    forall i | 0 <= i < |qs| ensures QidAt(b, at + 13 * i, qs[i], packed) {
      if i > 0 {
        assert QidAt(b, at + 13 + 13 * (i - 1), qs[1..][i - 1], packed);
      }
    }
  }

  lemma PackedData32(b: seq<u8>, at: nat, d: seq<u8>)
    requires |d| < 0x1_0000_0000 && at + 4 + |d| <= |b| && b[at..at + 4 + |d|] == E32(|d|) + d
    ensures Le32(b, at) == |d| && b[at + 4..at + 4 + |d|] == d
  {
    TwoParts(b, at, E32(|d|), d);
    Whole32(b, at, |d|);
  }

  predicate Inner(v: Val) {
    !v.VStrs? && !v.VQids? && !v.VData32? && !v.VData16?
  }

  lemma PackedInner(b: seq<u8>, at: nat, v: Val)
    requires Inner(v) && Enc(v).Some? && at + |Enc(v).value| <= |b|
    requires b[at..at + |Enc(v).value|] == Enc(v).value
    ensures ValAt(b, at, v, true) && Behind(b, at, v) == at + |Enc(v).value|
  {
    match v
    case V8(x) => assert b[at] == b[at..at + 1][0];
    case V16(x) => Whole16(b, at, x);
    case V32(x) => Whole32(b, at, x);
    case V64(x) => Whole64(b, at, x);
    case VSize(n) => Whole32(b, at, n % 0x1_0000_0000);
    case VStr(s) => PackedStr(b, at, s);
    case VQid(q) => PackedQid(b, at, q);
  }

  lemma PackedLast(b: seq<u8>, at: nat, v: Val)
    requires Countable(v) && !Inner(v) && Enc(v).Some? && at + |Enc(v).value| <= |b|
    requires b[at..at + |Enc(v).value|] == Enc(v).value
    ensures ValAt(b, at, v, true) && Behind(b, at, v) == at + |Enc(v).value|
  {
    match v
    case VStrs(ss) => PackedNames(b, at, ss);
    case VQids(qs) => PackedWalked(b, at, qs);
    case VData32(d) => PackedData32(b, at, d[..|d| % 0x1_0000_0000]);
    case VData16(d) => PackedCounted(b, at, |d|, d);
  }

  lemma PackedNames(b: seq<u8>, at: nat, ss: seq<seq<u8>>)
    requires |ss| <= MAX_WELEM && at + 2 + |EStrs(ss)| <= |b|
    requires b[at..at + 2 + |EStrs(ss)|] == E16(|ss|) + EStrs(ss)
    ensures NamesAt(b, at, ss, true) && AfterStrs(b, at + 2, |ss|) == at + 2 + |EStrs(ss)|
  {
    PackedCounted(b, at, |ss|, EStrs(ss));
    PackedStrs(b, at + 2, ss);
  }

  lemma PackedWalked(b: seq<u8>, at: nat, qs: seq<Qid>)
    requires |qs| <= MAX_WELEM && at + 2 + |EQids(qs)| <= |b|
    requires b[at..at + 2 + |EQids(qs)|] == E16(|qs|) + EQids(qs)
    ensures WalkedAt(b, at, qs, true) && at + 2 + 13 * |qs| == at + 2 + |EQids(qs)|
  {
    PackedCounted(b, at, |qs|, EQids(qs));
    PackedQids(b, at + 2, qs);
  }

  lemma {:induction false} PackedList(b: seq<u8>, at: nat, vs: seq<Val>, end: nat)
    requires (forall v :: v in vs ==> Countable(v)) && EncAll(vs).Some?
    requires at + |EncAll(vs).value| == end <= |b| && b[at..end] == EncAll(vs).value
    ensures ListAt(b, at, vs, end, true)
    decreases |vs|
  {
    if vs != [] {
      OneVal(b, at, vs[0], EncAll(vs[1..]).value);
      PackedList(b, Behind(b, at, vs[0]), vs[1..], end);
      ListFrom(b, at, vs, end, true);
    }
  }

  lemma ListFrom(b: seq<u8>, at: nat, vs: seq<Val>, end: int, packed: bool)
    requires vs != [] && ValAt(b, at, vs[0], packed) && ListAt(b, Behind(b, at, vs[0]), vs[1..], end, packed)
    ensures ListAt(b, at, vs, end, packed)
  {}

  lemma OneVal(b: seq<u8>, at: nat, v: Val, rest: seq<u8>)
    requires Countable(v) && Enc(v).Some? && at + |Enc(v).value + rest| <= |b|
    requires b[at..at + |Enc(v).value + rest|] == Enc(v).value + rest
    ensures ValAt(b, at, v, true)
    ensures var next := Behind(b, at, v);
            next == at + |Enc(v).value| && next + |rest| <= |b| && b[next..next + |rest|] == rest
  {
    TwoParts(b, at, Enc(v).value, rest);
    PackedVal(b, at, v);
  }

  lemma PackedVal(b: seq<u8>, at: nat, v: Val)
    requires Countable(v) && Enc(v).Some? && at + |Enc(v).value| <= |b|
    requires b[at..at + |Enc(v).value|] == Enc(v).value
    ensures ValAt(b, at, v, true) && Behind(b, at, v) == at + |Enc(v).value|
  {
    if Inner(v) {
      PackedInner(b, at, v);
    } else {
      PackedLast(b, at, v);
    }
  }

  // ---------- what unpacking takes ----------

  /** The field v is at the place, and rest is what follows it. */
  ghost predicate Taken(b: seq<u8>, at: nat, v: Val, rest: seq<u8>) {
    ValAt(b, at, v, false) && Behind(b, at, v) <= |b| && rest == b[Behind(b, at, v)..]
  }

  lemma Tail(b: seq<u8>, at: nat, i: nat, j: nat)
    requires at + i <= at + j <= |b|
    ensures b[at..][i..j] == b[at + i..at + j] && b[at..][j..] == b[at + j..]
  {}

  lemma ParsedStr(b: seq<u8>, at: nat, s: seq<u8>, rest: seq<u8>)
    requires at <= |b| && PStr(b[at..]) == Some((s, rest))
    ensures StrAt(b, at, s, false) && rest == b[AfterStr(b, at)..]
  {
    Tail(b, at, 0, 2);
    LoadsThere(b, at);
    Tail(b, at + 2, 0, Le16(b, at));
  }

  lemma {:induction false} ParsedStrs(b: seq<u8>, at: nat, c: seq<u8>, ss: seq<seq<u8>>, rest: seq<u8>)
    requires at <= |b| && c == b[at..] && PStrs(c, |ss|) == Some((ss, rest))
    ensures StrsAt(b, at, ss, false) && AfterStrs(b, at, |ss|) <= |b| && rest == b[AfterStrs(b, at, |ss|)..]
    decreases |ss|
  {
    if ss != [] {
      var next := FirstStr(b, at, c, ss, rest);
      ParsedStrs(b, AfterStr(b, at), next, ss[1..], rest);
    }
  }

  lemma FirstStr(b: seq<u8>, at: nat, c: seq<u8>, ss: seq<seq<u8>>, rest: seq<u8>) returns (next: seq<u8>)
    requires ss != [] && at <= |b| && c == b[at..] && PStrs(c, |ss|) == Some((ss, rest))
    ensures StrAt(b, at, ss[0], false) && next == b[AfterStr(b, at)..] && PStrs(next, |ss| - 1) == Some((ss[1..], rest))
  {
    next := PStr(c).value.1;
    ParsedStr(b, at, ss[0], next);
  }

  lemma ParsedQid(b: seq<u8>, at: nat, q: Qid, rest: seq<u8>)
    requires at <= |b| && PQid(b[at..]) == Some((q, rest))
    ensures QidAt(b, at, q, false) && rest == b[at + 13..]
  {
    Tail(b, at, 1, 5);
    Tail(b, at, 5, 13);
    LoadsThere(b, at + 1);
    LoadsThere(b, at + 5);
  }

  lemma {:induction false} ParsedQids(b: seq<u8>, at: nat, qs: seq<Qid>, rest: seq<u8>)
    requires at <= |b| && PQids(b[at..], |qs|) == Some((qs, rest))
    ensures QidsAt(b, at, qs, false) && at + 13 * |qs| <= |b| && rest == b[at + 13 * |qs|..]
    decreases |qs|
  {
    if qs != [] {
      var (q, b1) := PQid(b[at..]).value;
      ParsedQid(b, at, q, b1);
      ParsedQids(b, at + 13, qs[1..], rest);
      QidsFrom(b, at, qs, false);
    }
  }

  lemma ParsedInner(b: seq<u8>, at: nat, v: Val, rest: seq<u8>)
    requires Inner(v) && at <= |b| && Parse(KindOf(v), b[at..]) == Some((v, rest))
    ensures Taken(b, at, v, rest)
  {
    match v
    case V8(x) =>
    case V16(x) =>
      Tail(b, at, 0, 2);
      LoadsThere(b, at);
    case V32(x) =>
      Tail(b, at, 0, 4);
      LoadsThere(b, at);
    case V64(x) =>
      Tail(b, at, 0, 8);
      LoadsThere(b, at);
    case VSize(n) =>
      Tail(b, at, 0, 4);
      LoadsThere(b, at);
    case VStr(s) => ParsedStr(b, at, s, rest);
    case VQid(q) => ParsedQid(b, at, q, rest);
  }

  lemma ParsedNames(b: seq<u8>, at: nat, ss: seq<seq<u8>>, rest: seq<u8>)
    requires at <= |b| && Parse(KStrs, b[at..]) == Some((VStrs(ss), rest))
    ensures Taken(b, at, VStrs(ss), rest)
  {
    Tail(b, at, 0, 2);
    LoadsThere(b, at);
    ParsedStrs(b, at + 2, b[at + 2..], ss, rest);
  }

  lemma ParsedWalked(b: seq<u8>, at: nat, qs: seq<Qid>, rest: seq<u8>)
    requires at <= |b| && Parse(KQids, b[at..]) == Some((VQids(qs), rest))
    ensures Taken(b, at, VQids(qs), rest)
  {
    Tail(b, at, 0, 2);
    LoadsThere(b, at);
    ParsedQids(b, at + 2, qs, rest);
  }

  /** Counted names and qids are refused exactly when there are more than 16 or some are cut off. */
  lemma CountsExact(b: seq<u8>)
    requires 2 <= |b|
    ensures Parse(KStrs, b).None? <==> 16 < Le16(b, 0) || PStrs(b[2..], Le16(b, 0)).None?
    ensures Parse(KQids, b).None? <==> 16 < Le16(b, 0) || |b| < 2 + 13 * Le16(b, 0)
  {
    LoadsThere(b, 0);
    assert b[0..2] == b[..2];
    QidsFit(b[2..], Le16(b, 0));
  }

  lemma {:induction false} QidsFit(b: seq<u8>, n: nat)
    ensures PQids(b, n).Some? <==> 13 * n <= |b|
  {
    if n > 0 && 13 <= |b| {
      QidsFit(b[13..], n - 1);
    }
  }

  lemma ParsedData32(b: seq<u8>, at: nat, d: seq<u8>, rest: seq<u8>)
    requires at <= |b| && Parse(KData32, b[at..]) == Some((VData32(d), rest))
    ensures Taken(b, at, VData32(d), rest)
  {
    Tail(b, at, 0, 4);
    LoadsThere(b, at);
    Tail(b, at + 4, 0, Le32(b, at));
  }

  lemma ParsedData16(b: seq<u8>, at: nat, d: seq<u8>, rest: seq<u8>)
    requires at <= |b| && Parse(KData16, b[at..]) == Some((VData16(d), rest))
    ensures Taken(b, at, VData16(d), rest)
  {
    Tail(b, at, 0, 2);
    LoadsThere(b, at);
    Tail(b, at + 2, 0, Le16(b, at));
  }

  lemma ParsedVal(b: seq<u8>, at: nat, v: Val, rest: seq<u8>)
    requires at <= |b| && Parse(KindOf(v), b[at..]) == Some((v, rest))
    ensures Taken(b, at, v, rest)
  {
    match v
    case VStrs(ss) => ParsedNames(b, at, ss, rest);
    case VQids(qs) => ParsedWalked(b, at, qs, rest);
    case VData32(d) => ParsedData32(b, at, d, rest);
    case VData16(d) => ParsedData16(b, at, d, rest);
    case _ => ParsedInner(b, at, v, rest);
  }

  lemma {:induction false} ParsedList(b: seq<u8>, at: nat, c: seq<u8>, vs: seq<Val>, rest: seq<u8>)
    requires at <= |b| && c == b[at..] && ParseAll(Kinds(vs), c) == Some((vs, rest))
    ensures ListAt(b, at, vs, |b| - |rest|, false)
    decreases |vs|
  {
    if vs != [] {
      var next := FirstVal(b, at, c, vs, rest);
      ParsedList(b, Behind(b, at, vs[0]), next, vs[1..], rest);
    }
  }

  lemma FirstVal(b: seq<u8>, at: nat, c: seq<u8>, vs: seq<Val>, rest: seq<u8>) returns (next: seq<u8>)
    requires vs != [] && at <= |b| && c == b[at..] && ParseAll(Kinds(vs), c) == Some((vs, rest))
    ensures Taken(b, at, vs[0], next) && ParseAll(Kinds(vs[1..]), next) == Some((vs[1..], rest))
  {
    next := Parse(KindOf(vs[0]), c).value.1;
    ParsedVal(b, at, vs[0], next);
    assert Kinds(vs)[1..] == Kinds(vs[1..]);
  }
}
