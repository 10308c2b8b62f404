/** The tag table of the client multiplexer (libmixp/rpc.c, gettag and puttag), as a value.
    A slot holds the rpc that owns the tag mintag+slot. The class in MuxTable works on an
    array and is proved against these functions; the transition system in Mux uses them. */
module TagTable {
  import opened Common

  datatype Table<T> = Table(wait: seq<Option<T>>, nwait: nat, freetag: nat)

  /** What one pass of gettag's loop, run under lk, comes to. */
  datatype Take<T> =
    | Taken(table: Table<T>, slot: nat)
    | MustSleep   // no free tag and the table may not grow: sleep on tagrend
    | Abort       // the scan fell through: abort()

  function Occupied<T>(w: seq<Option<T>>): nat {
    if w == [] then 0 else Occupied(w[..|w| - 1]) + (if w[|w| - 1].Some? then 1 else 0)
  }

  function Pow2(k: nat): nat {
    if k == 0 then 1 else 2 * Pow2(k - 1)
  }

  ghost predicate PowerOfTwo(n: nat) {
    exists k: nat :: n == Pow2(k)
  }

  /** nwait counts the occupied slots; the size is 0 or a power of two below 2*(maxtag-mintag). */
  ghost predicate Valid<T>(tb: Table<T>, range: nat) {
    && 0 < range
    && tb.nwait == Occupied(tb.wait)
    && (|tb.wait| == 0 || (PowerOfTwo(|tb.wait|) && |tb.wait| < 2 * range))
    && (tb.freetag < |tb.wait| || (|tb.wait| == 0 && tb.freetag == 0))
  }

  /** The first free slot in lo..hi, or hi. */
  function FirstFree<T>(w: seq<Option<T>>, lo: nat, hi: nat): (i: nat)
    requires lo <= hi <= |w|
    ensures lo <= i <= hi
    ensures i < hi ==> w[i].None?
    ensures forall j :: lo <= j < i ==> w[j].Some?
    decreases hi - lo
  {
    if lo == hi then hi else if w[lo].None? then lo else FirstFree(w, lo + 1, hi)
  }

  /** Scan upwards from freetag, then from 0 up to freetag. */
  function Scan<T>(w: seq<Option<T>>, freetag: nat): (r: Option<nat>)
    requires freetag < |w|
    ensures r.Some? ==> r.value < |w| && w[r.value].None?
    ensures r.None? ==> forall j :: 0 <= j < |w| ==> w[j].Some?
  {
    var i := FirstFree(w, freetag, |w|);
    if i < |w| then Some(i)
    else
      var k := FirstFree(w, 0, freetag);
      if k < freetag then Some(k) else None
  }

  /** Double the table; the first new slot becomes the place to start scanning. */
  function Grow<T>(tb: Table<T>): Table<T> {
    var mw := if |tb.wait| == 0 then 1 else 2 * |tb.wait|;
    Table(tb.wait + seq(mw - |tb.wait|, _ => None), tb.nwait, |tb.wait|)
  }

  function Claim<T>(tb: Table<T>, r: T): Take<T>
    requires tb.freetag < |tb.wait|
  {
    match Scan(tb.wait, tb.freetag)
    case None => Abort
    case Some(i) => Taken(Table(tb.wait[i := Some(r)], tb.nwait + 1, tb.freetag), i)
  }

  function TakeTag<T>(tb: Table<T>, range: nat, r: T): Take<T>
    requires |tb.wait| == 0 ==> tb.nwait == 0 < range
    requires 0 < |tb.wait| ==> tb.freetag < |tb.wait|
  {
    if tb.nwait == |tb.wait| then
      if |tb.wait| < range then Claim(Grow(tb), r) else MustSleep
    else
      Claim(tb, r)
  }

  function FreeTag<T>(tb: Table<T>, slot: nat): Table<T>
    requires slot < |tb.wait| && 0 < tb.nwait
  {
    Table(tb.wait[slot := None], tb.nwait - 1, slot)
  }

  lemma {:induction false} OccupiedUpdate<T>(w: seq<Option<T>>, i: nat, x: Option<T>)
    requires i < |w|
    ensures Occupied(w[i := x]) + (if w[i].Some? then 1 else 0) == Occupied(w) + (if x.Some? then 1 else 0)
  {
    var n := |w| - 1;
    if i == n {
      assert w[i := x][..n] == w[..n];
    } else {
      assert w[i := x][..n] == w[..n][i := x];
      OccupiedUpdate(w[..n], i, x);
    }
  }

  lemma {:induction false} OccupiedBounds<T>(w: seq<Option<T>>)
    ensures Occupied(w) <= |w|
    ensures Occupied(w) == |w| <==> forall j :: 0 <= j < |w| ==> w[j].Some?
  {
    if w != [] {
      OccupiedBounds(w[..|w| - 1]);
    }
  }

  lemma {:induction false} OccupiedPositive<T>(w: seq<Option<T>>, i: nat)
    requires i < |w| && w[i].Some?
    ensures 0 < Occupied(w)
  {
    OccupiedUpdate(w, i, None);
  }

  lemma {:induction false} OccupiedGrow<T>(w: seq<Option<T>>, n: nat)
    ensures Occupied(w + seq(n, _ => None)) == Occupied(w)
  {
    var v := w + seq(n, _ => None);
    if n > 0 {
      assert v[..|v| - 1] == w + seq(n - 1, _ => None);
      OccupiedGrow(w, n - 1);
    } else {
      assert v == w;
    }
  }

  lemma GrowValid<T>(tb: Table<T>, range: nat)
    requires Valid(tb, range) && |tb.wait| < range
    ensures Valid(Grow(tb), range) && |tb.wait| < |Grow(tb).wait|
    ensures forall j :: 0 <= j < |tb.wait| ==> Grow(tb).wait[j] == tb.wait[j]
    ensures forall j :: |tb.wait| <= j < |Grow(tb).wait| ==> Grow(tb).wait[j].None?
  {
    var mw := if |tb.wait| == 0 then 1 else 2 * |tb.wait|;
    OccupiedGrow(tb.wait, mw - |tb.wait|);
    if |tb.wait| == 0 {
      assert mw == Pow2(0);
    } else {
      var k: nat :| |tb.wait| == Pow2(k);
      assert mw == Pow2(k + 1);
    }
  }

  /** What an rpc gets: a slot that was free, no other changed. */
  ghost predicate Takes<T>(tb: Table<T>, range: nat, r: T, tb': Table<T>, i: nat) {
    && Valid(tb', range) && tb'.nwait == tb.nwait + 1
    && |tb.wait| <= |tb'.wait| && (range <= |tb.wait| ==> |tb'.wait| == |tb.wait|)
    && i < |tb'.wait| && tb'.wait[i] == Some(r)
    && (i < |tb.wait| ==> tb.wait[i].None?)
    && (forall j :: 0 <= j < |tb.wait| && j != i ==> tb'.wait[j] == tb.wait[j])
    && (forall j :: |tb.wait| <= j < |tb'.wait| && j != i ==> tb'.wait[j].None?)
  }

  lemma ClaimCorrect<T>(tb: Table<T>, range: nat, r: T)
    requires Valid(tb, range) && tb.nwait < |tb.wait|
    ensures Claim(tb, r).Taken? && Takes(tb, range, r, Claim(tb, r).table, Claim(tb, r).slot)
  {
    OccupiedBounds(tb.wait);
    OccupiedUpdate(tb.wait, Scan(tb.wait, tb.freetag).value, Some(r));
  }

  lemma GrowTakes<T>(tb: Table<T>, range: nat, r: T, tb': Table<T>, i: nat)
    requires Valid(tb, range) && tb.nwait == |tb.wait| < range && Takes(Grow(tb), range, r, tb', i)
    ensures Takes(tb, range, r, tb', i)
  {
    OccupiedBounds(tb.wait);
    assert forall j :: 0 <= j < |tb.wait| ==> Grow(tb).wait[j] == tb.wait[j];
  }

  /** gettag on a valid table: it sleeps exactly when the table is full and may not grow, it never
      reaches abort(), and otherwise it hands out one slot that was free and changes no other. */
  lemma TakeTagCorrect<T>(tb: Table<T>, range: nat, r: T)
    requires Valid(tb, range)
    ensures !TakeTag(tb, range, r).Abort?
    ensures TakeTag(tb, range, r).MustSleep? <==>
              range <= |tb.wait| && forall j :: 0 <= j < |tb.wait| ==> tb.wait[j].Some?
    ensures TakeTag(tb, range, r).Taken? ==>
              Takes(tb, range, r, TakeTag(tb, range, r).table, TakeTag(tb, range, r).slot)
  {
    OccupiedBounds(tb.wait);
    if tb.nwait < |tb.wait| {
      ClaimCorrect(tb, range, r);
    } else if |tb.wait| < range {
      GrowValid(tb, range);
      ClaimCorrect(Grow(tb), range, r);
      GrowTakes(tb, range, r, Claim(Grow(tb), r).table, Claim(Grow(tb), r).slot);
    }
  }

  /** Which way gettag goes, by the fill of the table. */
  lemma TakeTagBranches<T>(tb: Table<T>, range: nat, r: T)
    requires Valid(tb, range)
    ensures tb.nwait <= |tb.wait| && |Grow(tb).wait| > Grow(tb).freetag
    ensures tb.nwait < |tb.wait| ==> Claim(tb, r).Taken? && TakeTag(tb, range, r) == Claim(tb, r)
    ensures tb.nwait == |tb.wait| < range ==> Claim(Grow(tb), r).Taken? && TakeTag(tb, range, r) == Claim(Grow(tb), r)
    ensures tb.nwait == |tb.wait| && range <= |tb.wait| ==> TakeTag(tb, range, r).MustSleep?
  {
    OccupiedBounds(tb.wait);
    TakeTagCorrect(tb, range, r);
  }

  lemma FreeTagCorrect<T>(tb: Table<T>, range: nat, slot: nat)
    requires Valid(tb, range) && slot < |tb.wait| && tb.wait[slot].Some?
    ensures 0 < tb.nwait && Valid(FreeTag(tb, slot), range)
    ensures |FreeTag(tb, slot).wait| == |tb.wait| && FreeTag(tb, slot).wait[slot].None?
    ensures forall j :: 0 <= j < |tb.wait| && j != slot ==> FreeTag(tb, slot).wait[j] == tb.wait[j]
  {
    OccupiedPositive(tb.wait, slot);
    OccupiedUpdate(tb.wait, slot, None);
  }

  lemma {:induction false} Pow2Monotone(j: nat, k: nat)
    requires j <= k
    ensures Pow2(j) <= Pow2(k)
  {
    if j < k {
      Pow2Monotone(j, k - 1);
    }
  }

  /** With the tag limits of a mounted client (0 and 255) the tags handed out lie in 0..255, and
      with the limits used for the version call (NOTAG and NOTAG+1) the only tag is NOTAG. */
  lemma MountTags<T>(tb: Table<T>, range: nat, slot: nat)
    requires Valid(tb, range) && slot < |tb.wait|
    ensures range == 255 ==> 0 + slot <= 255
    ensures range == 1 ==> 0xFFFF + slot == 0xFFFF
  {
    var k: nat :| |tb.wait| == Pow2(k);
    assert Pow2(9) == 512 by {
      assert Pow2(4) == 16;
      assert Pow2(6) == 64;
      assert Pow2(8) == 256;
    }
    if 9 <= k {
      Pow2Monotone(9, k);
    } else {
      Pow2Monotone(k, 8);
      assert Pow2(4) == 16;
      assert Pow2(6) == 64;
    }
  }
}
