/** The client's fids (libmixp/client.c): getfid and putfid over a free list and the highest fid in
    use, as functions on numbers and as the methods that relink the objects. */
module ClientFids {
  import opened Common
  import opened Wire

  const ROOT_FID: u32 := 1

  datatype Pool = Pool(free: seq<u32>, last: u32)

  /** At most 2^32 - 1 is a fid. */
  predicate CanGet(p: Pool) { p.free != [] || p.last < 0xFFFF_FFFF }

  function Got(p: Pool): u32
    requires CanGet(p)
  {
    if p.free != [] then p.free[0] else p.last + 1
  }

  function Get(p: Pool): Pool
    requires CanGet(p)
  {
    if p.free != [] then p.(free := p.free[1..]) else p.(last := p.last + 1)
  }

  function Put(p: Pool, f: u32): Pool {
    if f == p.last then p.(last := if p.last > 0 then p.last - 1 else 0xFFFF_FFFF) else p.(free := [f] + p.free)
  }

  /** Live and free fids are apart, and together they are ROOT_FID+1 to last. */
  ghost predicate Exact(p: Pool, live: set<u32>) {
    && ROOT_FID <= p.last && NoDuplicates(p.free)
    && forall f: u32 :: (ROOT_FID < f <= p.last <==> f in live || f in p.free) && !(f in live && f in p.free)
  }

  lemma GetExact(p: Pool, live: set<u32>)
    requires Exact(p, live) && CanGet(p)
    ensures Got(p) !in live && Got(p) != ROOT_FID && Exact(Get(p), live + {Got(p)})
  {
    if p.free != [] {
      assert forall g :: g in p.free <==> g == p.free[0] || g in p.free[1..];
    }
  }

  lemma PutExact(p: Pool, live: set<u32>, f: u32)
    requires Exact(p, live) && f in live
    ensures Exact(Put(p, f), live - {f})
  {
    assert f in live && f !in p.free;
    if f == p.last {
      PutLast(p, live, f);
    } else {
      PutFree(p, live, f);
    }
  }

  lemma PutLast(p: Pool, live: set<u32>, f: u32)
    requires Exact(p, live) && f in live && f == p.last
    ensures Exact(Put(p, f), live - {f})
  {}

  lemma PutFree(p: Pool, live: set<u32>, f: u32)
    requires Exact(p, live) && f in live && f != p.last
    ensures Exact(Put(p, f), live - {f})
  {
    var free := [f] + p.free;
    assert forall g :: g in free <==> g == f || g in p.free;
  }

  // ---------- any sequence of calls ----------

  datatype Call = GetCall | PutCall(f: u32)

  /** The pool and the live fids after some calls; None if one puts a fid that is not live, or 2^32 - 1
      fids are in use. */
  function After(calls: seq<Call>): Option<(Pool, set<u32>)> {
    if calls == [] then Some((Pool([], ROOT_FID), {}))
    else match After(calls[..|calls| - 1])
      case None => None
      case Some((p, live)) =>
        match calls[|calls| - 1]
        case GetCall => if CanGet(p) then Some((Get(p), live + {Got(p)})) else None
        case PutCall(f) => if f in live then Some((Put(p, f), live - {f})) else None
  }

  lemma {:induction false} AlwaysExact(calls: seq<Call>)
    requires After(calls).Some?
    ensures Exact(After(calls).value.0, After(calls).value.1)
  {
    if calls != [] {
      var before := calls[..|calls| - 1];
      AlwaysExact(before);
      var (p, live) := After(before).value;
      match calls[|calls| - 1] {
        case GetCall => GetExact(p, live);
        case PutCall(f) => PutExact(p, live, f);
      }
    }
  }

  /** A fid is never handed out while it is live, and ROOT_FID never. */
  lemma NeverTwice(calls: seq<Call>)
    requires After(calls + [GetCall]).Some?
    ensures var (p, live) := After(calls).value; CanGet(p) && Got(p) !in live && Got(p) != ROOT_FID
  {
    assert (calls + [GetCall])[..|calls|] == calls;
    AlwaysExact(calls);
    var (p, live) := After(calls).value;
    GetExact(p, live);
  }

  // ---------- the objects ----------

  class Cfid {
    const fid: u32
    var open: bool
    var next: Cfid?

    constructor (fid: u32)
      ensures this.fid == fid && next == null && !open
    {
      this.fid, next, open := fid, null, false;
    }
  }

  ghost function At(s: seq<Cfid>, i: nat): Cfid? { if i < |s| then s[i] else null }

  lemma AtTail(s: seq<Cfid>)
    requires s != []
    ensures forall i: nat :: At(s[1..], i) == At(s, i + 1)
  {}

  class Client {
    var lastfid: u32
    var freefid: Cfid?
    ghost var free: seq<Cfid>

    constructor ()
      ensures Valid() && Numbers() == Pool([], ROOT_FID)
    {
      lastfid, freefid, free := ROOT_FID, null, [];
    }

    /** freefid is the list of the fids in free. */
    ghost predicate Valid()
      reads this, free
    {
      && NoDuplicates(free) && freefid == At(free, 0)
      && (forall i :: 0 <= i < |free| ==> free[i].next == At(free, i + 1))
    }

    ghost function Numbers(): Pool
      reads this
    {
      Pool(Fids(free), lastfid)
    }

    method GetFid() returns (f: Cfid)
      requires Valid() && CanGet(Numbers())
      modifies this, free
      ensures Valid() && f.fid == Got(old(Numbers())) && Numbers() == Get(old(Numbers()))
      ensures f.next == null && !f.open && (f == old(freefid) || fresh(f))
      ensures forall g :: g in old(free) && g != f ==> g in free && g.next == old(g.next)
    {
      if freefid != null {
        f := freefid;
        assert f == free[0] && free[0].next == At(free, 1);
        freefid := f.next;
        free := free[1..];
        AtTail(old(free));
        assert forall i :: 0 <= i < |free| ==> free[i] == old(free)[i + 1];
      } else {
        lastfid := lastfid + 1;
        f := new Cfid(lastfid);
      }
      f.next := null;
      f.open := false;
    }

    /** putfid; false when the fid was the last one and is destroyed. */
    method PutFid(f: Cfid) returns (kept: bool)
      requires Valid() && f !in free && 0 < lastfid
      modifies this, f
      ensures Valid() && Numbers() == Put(old(Numbers()), f.fid)
      ensures kept == (f.fid != old(lastfid)) && free == if kept then [f] + old(free) else old(free)
    {
      kept := f.fid != lastfid;
      if !kept {
        lastfid := lastfid - 1;
      } else {
        f.next := freefid;
        freefid := f;
        free := [f] + free;
        assert free[1..] == old(free);
        AtTail(free);
        assert forall i :: 1 <= i < |free| ==> free[i] == old(free)[i - 1];
      }
    }
  }

  ghost function Fids(s: seq<Cfid>): seq<u32> {
    seq(|s|, i requires 0 <= i < |s| => s[i].fid)
  }
}
