/** The tag table and the sleep queue as libmixp/rpc.c keeps them: an array of rpc pointers that is
    scanned and reallocated, and a circular doubly linked list with a sentinel. The methods are
    proved against the table functions of TagTable and against plain sequences. */
module MuxTable {
  import opened Common
  import TT = TagTable

  class Rpc {
    var next: Rpc?
    var prev: Rpc?
    var tag: nat
    var async: bool

    constructor ()
      ensures next == null && prev == null && !async
    {
      next, prev, tag, async := null, null, 0, false;
    }
  }

  function Slots(w: seq<Rpc?>): (r: seq<Option<Rpc>>)
    ensures |r| == |w|
    ensures forall i :: 0 <= i < |w| ==> r[i] == if w[i] == null then None else Some(w[i])
  {
    if w == [] then [] else Slots(w[..|w| - 1]) + [if w[|w| - 1] == null then None else Some(w[|w| - 1])]
  }

  /** The first rpc that is not asynchronous. */
  ghost function FirstSync(q: seq<Rpc>): Option<Rpc>
    reads set r | r in q
  {
    if q == [] then None else if !q[0].async then Some(q[0]) else FirstSync(q[1..])
  }

  class Client {
    var wait: array<Rpc?>
    var nwait: nat
    var freetag: nat
    const mintag: nat
    const range: nat
    const sleep: Rpc
    ghost var queue: seq<Rpc>

    constructor (mintag: nat, range: nat)
      requires 0 < range
      ensures ValidTable() && ValidQueue() && queue == [] && Table().nwait == 0
      ensures this.mintag == mintag && this.range == range
      ensures fresh(wait) && fresh(sleep)
    {
      this.mintag, this.range := mintag, range;
      wait := new Rpc?[0];
      nwait, freetag := 0, 0;
      sleep := new Rpc();
      queue := [];
      new;
      sleep.next := sleep;
      sleep.prev := sleep;
    }

    // ---------- the tag table ----------

    ghost function Table(): TT.Table<Rpc>
      reads this, wait
    {
      TT.Table(Slots(wait[..]), nwait, freetag)
    }

    ghost predicate ValidTable()
      reads this, wait
    {
      TT.Valid(Table(), range)
    }

    /** Double the table, keeping its entries; the rest of it is NULL. */
    method Grow()
      requires ValidTable() && wait.Length < range
      modifies this`wait, this`freetag
      ensures ValidTable() && Table() == TT.Grow(old(Table())) && fresh(wait)
    {
      TT.GrowValid(Table(), range);
      ghost var was := Table();
      var mw := if wait.Length == 0 then 1 else 2 * wait.Length;
      var w := new Rpc?[mw];
      var i := 0;
      while i < mw
        invariant 0 <= i <= mw
        invariant forall j :: 0 <= j < i ==> w[j] == if j < wait.Length then wait[j] else null
        invariant unchanged(this) && unchanged(wait)
      {
        w[i] := if i < wait.Length then wait[i] else null;
        i := i + 1;
      }
      freetag := wait.Length;
      wait := w;
      assert Table().wait == TT.Grow(was).wait;
    }

    /** The scan of gettag: upwards from freetag, then from 0 up to freetag; the length of the
        table when nothing is free. */
    method ScanFree() returns (i: nat)
      requires freetag < wait.Length
      ensures match TT.Scan(Table().wait, freetag)
              case Some(k) => i == k
              case None => i == wait.Length
    {
      i := freetag;
      while i < wait.Length && wait[i] != null
        invariant freetag <= i <= wait.Length
        invariant TT.FirstFree(Table().wait, freetag, wait.Length) == TT.FirstFree(Table().wait, i, wait.Length)
      {
        i := i + 1;
      }
      if i < wait.Length {
        return;
      }
      i := 0;
      while i < freetag && wait[i] != null
        invariant 0 <= i <= freetag
        invariant TT.FirstFree(Table().wait, 0, freetag) == TT.FirstFree(Table().wait, i, freetag)
      {
        i := i + 1;
      }
      if i == freetag {
        i := wait.Length;
      }
    }

    method Claim(i: nat, r: Rpc)
      requires ValidTable() && i < wait.Length && wait[i] == null
      modifies this`nwait, wait, r`tag
      ensures ValidTable() && r.tag == mintag + i
      ensures Table() == TT.Table(old(Table()).wait[i := Some(r)], old(nwait) + 1, freetag)
    {
      ghost var slots := Table().wait;
      TT.OccupiedUpdate(slots, i, Some(r));
      nwait := nwait + 1;
      wait[i] := r;
      r.tag := i + mintag;
      assert Table().wait == slots[i := Some(r)];
    }

    /** One pass of gettag under lk. It takes a tag unless the caller must sleep on tagrend, and then
        nothing has changed; abort() is not reached. */
    method GetTag(r: Rpc) returns (taken: bool)
      requires ValidTable()
      modifies this`wait, this`nwait, this`freetag, wait, r`tag
      ensures ValidTable() && (wait == old(wait) || fresh(wait))
      ensures match TT.TakeTag(old(Table()), range, r)
              case Taken(tb, i) => taken && Table() == tb && r.tag == mintag + i
              case MustSleep => !taken && Table() == old(Table()) && r.tag == old(r.tag)
              case Abort => false
    {
      TT.TakeTagBranches(Table(), range, r);
      if nwait < wait.Length {
        ScanAndClaim(r);
      } else if wait.Length < range {
        GrowAndClaim(r);
      } else {
        return false;
      }
      taken := true;
    }

    method GrowAndClaim(r: Rpc)
      requires ValidTable() && wait.Length < range && TT.Claim(TT.Grow(Table()), r).Taken?
      modifies this`wait, this`nwait, this`freetag, wait, r`tag
      ensures ValidTable() && fresh(wait)
      ensures var Taken(tb, i) := TT.Claim(TT.Grow(old(Table())), r); Table() == tb && r.tag == mintag + i
    {
      TT.GrowValid(Table(), range);
      Grow();
      ScanAndClaim(r);
    }

    method ScanAndClaim(r: Rpc)
      requires ValidTable() && freetag < wait.Length && TT.Claim(Table(), r).Taken?
      modifies this`nwait, wait, r`tag
      ensures ValidTable()
      ensures var Taken(tb, i) := TT.Claim(old(Table()), r); Table() == tb && r.tag == mintag + i
    {
      var i := ScanFree();
      Claim(i, r);
    }

    method PutTag(r: Rpc)
      requires ValidTable() && mintag <= r.tag < mintag + wait.Length && wait[r.tag - mintag] == r
      modifies this`nwait, this`freetag, wait
      ensures 0 < old(nwait) && |old(Table()).wait| == old(wait.Length)
      ensures ValidTable() && Table() == TT.FreeTag(old(Table()), old(r.tag) - mintag)
    {
      var i := r.tag - mintag;
      TT.FreeTagCorrect(Table(), range, i);
      ghost var slots := Table().wait;
      wait[i] := null;
      assert Table().wait == slots[i := None];
      nwait := nwait - 1;
      freetag := i;
    }

    // ---------- the sleep queue ----------

    /** The list as a ring: position -1 and position |queue| are the sentinel. */
    ghost function Ring(q: seq<Rpc>, i: int): Rpc {
      if 0 <= i < |q| then q[i] else sleep
    }

    ghost predicate ValidQueue()
      reads this, sleep, set r | r in queue
    {
      && sleep !in queue && NoDuplicates(queue)
      && (forall i {:trigger Ring(queue, i).next} :: -1 <= i < |queue| ==> Ring(queue, i).next == Ring(queue, i + 1))
      && (forall i {:trigger Ring(queue, i).prev} :: 0 <= i <= |queue| ==> Ring(queue, i).prev == Ring(queue, i - 1))
    }

    /** Next and previous of one position, spelled out for the caller. */
    lemma RingLinks(i: int)
      requires ValidQueue() && -1 <= i <= |queue|
      ensures i < |queue| ==> Ring(queue, i).next == Ring(queue, i + 1)
      ensures 0 <= i ==> Ring(queue, i).prev == Ring(queue, i - 1)
    {}

    method Enqueue(r: Rpc)
      requires ValidQueue() && r != sleep && r !in queue
      modifies this`queue, r`next, r`prev, sleep`next, sleep`prev, (set q | q in queue)`prev
      ensures ValidQueue() && queue == [r] + old(queue)
    {
      ghost var q0 := queue;
      RingLinks(-1);
      RingLinks(|queue|);
      label before:
      r.next := sleep.next;
      r.prev := sleep;
      r.next.prev := r;
      r.prev.next := r;
      queue := [r] + queue;
      forall i | -1 <= i < |queue| ensures Ring(queue, i).next == Ring(queue, i + 1) {
        if 1 <= i {
          assert Ring(queue, i) == q0[i - 1] && Ring(queue, i + 1) == Ring(q0, i);
          assert old@before(Ring(q0, i - 1).next) == Ring(q0, i);
        }
      }
      forall i | 0 <= i <= |queue| ensures Ring(queue, i).prev == Ring(queue, i - 1) {
        if 2 <= i {
          assert Ring(queue, i) == Ring(q0, i - 1) && Ring(queue, i - 1) == q0[i - 2];
          assert old@before(Ring(q0, i - 1).prev) == Ring(q0, i - 2);
        }
      }
    }

    /** The position of the ring after the k-th element is taken out. */
    lemma RingWithout(q: seq<Rpc>, k: nat, i: int)
      requires k < |q|
      ensures Ring(q[..k] + q[k + 1..], i) == if i < k then Ring(q, i) else Ring(q, i + 1)
    {}

    lemma RingDistinct(q: seq<Rpc>, i: int, j: int)
      requires NoDuplicates(q) && sleep !in q && -1 <= i < j <= |q| && (i != -1 || j != |q|)
      ensures Ring(q, i) != Ring(q, j)
    {}

    lemma NoDuplicatesWithout(q: seq<Rpc>, k: nat)
      requires NoDuplicates(q) && sleep !in q && k < |q|
      ensures NoDuplicates(q[..k] + q[k + 1..]) && sleep !in q[..k] + q[k + 1..]
    {}

    method Dequeue(r: Rpc)
      requires ValidQueue() && r in queue
      modifies this`queue, sleep`next, sleep`prev, (set q | q in queue)`prev, (set q | q in queue)`next
      ensures ValidQueue() && queue == Without(old(queue), r) && r.prev == null && r.next == null
    {
      ghost var k: nat :| k < |queue| && queue[k] == r;
      WithoutAt(queue, k);
      RingLinks(k);
      Unlink(r, k);
    }

    method Unlink(r: Rpc, ghost k: nat)
      requires ValidQueue() && k < |queue| && queue[k] == r
      requires r.next == Ring(queue, k + 1) && r.prev == Ring(queue, k - 1)
      modifies this`queue, sleep`next, sleep`prev, (set q | q in queue)`prev, (set q | q in queue)`next
      ensures ValidQueue() && queue == old(queue)[..k] + old(queue)[k + 1..] && r.prev == null && r.next == null
    {
      ghost var q0 := queue;
      NoDuplicatesWithout(q0, k);
      label before:
      r.next.prev := r.prev;
      r.prev.next := r.next;
      r.prev := null;
      r.next := null;
      queue := queue[..k] + queue[k + 1..];
      forall i | -1 <= i < |queue| ensures Ring(queue, i).next == Ring(queue, i + 1) {
        RingWithout(q0, k, i);
        RingWithout(q0, k, i + 1);
        var j := if i < k then i else i + 1;
        assert old@before(Ring(q0, j).next) == Ring(q0, j + 1);
        if k - 1 < j {
          RingDistinct(q0, k - 1, j);
        } else if j < k - 1 {
          RingDistinct(q0, j, k - 1);
        }
      }
      forall i | 0 <= i <= |queue| ensures Ring(queue, i).prev == Ring(queue, i - 1) {
        RingWithout(q0, k, i);
        RingWithout(q0, k, i - 1);
        var j := if i < k then i else i + 1;
        assert old@before(Ring(q0, j).prev) == Ring(q0, j - 1);
        if k + 1 < j {
          RingDistinct(q0, k + 1, j);
        } else if j < k + 1 {
          RingDistinct(q0, j, k + 1);
        }
      }
    }

    /** electmuxer: the first queued rpc that is not asynchronous; null when there is none. */
    method ElectMuxer() returns (muxer: Rpc?)
      requires ValidQueue()
      ensures muxer == match FirstSync(queue) case Some(r) => r case None => null
      ensures (forall r :: r in queue ==> !r.async) ==> muxer == if queue == [] then null else queue[0]
    {
      var rpc := sleep.next;
      assert Ring(queue, -1).next == Ring(queue, 0);
      ghost var k := 0;
      while rpc != sleep
        invariant 0 <= k <= |queue| && rpc == Ring(queue, k)
        invariant FirstSync(queue) == FirstSync(queue[k..])
        decreases |queue| - k
      {
        if !rpc.async {
          return rpc;
        }
        assert queue[k..][1..] == queue[k + 1..];
        assert Ring(queue, k).next == Ring(queue, k + 1);
        rpc := rpc.next;
        k := k + 1;
      }
      return null;
    }
  }

  lemma {:induction false} WithoutAt(s: seq<Rpc>, k: nat)
    requires k < |s| && NoDuplicates(s)
    ensures Without(s, s[k]) == s[..k] + s[k + 1..]
  {
    if k > 0 {
      WithoutAt(s[1..], k - 1);
      assert s[..k] == [s[0]] + s[1..][..k - 1];
      assert s[k + 1..] == s[1..][k..];
    }
  }
}
