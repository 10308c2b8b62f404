/** The chained hash map of libmixp/intmap.c, with its elements linked in place, proved against a
    finite map. */
module IntMap {
  import opened Common

  class Elem<V> {
    const id: nat
    const aux: V
    var link: Elem?<V>

    constructor (id: nat, aux: V, link: Elem?<V>)
      ensures this.id == id && this.aux == aux && this.link == link
    {
      this.id, this.aux, this.link := id, aux, link;
    }
  }

  /** The i-th element of a chain, or NULL past its end. */
  ghost function Link<V>(c: seq<Elem<V>>, i: nat): Elem?<V> {
    if i < |c| then c[i] else null
  }

  /** c is the chain that starts at head; its ids are distinct, hash to h, and are mapped by m. */
  ghost predicate ChainOk<V>(c: seq<Elem<V>>, head: Elem?<V>, h: nat, n: nat, m: map<nat, V>)
    requires 0 < n
    reads set e | e in c
  {
    && head == Link(c, 0)
    && (forall i {:trigger c[i].link} :: 0 <= i < |c| ==> c[i].link == Link(c, i + 1))
    && (forall i {:trigger c[i].id} :: 0 <= i < |c| ==> c[i].id % n == h && c[i].id in m && m[c[i].id] == c[i].aux)
    && (forall i, j {:trigger c[i].id, c[j].id} :: 0 <= i < j < |c| ==> c[i].id != c[j].id)
  }

  ghost predicate Occurs<V>(c: seq<Elem<V>>, id: nat) {
    exists i :: 0 <= i < |c| && c[i].id == id
  }

  /** d is c without the element that has the key. */
  ghost predicate TakenOut<V>(c: seq<Elem<V>>, d: seq<Elem<V>>, id: nat) {
    forall k :: 0 <= k < |c| && c[k].id == id ==> d == c[..k] + c[k + 1..]
  }

  /** Every chain except that of bucket h is the same. */
  ghost predicate SameBut<V>(a: seq<seq<Elem<V>>>, b: seq<seq<Elem<V>>>, h: nat) {
    |a| == |b| && forall i :: 0 <= i < |a| && i != h ==> a[i] == b[i]
  }

  /** How far a bounded run of mixp_intmap_deletekey got. */
  datatype Deletion<+V> = Finished(ov: Option<V>) | Running

  class IntMap<V> {
    const nhash: nat
    const hash: array<Elem?<V>>
    ghost var chains: seq<seq<Elem<V>>>
    ghost var M: map<nat, V>
    ghost var repr: set<Elem<V>>     // the elements of the chains are among these

    ghost predicate Valid()
      reads this, hash, repr
    {
      && 0 < nhash == hash.Length == |chains|
      && (forall h :: 0 <= h < nhash ==> Bucket(h))
      && (forall k :: Covered(k))
    }

    ghost predicate Bucket(h: nat)
      reads this, hash, repr
    {
      && h < nhash == hash.Length == |chains| && (forall e :: e in chains[h] ==> e in repr)
      && ChainOk(chains[h], hash[h], h, nhash, M)
    }

    ghost predicate Covered(k: nat)
      reads this
    {
      k in M ==> 0 < nhash == |chains| && Occurs(chains[k % nhash], k)
    }

    constructor (nhash: nat)
      requires 0 < nhash
      ensures Valid() && M == map[] && this.nhash == nhash && fresh(hash) && repr == {}
    {
      this.nhash := nhash;
      hash := new Elem?<V>[nhash](_ => null);
      chains := seq(nhash, _ => []);
      M := map[];
      repr := {};
    }

    /** mixp_intmap_lookupkey. */
    method Lookup(id: nat) returns (v: Option<V>)
      requires Valid()
      ensures Valid() && v == if id in M then Some(M[id]) else None
    {
      var hid := id % nhash;
      var elem := hash[hid];
      ghost var c := chains[hid];
      assert Bucket(hid);
      ghost var k := 0;
      while elem != null
        invariant 0 <= k <= |c| && elem == Link(c, k)
        invariant forall i :: 0 <= i < k ==> c[i].id != id
        decreases |c| - k
      {
        if elem.id == id {
          return Some(elem.aux);
        }
        elem := elem.link;
        k := k + 1;
      }
      assert Covered(id);
      return None;
    }

    /** mixp_intmap_caninsertkey: insert unless the key is there. */
    method CanInsert(id: nat, value: V) returns (ok: bool)
      requires Valid()
      modifies this`chains, this`M, this`repr, hash
      ensures Valid() && ok == (id !in old(M))
      ensures M == if ok then old(M)[id := value] else old(M)
      ensures fresh(repr - old(repr))
    {
      var found := Lookup(id);
      if found.Some? {
        return false;
      }
      var hid := id % nhash;
      label before:
      var elem := new Elem(id, value, hash[hid]);
      forall h | 0 <= h < nhash ensures Bucket(h) {
        assert old@before(Bucket(h));
      }
      forall k: nat ensures Covered(k) {
        assert old@before(Covered(k));
      }
      Push(elem, hid);
      return true;
    }

    method Push(elem: Elem<V>, hid: nat)
      requires Valid() && elem.id !in M && hid == elem.id % nhash && elem.link == hash[hid]
      modifies this`chains, this`M, this`repr, hash
      ensures Valid() && M == old(M)[elem.id := elem.aux] && repr == old(repr) + {elem}
    {
      ghost var c := chains[hid];
      ghost var chains0, M0 := chains, M;
      assert Bucket(hid);
      hash[hid] := elem;
      chains := chains[hid := [elem] + c];
      M := M[elem.id := elem.aux];
      repr := repr + {elem};
      forall h | 0 <= h < nhash ensures Bucket(h) {
        assert old(Bucket(h));
      }
      forall k: nat ensures Covered(k) {
        assert old(Covered(k));
        if k == elem.id {
          assert chains[hid][0].id == k;
        } else if k in M {
          ghost var d := chains0[k % nhash];
          var i :| 0 <= i < |d| && d[i].id == k;
          assert if k % nhash == hid then chains[hid][i + 1].id == k else chains[k % nhash][i].id == k;
        }
      }
    }

    /** The chains with the k-th element of bucket hid taken out. */
    ghost function Cut(hid: nat, k: nat): seq<seq<Elem<V>>>
      reads this
      requires hid < |chains| && k < |chains[hid]|
    {
      chains[hid := chains[hid][..k] + chains[hid][k + 1..]]
    }

    /** deletekey, the key at the head of its bucket. */
    method UnlinkHead(hid: nat, elem: Elem<V>)
      requires Valid() && hid < nhash && 0 < |chains[hid]| && chains[hid][0] == elem == hash[hid]
      modifies this`chains, this`M, hash
      ensures Valid() && M == old(M) - {elem.id} && chains == old(Cut(hid, 0))
    {
      ghost var c := chains[hid];
      assert Bucket(hid);
      CutCovers(hid, 0);
      chains := Cut(hid, 0);
      M := M - {elem.id};
      hash[hid] := elem.link;
      forall h | 0 <= h < nhash ensures Bucket(h) {
        assert old(Bucket(h));
        if h == hid {
          ShorterChain(c, chains[hid], 0, hash[h], h);
        }
      }
    }

    /** deletekey, the key next in line after prev. */
    method UnlinkNext(ghost hid: nat, ghost k: nat, prev: Elem<V>, elem: Elem<V>)
      requires Valid() && hid < nhash && 0 < k < |chains[hid]|
      requires chains[hid][k] == elem && chains[hid][k - 1] == prev
      modifies this`chains, this`M, prev`link
      ensures Valid() && M == old(M) - {elem.id} && chains == old(Cut(hid, k))
    {
      ghost var c := chains[hid];
      assert Bucket(hid);
      assert elem.link == Link(c, k + 1) && c[k - 1].id != c[k].id;
      CutCovers(hid, k);
      chains := Cut(hid, k);
      M := M - {elem.id};
      label before:
      prev.link := elem.link;
      forall h | 0 <= h < nhash ensures Bucket(h) {
        assert old(Bucket(h));
        if h == hid {
          ShorterChain(c, chains[hid], k, hash[h], h);
        }
      }
    }

    lemma CutCovers(hid: nat, k: nat)
      requires Valid() && hid < nhash && k < |chains[hid]|
      ensures forall j :: j in M && j != chains[hid][k].id ==> Occurs(Cut(hid, k)[j % nhash], j)
    {
      forall j | j in M && j != chains[hid][k].id ensures Occurs(Cut(hid, k)[j % nhash], j) {
        assert Covered(j);
        StillOccurs(chains[j % nhash], Cut(hid, k)[hid], j, if j % nhash == hid then k else -1, chains[hid][k].id);
      }
    }

    lemma ShorterChain(c: seq<Elem<V>>, c': seq<Elem<V>>, k: nat, head: Elem?<V>, h: nat)
      requires k < |c| && c' == c[..k] + c[k + 1..] && 0 < nhash
      requires forall i {:trigger c[i].id} :: 0 <= i < |c| && i != k ==>
                 c[i].id % nhash == h && c[i].id in M && M[c[i].id] == c[i].aux
      requires forall i, j {:trigger c[i].id, c[j].id} :: 0 <= i < j < |c| ==> c[i].id != c[j].id
      requires forall i {:trigger c[i].link} :: 0 <= i < |c| && i != k ==>
                 c[i].link == Link(c, if i + 1 == k then k + 1 else i + 1)
      requires head == Link(c, if k == 0 then 1 else 0)
      ensures ChainOk(c', head, h, nhash, M)
    {
      forall i | 0 <= i < |c'| ensures c'[i].link == Link(c', i + 1) {
        assert c'[i] == if i < k then c[i] else c[i + 1];
      }
      forall i | 0 <= i < |c'|
        ensures c'[i].id % nhash == h && c'[i].id in M && M[c'[i].id] == c'[i].aux
      {
        assert c'[i] == if i < k then c[i] else c[i + 1];
      }
    }

    static lemma StillOccurs(c: seq<Elem<V>>, c': seq<Elem<V>>, id: nat, k: int, gone: nat)
      requires Occurs(c, id) && id != gone
      requires k < |c| && (0 <= k ==> c[k].id == gone && c' == c[..k] + c[k + 1..])
      ensures if 0 <= k then Occurs(c', id) else Occurs(c, id)
    {
      if 0 <= k {
        var i :| 0 <= i < |c| && c[i].id == id;
        assert if i < k then c'[i].id == id else c'[i - 1].id == id;
      }
    }

    /** deletekey with the walk advanced: exactly the key goes, and its value is returned. */
    method Delete(id: nat) returns (ov: Option<V>)
      requires Valid()
      modifies this`chains, this`M, hash, repr
      ensures Valid() && M == old(M) - {id}
      ensures ov == if id in old(M) then Some(old(M)[id]) else None
    {
      var hid := id % nhash;
      var elem := hash[hid];
      ghost var c := chains[hid];
      assert Bucket(hid);
      assert Covered(id);
      if elem == null {
        return None;
      }
      if elem.id == id {
        ov := Some(elem.aux);
        UnlinkHead(hid, elem);
        return;
      }
      ghost var k := 0;
      while elem.link != null
        invariant 0 <= k < |c| && elem == c[k]
        invariant forall i :: 0 <= i <= k ==> c[i].id != id
        decreases |c| - k
      {
        var next := elem.link;
        assert next == c[k + 1];
        if next.id == id {
          ov := Some(next.aux);
          assert elem in repr;
          UnlinkNext(hid, k + 1, elem, next);
          return;
        }
        elem := next;
        k := k + 1;
      }
      assert elem.link == Link(c, k + 1) && Covered(id);
      return None;
    }

    /** The loop of deletekey as it is written: the walk stays at the head. At most fuel iterations. */
    method WalkAsWritten(ghost hid: nat, elem: Elem<V>, id: nat, fuel: nat)
      returns (ended: bool, ov: Option<V>, n: nat)
      requires Valid() && hid == id % nhash && 0 < |chains[hid]| && chains[hid][0] == elem && elem.id != id
      modifies this`chains, this`M, elem`link
      ensures Valid() && n <= fuel && (!ended ==> n == fuel) && (ended <==> |chains[hid]| == 1)
      ensures SameBut(old(chains), chains, hid) && 0 < |chains[hid]| && chains[hid][0] == elem
      ensures Ids(chains[hid]) == Iterations(old(Ids(chains[hid])), id, n)
      ensures var c := old(chains[hid]);
              if 0 < n && 1 < |c| && c[1].id == id
              then id in old(M) && M == old(M) - {id} && ov == Some(old(M)[id])
              else M == old(M) && ov == None
    {
      ov, n := None, 0;
      assert Bucket(hid);
      assert elem.link == Link(chains[hid], 1);
      while n < fuel && elem.link != null
        invariant Valid() && 0 < |chains[hid]| && chains[hid][0] == elem && elem.link == Link(chains[hid], 1)
        invariant n <= fuel && SameBut(old(chains), chains, hid)
        invariant Ids(chains[hid]) == Iterations(old(Ids(chains[hid])), id, n)
        invariant var c := old(chains[hid]);
                  if 0 < n && 1 < |c| && c[1].id == id
                  then id in old(M) && M == old(M) - {id} && ov == Some(old(M)[id])
                  else M == old(M) && ov == None && chains == old(chains)
        decreases fuel - n
      {
        var next := elem.link;
        ov := StepAsWritten(hid, elem, next, id, ov);
        LastIteration(old(Ids(chains[hid])), id, n);
        n := n + 1;
      }
      ended := elem.link == null;
    }

    /** One iteration of that loop. */
    method StepAsWritten(ghost hid: nat, elem: Elem<V>, next: Elem<V>, id: nat, ov0: Option<V>) returns (ov: Option<V>)
      requires Valid() && hid < nhash && 1 < |chains[hid]| && chains[hid][0] == elem && chains[hid][1] == next
      modifies this`chains, this`M, elem`link
      ensures Valid() && 0 < |chains[hid]| && chains[hid][0] == elem && elem.link == Link(chains[hid], 1)
      ensures Ids(chains[hid]) == Iteration(old(Ids(chains[hid])), id) && SameBut(old(chains), chains, hid)
      ensures if next.id == id
              then id in old(M) && M == old(M) - {id} && ov == Some(old(M)[id])
              else M == old(M) && ov == ov0 && chains == old(chains)
    {
      ov := ov0;
      assert Bucket(hid);
      assert next.id in M && elem.link == Link(chains[hid], 1);
      if next.id == id {
        ov := Some(next.aux);
        UnlinkNext(hid, 1, elem, next);
        AfterUnlink(hid, elem);
      }
    }

    lemma AfterUnlink(hid: nat, elem: Elem<V>)
      requires Valid() && hid < nhash && 0 < |chains[hid]| && chains[hid][0] == elem
      ensures elem.link == Link(chains[hid], 1)
    {
      assert Bucket(hid);
    }

    /** deletekey as it is written, allowed at most fuel iterations of its loop: it finishes exactly
        when some number of iterations within fuel ends the loop, and then the key is removed and
        nothing else. With fuel to spare this is the condition Returns. */
    method DeleteAsWritten(id: nat, fuel: nat) returns (r: Deletion<V>)
      requires Valid()
      modifies this`chains, this`M, hash, repr
      ensures Valid()
      ensures r.Finished? ==> M == old(M) - {id} && r.ov == if id in old(M) then Some(old(M)[id]) else None
      ensures 0 < fuel ==> (r.Finished? <==> Returns(old(Ids(chains[id % nhash])), id))
      ensures SameBut(old(chains), chains, id % nhash)
      ensures r.Finished? ==> TakenOut(old(chains[id % nhash]), chains[id % nhash], id)
    {
      var hid := id % nhash;
      var elem := hash[hid];
      ghost var c := chains[hid];
      assert Bucket(hid);
      assert Covered(id);
      if elem == null {
        return Finished(None);
      }
      if elem.id == id {
        var ov := Some(elem.aux);
        UnlinkHead(hid, elem);
        return Finished(ov);
      }
      assert elem in repr;
      ghost var ids := Ids(c);
      assert 1 < |c| ==> ids[1] == c[1].id;
      var ended, ov, n := WalkAsWritten(hid, elem, id, fuel);
      DeleteReturnsWithin(ids, id, n);
      if ended {
        OnlyHead(hid, elem);
        r := Finished(ov);
      } else {
        r := Running;
      }
    }

    lemma OnlyHead(hid: nat, elem: Elem<V>)
      requires Valid() && hid < nhash && chains[hid] == [elem]
      ensures forall k :: k in M && k % nhash == hid ==> k == elem.id
    {
      forall k | k in M && k % nhash == hid ensures k == elem.id {
        assert Covered(k);
      }
    }

    /** mixp_intmap_exec with voidfid as its callback, and deletekey as written, allowed at most fuel
        iterations each time. It ends exactly when SweepEnds holds of every bucket; then every key below 2^31
        was deleted once and the others are left. */
    method Sweep(fuel: nat) returns (ended: bool, destroyed: seq<nat>)
      requires Valid() && AllMade(M)
      modifies this`chains, this`M, hash, repr
      ensures Valid()
      ensures ended ==> NoDuplicates(destroyed) && forall k :: k in destroyed <==> k in old(M) && !High(k)
      ensures ended ==> forall k :: k in M <==> k in old(M) && High(k)
      ensures ended ==> forall k :: k in M ==> M[k] == old(M)[k]
      ensures 0 < fuel ==> (ended <==> AllEnd(old(chains), nhash))
    {
      destroyed := [];
      ghost var chains0 := chains;
      DestroyedNone(M);
      var i := 0;
      while i < nhash
        invariant Valid() && 0 <= i <= nhash && Destroyed(old(M), M, destroyed)
        invariant SameFrom(chains0, chains, i) && HighUpTo(chains, i)
        invariant 0 < fuel ==> AllEnd(chains0, i)
      {
        ended, destroyed := SweepBucket(i, destroyed, old(M), fuel);
        if !ended {
          return;
        }
        i := i + 1;
      }
      ended := true;
      OnlyHighLeft();
      DestroyedMeans(old(M), M, destroyed);
    }

    lemma OnlyHighLeft()
      requires Valid() && HighUpTo(chains, nhash)
      ensures forall k :: k in M ==> High(k)
    {
      forall k | k in M ensures High(k) {
        assert Covered(k);
      }
    }

    lemma EmptyEnds()
      requires Valid() && M == map[]
      ensures AllEnd(chains, nhash)
    {
      forall h | 0 <= h < nhash ensures |chains[h]| == 0 {
        FirstInMap(h);
      }
    }

    lemma FirstInMap(h: nat)
      requires Valid() && h < nhash
      ensures |chains[h]| == 0 || chains[h][0].id in M
    {
      assert Bucket(h);
    }

    lemma HeadOf(i: nat)
      requires Valid() && i < nhash
      ensures hash[i] == Link(chains[i], 0)
    {
      assert Bucket(i);
    }

    /** The inner loop. */
    method SweepBucket(i: nat, destroyed0: seq<nat>, ghost M0: map<nat, V>, fuel: nat)
      returns (ended: bool, destroyed: seq<nat>)
      requires Valid() && AllMade(M0) && i < nhash && Destroyed(M0, M, destroyed0)
      modifies this`chains, this`M, hash, repr
      ensures Valid() && SameBut(old(chains), chains, i)
      ensures ended ==> Destroyed(M0, M, destroyed) && AllHigh(chains[i])
      ensures 0 < fuel ==> (ended <==> SweepEnds(Ids(old(chains)[i])))
    {
      ghost var ends := Judge(chains[i]);
      ended, destroyed := SweepChain(i, ends, destroyed0, M0, fuel);
    }

    /** ends says at which elements the callback returns. */
    method SweepChain(i: nat, ghost ends: seq<bool>, destroyed0: seq<nat>, ghost M0: map<nat, V>, fuel: nat)
      returns (ended: bool, destroyed: seq<nat>)
      requires Valid() && AllMade(M0) && i < nhash && Destroyed(M0, M, destroyed0) && Judged(chains[i], ends)
      modifies this`chains, this`M, hash, repr
      ensures Valid() && SameBut(old(chains), chains, i)
      ensures ended ==> Destroyed(M0, M, destroyed) && AllHigh(chains[i])
      ensures 0 < fuel ==> (ended <==> false !in ends)
    {
      destroyed := destroyed0;
      var p := hash[i];
      ghost var k, chains0, c := 0, chains, chains[i];
      HeadOf(i);
      KeptNothing(c);
      while p != null
        invariant 0 <= k <= |c| && p == Link(c, k)
        invariant Valid() && SameBut(chains0, chains, i) && chains[i] == Kept(c, k) + c[k..]
        invariant Destroyed(M0, M, destroyed)
        invariant 0 < fuel ==> forall j :: 0 <= j < k ==> ends[j]
        decreases |c| - k
      {
        var nlink: Elem?<V>;
        ended, nlink, destroyed := SweepOne(i, c, k, ends, p, destroyed, M0, fuel);
        if !ended {
          return;
        }
        k := k + 1;
        p := nlink;
      }
      ended := true;
      KeptAll(c);
    }

    /** One turn of the loop, at the k-th element of the bucket: read the link, run the callback. */
    method SweepOne(ghost i: nat, ghost c: seq<Elem<V>>, ghost k: nat, ghost ends: seq<bool>, p: Elem<V>,
                    destroyed0: seq<nat>, ghost M0: map<nat, V>, fuel: nat)
      returns (ended: bool, nlink: Elem?<V>, destroyed: seq<nat>)
      requires Valid() && AllMade(M0) && i < nhash && Destroyed(M0, M, destroyed0)
      requires k < |c| && c[k] == p && chains[i] == Kept(c, k) + c[k..] && Judged(c, ends)
      modifies this`chains, this`M, hash, repr
      ensures Valid() && SameBut(old(chains), chains, i)
      ensures ended ==> Destroyed(M0, M, destroyed)
      ensures ended ==> nlink == Link(c, k + 1) && chains[i] == Kept(c, k + 1) + c[k + 1..]
      ensures 0 < fuel ==> (ended <==> ends[k])
    {
      ghost var at, M1 := |Kept(c, k)|, M;
      KeptNext(c, k);
      JudgedAt(c, ends, k);
      nlink := NextOf(i, at, p);
      StillMade(M0, M, destroyed0);
      var found: bool;
      ended, found := VoidFid(i, at, p, fuel);
      destroyed := destroyed0;
      if found {
        DestroyedOne(M0, M1, destroyed0, p.id);
        destroyed := destroyed + [p.id];
      }
    }

    /** nlink, read before the callback runs. */
    method NextOf(ghost i: nat, ghost at: nat, p: Elem<V>) returns (nlink: Elem?<V>)
      requires Valid() && i < nhash && at < |chains[i]| && p == chains[i][at]
      ensures nlink == Link(chains[i], at + 1) && p.id in M
    {
      assert Bucket(i);
      nlink := p.link;
    }

    /** voidfid: the key goes through the 32 bits of a request; when it is found, the fid is deleted. */
    method VoidFid(ghost i: nat, ghost at: nat, p: Elem<V>, fuel: nat) returns (ended: bool, found: bool)
      requires Valid() && AllMade(M) && i < nhash && at < |chains[i]| && p == chains[i][at]
      modifies this`chains, this`M, hash, repr
      ensures Valid() && SameBut(old(chains), chains, i) && found == !High(p.id)
      ensures !found ==> ended && M == old(M) && chains[i] == old(chains)[i]
      ensures found && ended ==> M == old(M) - {p.id} && chains[i] == old(chains)[i][..at] + old(chains)[i][at + 1..]
      ensures found && 0 < fuel ==> (ended <==> Returns(Ids(old(chains)[i]), p.id))
    {
      ended := true;
      var fid := p.id % 0x1_0000_0000;
      assert Bucket(i);
      assert p.id in M && p.id % nhash == i;
      MadeTruncated(p.id);
      var v := Lookup(fid);
      found := v.Some?;
      if found {
        var r := DeleteAsWritten(fid, fuel);
        ended := r.Finished?;
      }
    }
  }

  /** The keys of a chain, in order. */
  ghost function Ids<V>(c: seq<Elem<V>>): seq<nat> {
    seq(|c|, i requires 0 <= i < |c| => c[i].id)
  }

  // ---------- when the loop of deletekey ends, as written ----------

  /** One iteration of the loop of deletekey on a chain whose head is not the key. */
  function Iteration(c: seq<nat>, id: nat): seq<nat> {
    if 1 < |c| && c[1] == id then [c[0]] + c[2..] else c
  }

  function Iterations(c: seq<nat>, id: nat, n: nat): seq<nat>
    decreases n
  {
    if n == 0 then c else Iterations(Iteration(c, id), id, n - 1)
  }

  lemma {:induction false} LastIteration(c: seq<nat>, id: nat, n: nat)
    ensures Iterations(c, id, n + 1) == Iteration(Iterations(c, id, n), id)
    decreases n
  {
    if n > 0 {
      LastIteration(Iteration(c, id), id, n - 1);
    }
  }

  /** The loop ends when elem->link is NULL. */
  ghost predicate LoopEnds(c: seq<nat>, id: nat) {
    exists n: nat :: |Iterations(c, id, n)| <= 1
  }

  /** The buckets on which deletekey returns: empty, the key at the head, a single element, or two
      elements with the key second. */
  predicate Returns(c: seq<nat>, id: nat) {
    |c| <= 1 || c[0] == id || (|c| == 2 && c[1] == id)
  }

  lemma {:induction false} Stuck(c: seq<nat>, id: nat, n: nat)
    requires 1 < |c| && c[1] != id
    ensures Iterations(c, id, n) == c
  {
    if n > 0 {
      Stuck(c, id, n - 1);
    }
  }

  /** After any positive number of iterations the loop has ended exactly on the buckets of Returns. */
  lemma DeleteReturnsWithin(c: seq<nat>, id: nat, n: nat)
    requires NoDuplicates(c) && c != [] && c[0] != id
    ensures |Iterations(c, id, n)| <= 1 ==> Returns(c, id)
    ensures 0 < n && Returns(c, id) ==> |Iterations(c, id, n)| <= 1
  {
    if n > 0 && 1 < |c| {
      if c[1] == id {
        var d := Iteration(c, id);
        if |c| == 2 {
          Single(d, id, n - 1);
        } else {
          assert d[1] == c[2];
          Stuck(d, id, n - 1);
        }
      } else {
        Stuck(c, id, n);
      }
    } else if |c| == 1 {
      Single(c, id, n);
    }
  }

  /** deletekey as written returns exactly on the buckets of Returns. */
  lemma DeleteReturnsExactly(c: seq<nat>, id: nat)
    requires NoDuplicates(c)
    ensures (c == [] || c[0] == id || LoopEnds(c, id)) <==> Returns(c, id)
  {
    if c != [] && c[0] != id {
      DeleteReturnsWithin(c, id, 1);
      if n: nat :| |Iterations(c, id, n)| <= 1 {
        DeleteReturnsWithin(c, id, n);
      }
    }
  }

  lemma {:induction false} Single(c: seq<nat>, id: nat, n: nat)
    requires |c| == 1
    ensures Iterations(c, id, n) == c
  {
    if n > 0 {
      Single(c, id, n - 1);
    }
  }

  /** A bucket of three keys on which deleting the second never returns. */
  lemma DeleteSecondOfThreeHangs()
    ensures !LoopEnds([1, 62, 123], 62)
  {
    DeleteReturnsExactly([1, 62, 123], 62);
  }

  // ---------- the sweep over keys of which some are not found again ----------

  /** The keys under which createfid enters fids: of 31 bits, or the sign extension of 32. */
  predicate Made(k: nat) {
    k < 0x8000_0000 || 0xFFFF_FFFF_8000_0000 <= k < 0x1_0000_0000_0000_0000
  }

  ghost predicate AllMade<V>(m: map<nat, V>) {
    forall k :: k in m ==> Made(k)
  }

  predicate High(k: nat) { 0x8000_0000 <= k }

  /** The fid of a request for a high key is no key at all. */
  lemma MadeTruncated(k: nat)
    requires Made(k)
    ensures if High(k) then !Made(k % 0x1_0000_0000) else k % 0x1_0000_0000 == k
  {}

  ghost predicate AllHigh<V>(c: seq<Elem<V>>) {
    forall i :: 0 <= i < |c| ==> High(c[i].id)
  }

  /** Those of the first k elements of a chain that the sweep leaves. */
  ghost function Kept<V>(c: seq<Elem<V>>, k: nat): seq<Elem<V>>
    requires k <= |c|
  {
    if k == 0 then [] else Kept(c, k - 1) + (if High(c[k - 1].id) then [c[k - 1]] else [])
  }

  /** The high ones of the first k keys. */
  function Highs(c: seq<nat>, k: nat): seq<nat>
    requires k <= |c|
  {
    if k == 0 then [] else Highs(c, k - 1) + (if High(c[k - 1]) then [c[k - 1]] else [])
  }

  lemma {:induction false} KeptAreHigh<V>(c: seq<Elem<V>>, k: nat)
    requires k <= |c|
    ensures AllHigh(Kept(c, k))
  {
    if k > 0 {
      KeptAreHigh(c, k - 1);
    }
  }

  lemma KeptNothing<V>(c: seq<Elem<V>>)
    ensures Kept(c, 0) + c[0..] == c
  {}

  lemma KeptAll<V>(c: seq<Elem<V>>)
    ensures AllHigh(Kept(c, |c|) + c[|c|..])
  {
    KeptAreHigh(c, |c|);
  }

  lemma {:induction false} KeptIds<V>(c: seq<Elem<V>>, k: nat)
    requires k <= |c|
    ensures Ids(Kept(c, k)) == Highs(Ids(c), k)
  {
    if k > 0 {
      KeptIds(c, k - 1);
    }
  }

  /** The k-th element where the sweep meets it, and the chain without it. */
  lemma KeptNext<V>(c: seq<Elem<V>>, k: nat)
    requires k < |c|
    ensures var d, at := Kept(c, k) + c[k..], |Kept(c, k)|;
            && at < |d| && d[at] == c[k] && Link(d, at + 1) == Link(c, k + 1)
            && (if High(c[k].id) then d else d[..at] + d[at + 1..]) == Kept(c, k + 1) + c[k + 1..]
  {
    var d, at := Kept(c, k) + c[k..], |Kept(c, k)|;
    assert d[..at] == Kept(c, k) && d[at + 1..] == c[k + 1..];
    assert Kept(c, k) + [c[k]] + c[k + 1..] == d;
  }

  /** At which elements of a chain the callback returns. */
  ghost predicate Judged<V>(c: seq<Elem<V>>, ends: seq<bool>) {
    |ends| == |c| && forall k :: 0 <= k < |c| ==> JudgedOne(c, ends, k)
  }

  ghost predicate JudgedOne<V>(c: seq<Elem<V>>, ends: seq<bool>, k: nat)
    requires k < |c| == |ends|
  {
    ends[k] <==> EndsAt(Ids(c), k)
  }

  lemma Judge<V>(c: seq<Elem<V>>) returns (ends: seq<bool>)
    ensures Judged(c, ends) && (false !in ends <==> SweepEnds(Ids(c)))
  {
    var ids := Ids(c);
    ends := seq(|c|, k requires 0 <= k < |c| => EndsAt(ids, k));
    assert forall k :: 0 <= k < |c| ==> JudgedOne(c, ends, k);
    if false !in ends {
      forall k | 0 <= k < |c| ensures EndsAt(ids, k) {
        assert ends[k] in ends;
      }
    } else {
      var k :| 0 <= k < |ends| && !ends[k];
      assert !EndsAt(ids, k);
    }
  }

  lemma JudgedAt<V>(c: seq<Elem<V>>, ends: seq<bool>, k: nat)
    requires Judged(c, ends) && k < |c|
    ensures ends[k] <==> High(c[k].id) || Returns(Ids(Kept(c, k) + c[k..]), c[k].id)
  {
    assert JudgedOne(c, ends, k);
    KeptIds(c, k);
    IdsOf(c, k);
  }

  lemma IdsOf<V>(c: seq<Elem<V>>, k: nat)
    requires k <= |c|
    ensures Ids(Kept(c, k) + c[k..]) == Ids(Kept(c, k)) + Ids(c)[k..]
  {}

  /** The map m comes from m0 by destroying the low keys listed. */
  ghost predicate Destroyed<V>(m0: map<nat, V>, m: map<nat, V>, destroyed: seq<nat>) {
    NoDuplicates(destroyed) && forall k: nat :: DestroyedAt(m0, m, destroyed, k)
  }

  ghost predicate DestroyedAt<V>(m0: map<nat, V>, m: map<nat, V>, destroyed: seq<nat>, k: nat) {
    && (k in destroyed ==> k in m0 && k !in m && !High(k))
    && (k in m0 && k !in destroyed ==> k in m && m[k] == m0[k])
    && (k in m ==> k in m0)
  }

  lemma StillMade<V>(m0: map<nat, V>, m: map<nat, V>, destroyed: seq<nat>)
    requires Destroyed(m0, m, destroyed) && AllMade(m0)
    ensures AllMade(m)
  {
    forall k | k in m ensures Made(k) {
      assert DestroyedAt(m0, m, destroyed, k);
    }
  }

  /** At the k-th key of a chain the callback returns: a high key is not found, and a low one is deleted
      from the high ones kept so far and the rest. */
  predicate EndsAt(c: seq<nat>, k: nat)
    requires k < |c|
  {
    High(c[k]) || Returns(Highs(c, k) + c[k..], c[k])
  }

  predicate SweepEnds(c: seq<nat>) {
    forall k :: 0 <= k < |c| ==> EndsAt(c, k)
  }

  ghost predicate AllEnd<V>(chains: seq<seq<Elem<V>>>, n: nat)
    requires n <= |chains|
  {
    forall h :: 0 <= h < n ==> SweepEnds(Ids(chains[h]))
  }

  ghost predicate HighUpTo<V>(chains: seq<seq<Elem<V>>>, n: nat)
    requires n <= |chains|
  {
    forall h :: 0 <= h < n ==> AllHigh(chains[h])
  }

  ghost predicate SameFrom<V>(a: seq<seq<Elem<V>>>, b: seq<seq<Elem<V>>>, n: nat) {
    |a| == |b| && forall h :: n <= h < |a| ==> a[h] == b[h]
  }

  /** The low keys come first. */
  predicate LowFirst(c: seq<nat>) {
    forall i, j :: 0 <= i < j < |c| && High(c[i]) ==> High(c[j])
  }

  /** There is one high key, the last but one. */
  predicate HighLastButOne(c: seq<nat>) {
    2 <= |c| && forall i :: 0 <= i < |c| ==> (High(c[i]) <==> i == |c| - 2)
  }

  lemma {:induction false} HighsNone(c: seq<nat>, k: nat)
    requires k <= |c|
    ensures Highs(c, k) == [] <==> forall i :: 0 <= i < k ==> !High(c[i])
    ensures forall x :: x in Highs(c, k) ==> exists i :: 0 <= i < k && c[i] == x
  {
    if k > 0 {
      HighsNone(c, k - 1);
    }
  }

  lemma {:induction false} HighsOne(c: seq<nat>, k: nat, i: nat)
    requires i < k <= |c| && High(c[i])
    ensures |Highs(c, k)| == 1 <==> forall j :: 0 <= j < k && j != i ==> !High(c[j])
    ensures Highs(c, k) != []
  {
    HighsNone(c, k - 1);
    if i < k - 1 {
      HighsOne(c, k - 1, i);
    }
  }

  lemma EndsAtExactly(c: seq<nat>, k: nat)
    requires NoDuplicates(c) && k < |c| && !High(c[k])
    ensures EndsAt(c, k) <==> Highs(c, k) == [] || (|Highs(c, k)| == 1 && k == |c| - 1)
  {
    var h := Highs(c, k);
    HighsNone(c, k);
    if h != [] {
      assert h[0] in h;
      assert (h + c[k..])[0] == h[0] != c[k];
      assert |h| == 1 ==> (h + c[k..])[1] == c[k];
    }
  }

  /** The sweep of a bucket returns exactly when its low keys come first, or it has one high key, the last
      but one. */
  lemma SweepEndsExactly(c: seq<nat>)
    requires NoDuplicates(c)
    ensures SweepEnds(c) <==> LowFirst(c) || HighLastButOne(c)
  {
    if SweepEnds(c) && !LowFirst(c) {
      var i, j :| 0 <= i < j < |c| && High(c[i]) && !High(c[j]);
      LowAfterHigh(c, i, j);
    }
    if LowFirst(c) || HighLastButOne(c) {
      forall k | 0 <= k < |c| ensures EndsAt(c, k) {
        if !High(c[k]) {
          EndsAtExactly(c, k);
          HighsNone(c, k);
          if HighLastButOne(c) && k == |c| - 1 {
            HighsOne(c, k, k - 1);
          }
        }
      }
    }
  }

  lemma LowAfterHigh(c: seq<nat>, i: nat, j: nat)
    requires NoDuplicates(c) && SweepEnds(c) && i < j < |c| && High(c[i]) && !High(c[j])
    ensures HighLastButOne(c)
  {
    assert EndsAt(c, j);
    EndsAtExactly(c, j);
    HighsOne(c, j, i);
    if i < j - 1 {
      HighsOne(c, j - 1, i);
      assert EndsAt(c, j - 1);
      EndsAtExactly(c, j - 1);
    }
  }

  /** A bucket on which cleanup never returns: a fid of 2^31 or more, and two below. */
  lemma SweepHangs(h: nat, a: nat, b: nat)
    requires High(h) && !High(a) && !High(b) && a != b
    ensures !SweepEnds([h, a, b])
  {
    SweepEndsExactly([h, a, b]);
    assert High([h, a, b][0]) && !High([h, a, b][1]) && !High([h, a, b][2]);
  }

  lemma DestroyedOne<V>(m0: map<nat, V>, m: map<nat, V>, destroyed: seq<nat>, id: nat)
    requires Destroyed(m0, m, destroyed) && id in m && !High(id)
    ensures Destroyed(m0, m - {id}, destroyed + [id])
  {
    assert DestroyedAt(m0, m, destroyed, id);
    forall k: nat ensures DestroyedAt(m0, m - {id}, destroyed + [id], k) {
      assert DestroyedAt(m0, m, destroyed, k);
    }
  }

  lemma DestroyedNone<V>(m: map<nat, V>)
    ensures Destroyed(m, m, [])
  {}

  /** What Destroyed comes to: the keys listed once each are those of m0 that m has not, all of them low. */
  lemma DestroyedMeans<V>(m0: map<nat, V>, m: map<nat, V>, destroyed: seq<nat>)
    requires Destroyed(m0, m, destroyed)
    ensures NoDuplicates(destroyed) && forall k :: k in destroyed ==> k in m0 && !High(k)
    ensures forall k :: k in m <==> k in m0 && k !in destroyed
    ensures forall k :: k in m ==> m[k] == m0[k]
  {
    forall k: nat
      ensures k in destroyed ==> k in m0 && !High(k)
      ensures k in m <==> k in m0 && k !in destroyed
      ensures k in m ==> m[k] == m0[k]
    {
      assert DestroyedAt(m0, m, destroyed, k);
    }
  }
}
