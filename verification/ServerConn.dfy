/** The server's side of a connection as it changes in place (libmixp/request.c): the fid and tag
    maps, the reference count and the size of the buffers. */
module ServerConn {
  import opened Common
  import opened Wire
  import opened Fids
  import opened Requests
  import opened RequestRuns
  import I = IntMap

  class Conn {
    var tagmap: map<u16, Tmsg>
    var fidmap: map<u64, Fid>
    const srv: set<u8>           // the types that have a function, besides attach
    var connected: bool
    var ref: int
    var size: u32                // of rmsg and wmsg
    ghost var born: map<u16, nat>
    ghost var log: seq<Event>
    ghost var kept: nat          // references of requests and of fids that could not be made

    constructor (srv: set<u8>)
      ensures State() == INIT && Counted() && this.srv == srv && connected && ref == 1 && kept == 0 && size == 1024
    {
      this.srv, tagmap, fidmap, connected, ref, size := srv, map[], map[], true, 1, 1024;
      born, log, kept := map[], [], 0;
    }

    ghost function State(): Server
      reads this
    {
      Server(fidmap, tagmap, born, log)
    }

    /** Every reference is held by the connection, a fid, or something that never gives it back. */
    ghost predicate Counted()
      reads this
    {
      ref == 1 + |fidmap| + kept
    }

    // ---------- fids ----------

    /** createfid: the reference is taken even when the fid exists. */
    method CreateFid(fid: u32) returns (made: bool)
      requires Counted()
      modifies this`ref, this`fidmap, this`kept
      ensures Counted() && made == (Key(fid) !in old(fidmap))
      ensures fidmap == if made then old(fidmap)[Key(fid) := NEW_FID] else old(fidmap)
      ensures kept == old(kept) + (if made then 0 else 1)
    {
      ref := ref + 1;
      made := Key(fid) !in fidmap;
      if made {
        fidmap := fidmap[Key(fid) := NEW_FID];
      } else {
        kept := kept + 1;
      }
    }

    /** destroyfid: while the connection is there, giving back a fid's reference never frees it. */
    method DestroyFid(fid: u64) returns (found: bool)
      requires Counted()
      modifies this`ref, this`fidmap
      ensures Counted() && found == (fid in old(fidmap)) && fidmap == old(fidmap) - {fid} && ref > 0
    {
      found := fid in fidmap;
      if found {
        OneLess(fidmap, fid);
        fidmap := fidmap - {fid};
        ref := ref - 1;
      } else {
        NotThere(fidmap, fid);
      }
    }

    // ---------- mixp_respond ----------

    /** The cases of mixp_respond that concern fids, for a request whose fids are set. */
    method Settle(m: Tmsg, o: Outcome) returns (error: Option<Error>)
      requires Counted() && Uses(m) <= fidmap.Keys && !m.Tflush?
      modifies this`ref, this`fidmap, this`size
      ensures Counted() && fidmap == Settled(old(fidmap), m, o) && error == ReplyError(m, o)
      ensures size == if m.Tversion? then Negotiated(m.msize) else old(size)
    {
      error := o.error;
      if m.Tversion? {
        SetSize(m.msize);
      }
      assert !m.Twalk? ==> ReplyError(m, o) == o.error;
      if m.Tattach? {
        SettleAttach(m, o);
      } else if m.Topen? || m.Tcreate? {
        SettleOpen(m, o);
      } else if m.Twalk? {
        error := SettleWalk(m, o);
      } else {
        SettleRest(m, o);
      }
    }

    method SettleRest(m: Tmsg, o: Outcome)
      requires Counted() && !m.Tattach? && !m.Topen? && !m.Tcreate? && !m.Twalk?
      modifies this`ref, this`fidmap
      ensures Counted() && fidmap == Settled(old(fidmap), m, o) && o.error == ReplyError(m, o)
    {
      NoChange(fidmap, m, o);
      if m.Tclunk? || m.Tremove? {
        var _ := DestroyFid(m.fid);
      }
    }

    method SettleAttach(m: Tmsg, o: Outcome)
      requires Counted() && m.Tattach? && Key(m.fid) in fidmap
      modifies this`ref, this`fidmap
      ensures Counted() && fidmap == Settled(old(fidmap), m, o)
    {
      SettledCases(fidmap, m, o);
      if o.error != None {
        var _ := DestroyFid(Key(m.fid));
      } else {
        SameSize(fidmap, Key(m.fid), fidmap[Key(m.fid)].(qid := o.qid));
        fidmap := fidmap[Key(m.fid) := fidmap[Key(m.fid)].(qid := o.qid)];   // by the handler
      }
    }

    method SettleOpen(m: Tmsg, o: Outcome)
      requires Counted() && (m.Topen? || m.Tcreate?) && m.fid in fidmap
      modifies this`fidmap
      ensures Counted() && fidmap == Settled(old(fidmap), m, o)
    {
      SettledCases(fidmap, m, o);
      if o.error == None {
        SameSize(fidmap, m.fid, Fid(Signed(m.mode), o.qid));
        fidmap := fidmap[m.fid := Fid(Signed(m.mode), o.qid)];
      }
    }

    method SettleWalk(m: Tmsg, o: Outcome) returns (error: Option<Error>)
      requires Counted() && m.Twalk? && Uses(m) <= fidmap.Keys
      modifies this`ref, this`fidmap
      ensures Counted() && fidmap == Settled(old(fidmap), m, o) && error == ReplyError(m, o)
    {
      SettledCases(fidmap, m, o);
      error := o.error;
      if error != None || |o.wqids| < m.nwname {
        if m.fid != m.newfid {
          var _ := DestroyFid(Key(m.newfid));
        }
        if error == None && |o.wqids| == 0 {
          error := Some(Nofile);
        }
      } else {
        var q := if |o.wqids| == 0 then fidmap[m.fid].qid else o.wqids[|o.wqids| - 1];
        SameSize(fidmap, Target(m), fidmap[Target(m)].(qid := q));
        fidmap := fidmap[Target(m) := fidmap[Target(m)].(qid := q)];
      }
    }

    method SetSize(asked: u32)
      modifies this`size
      ensures size == Negotiated(asked)
    {
      var n: u32 := if asked == 0 then MAX_MSG else asked;
      var msize := Min(ToInt(n), ToInt(MAX_MSG));
      if msize < 1 {
        msize := MAX_MSG;
      }
      size := msize;
    }

    /** mixp_respond, for a request whose handler was called or that needs none. */
    method Respond(tag: u16, o: Outcome)
      requires Counted() && Sound(State()) && tag in tagmap && tag in born
      modifies this`ref, this`fidmap, this`tagmap, this`size, this`born, this`log
      ensures Counted() && Sound(State()) && State() == Answer(old(State()), tag, o)
      decreases born[tag], 1
    {
      var m := tagmap[tag];
      AnswerStep(State(), tag, o);
      if m.Tflush? {
        RespondFlush(tag, o);
      } else {
        var error := Settle(m, o);
        Send(tag, m, Answered(m, o), error);
      }
    }

    /** The flush calls mixp_respond again for the request it flushes; this ends because that one was
        admitted before it. */
    method RespondFlush(tag: u16, o: Outcome)
      requires Counted() && Sound(State()) && tag in tagmap && tag in born && tagmap[tag].Tflush?
      modifies this`ref, this`fidmap, this`tagmap, this`size, this`born, this`log
      ensures Counted() && State() == Answer(old(State()), tag, o)
      decreases born[tag], 0
    {
      var m := tagmap[tag];
      AnswerStep(State(), tag, o);
      if m.oldtag in tagmap {
        Respond(m.oldtag, Fail(Intr));
      }
      NoChange(fidmap, m, o);
      Send(tag, m, Answered(m, o), o.error);
    }

    // ---------- handlereq ----------

    /** The checks of handlereq, in their order, and the fid it makes. */
    method Enter(m: Tmsg) returns (e: Option<Error>)
      requires Counted()
      modifies this`ref, this`fidmap, this`kept
      ensures Counted() && e == RefusalOf(old(State()), m)
      ensures fidmap == if e == None then Entered(old(fidmap), m) else old(fidmap)
      ensures kept == old(kept) + (if e == Some(Dupfid) then 1 else 0)
    {
      EnteredCases(fidmap, m);
      e := None;
      if m.Tother? {
        e := Some(Nofunc);
      } else if m.Tflush? {
        if m.oldtag !in tagmap {
          e := Some(Notag);
        }
      } else if m.Tattach? {
        var made := CreateFid(m.fid);
        if !made {
          e := Some(Dupfid);
        }
      } else if m.Twalk? {
        e := EnterWalk(m);
      } else if !m.Tversion? {
        e := CheckFid(m);
      }
    }

    method CheckFid(m: Tmsg) returns (e: Option<Error>)
      requires !m.Tversion? && !m.Tflush? && !m.Tother? && !m.Tattach? && !m.Twalk?
      ensures e == Refusal(fidmap, m)
    {
      if m.fid !in fidmap {
        return Some(Nofid);
      }
      var f := fidmap[m.fid];
      if m.Tcreate? {
        if f.omode != -1 {
          return Some(Botch);
        }
        if !IsDir(f.qid) {
          return Some(Notdir);
        }
      } else if m.Topen? && IsDir(f.qid) && m.mode != 0 && m.mode != 64 {
        return Some(Isdir);
      } else if m.Tread? && (f.omode == -1 || f.omode == 1) {
        return Some(Botch);
      } else if m.Twrite? && f.omode % 4 != 1 && f.omode % 4 != 2 {
        return Some(NotWritable);
      }
      return None;
    }

    method EnterWalk(m: Tmsg) returns (e: Option<Error>)
      requires Counted() && m.Twalk?
      modifies this`ref, this`fidmap, this`kept
      ensures Counted() && e == Refusal(old(fidmap), m)
      ensures fidmap == if e == None then Entered(old(fidmap), m) else old(fidmap)
      ensures kept == old(kept) + (if e == Some(Dupfid) then 1 else 0)
    {
      EnteredCases(fidmap, m);
      if m.fid !in fidmap {
        return Some(Nofid);
      }
      if fidmap[m.fid].omode != -1 {
        return Some(WalkOpen);
      }
      if m.nwname > 0 && !IsDir(fidmap[m.fid].qid) {
        return Some(Notdir);
      }
      if m.fid != m.newfid {
        var made := CreateFid(m.newfid);
        if !made {
          return Some(Dupfid);
        }
      }
      return None;
    }

    /** handlereq, for a request just entered in the tag map. h is what its handler does. */
    method HandleReq(tag: u16, m: Tmsg, h: Option<Outcome>)
      requires Counted() && tag in tagmap && tag in born && tagmap[tag] == m
      requires RefusalOf(State(), m) == None ==> Sound(Entry(State(), srv, m))
      modifies this`ref, this`fidmap, this`tagmap, this`size, this`born, this`log, this`kept
      ensures Counted() && State() == Proceed(old(State()), srv, tag, h)
      ensures kept == old(kept) + (if RefusalOf(old(State()), m) == Some(Dupfid) then 1 else 0)
    {
      ghost var s := State();
      var e := Enter(m);
      assert State() == s.(fids := fidmap);
      if e != None {
        SendError(tag, m, e.value);
      } else {
        assert State().(log := log + EntryEvents(srv, m)) == Entry(s, srv, m);
        Dispatch(tag, m, h);
      }
    }

    /** mixp_respond for a request whose fids are not set. */
    method SendError(tag: u16, m: Tmsg, e: Error)
      requires tag in tagmap && tagmap[tag] == m
      modifies this`tagmap, this`born, this`log
      ensures State() == Refuse(old(State()), tag, e)
    {
      Send(tag, m, [], Some(e));
      assert old(log) + [] == old(log);
    }

    /** The handler is called, or there is none. */
    method Dispatch(tag: u16, m: Tmsg, h: Option<Outcome>)
      requires Counted() && tag in tagmap && tag in born && tagmap[tag] == m
      requires Sound(State().(log := log + EntryEvents(srv, m)))
      modifies this`ref, this`fidmap, this`tagmap, this`size, this`born, this`log
      ensures Counted()
      ensures State() == Handled(old(State().(log := log + EntryEvents(srv, m))), srv, tag, h)
    {
      log := log + EntryEvents(srv, m);
      var o := Effective(srv, m, h);
      if o.Some? {
        Respond(tag, o.value);
      }
    }

    /** handlefcall, once a message is received. A request under a tag in use is answered with an
        error, and the tag is deleted. */
    method HandleFcall(tag: u16, m: Tmsg, h: Option<Outcome>)
      requires Counted() && Sound(State())
      requires if tag in tagmap then !m.Tversion? && !m.Tattach? else Allowed(State(), Receiving(tag, m, h))
      modifies this`ref, this`fidmap, this`tagmap, this`size, this`born, this`log, this`kept
      ensures Counted() && KeysMade(fidmap) && (tag !in old(tagmap) ==> Sound(State()))
      ensures State() == if tag in old(tagmap) then Duplicate(old(State()), tag, m)
                         else Receive(old(State()), srv, tag, m, h)
      ensures kept == if tag in old(tagmap) then old(kept)
                      else old(kept) + 1 + (if RefusalOf(old(State()), m) == Some(Dupfid) then 1 else 0)
    {
      ref := ref + 1;
      kept := kept + 1;
      if tag in tagmap {
        RefuseDuplicate(tag, m);
        ref := ref - 1;
        kept := kept - 1;
      } else {
        ghost var s := State();
        ReceiveStep(s, srv, tag, m);
        ReceiveSound(s, srv, tag, m, h);
        HandleNew(tag, m, h);
        SoundKeys(State());
      }
    }

    /** The request is entered under its tag. */
    method HandleNew(tag: u16, m: Tmsg, h: Option<Outcome>)
      requires Counted()
      requires var s1 := Admitted(State(), tag, m); RefusalOf(s1, m) == None ==> Sound(Entry(s1, srv, m))
      modifies this`ref, this`fidmap, this`tagmap, this`size, this`born, this`log, this`kept
      ensures Counted() && State() == Receive(old(State()), srv, tag, m, h)
      ensures kept == old(kept) + (if RefusalOf(Admitted(old(State()), tag, m), m) == Some(Dupfid) then 1 else 0)
    {
      born := born[tag := |log|];
      tagmap := tagmap[tag := m];
      log := log + [Admit(tag, m)];
      HandleReq(tag, m, h);
    }

    /** mixp_respond with Eduptag: no fid is set, but a flush flushes. */
    method RefuseDuplicate(tag: u16, m: Tmsg)
      requires Counted() && Sound(State()) && tag in tagmap && !m.Tversion? && !m.Tattach?
      modifies this`ref, this`fidmap, this`tagmap, this`size, this`born, this`log
      ensures Counted() && KeysMade(fidmap) && State() == Duplicate(old(State()), tag, m)
    {
      if m.Tflush? && m.oldtag in tagmap {
        DuplicateStep(State(), tag, m);
        Respond(m.oldtag, Fail(Intr));
      }
      SoundKeys(State());
      Send(tag, m, [], Some(Duptag));
    }

    /** The end of mixp_respond: the tag is deleted and the reply sent. */
    method Send(tag: u16, m: Tmsg, ghost events: seq<Event>, error: Option<Error>)
      modifies this`tagmap, this`born, this`log
      ensures tagmap == old(tagmap) - {tag} && born == old(born) - {tag}
      ensures log == old(log) + events + [ReplyTo(tag, m, error)]
    {
      tagmap := tagmap - {tag};
      born := born - {tag};
      log := log + events + [ReplyTo(tag, m, error)];
    }

    // ---------- cleanupconn ----------

    /** voidfid: a clunk of the server's own, answered at once; nothing is sent. The fid goes through
        the 32 bits of a request, so that one of 2^31 or more is not found again. */
    method VoidFid(key: u64) returns (destroyed: bool)
      requires Counted() && KeysMade(fidmap) && key in fidmap && tagmap == map[]
      modifies this`ref, this`fidmap, this`kept
      ensures Counted() && kept == old(kept) + 1 && destroyed == (key < 0x8000_0000)
      ensures fidmap == if destroyed then old(fidmap) - {key} else old(fidmap)
    {
      ref := ref + 1;
      kept := kept + 1;
      var fid := key % 0x1_0000_0000;
      destroyed := DestroyFid(fid);
    }

    /** cleanupconn, with no request pending and clunk answered at once, over the hash map that holds the
        fids; deletekey is the one as written, allowed at most fuel iterations each time. With fuel to
        spare it ends exactly when the sweep of every bucket does; then every fid below 2^31 was destroyed
        once, and the connection's memory is given back exactly when no reference was kept and no fid was
        left, that is, when nothing was ever admitted. */
    method Cleanup(table: I.IntMap<Fid>, fuel: nat) returns (ended: bool, destroyed: seq<nat>, gone: bool)
      requires Counted() && tagmap == map[] && KeysMade(fidmap) && table.Valid() && Holds(table.M, fidmap)
      modifies this`ref, this`fidmap, this`kept, this`connected
      modifies table`chains, table`M, table.hash, table.repr
      ensures !connected && table.Valid()
      ensures 0 < fuel ==> (ended <==> I.AllEnd(old(table.chains), table.nhash))
      ensures ended ==> NoDuplicates(destroyed) && forall f :: f in destroyed <==> f in old(fidmap) && f < 0x8000_0000
      ensures ended ==> forall f :: f in fidmap <==> f in old(fidmap) && 0x8000_0000 <= f
      ensures ended ==> ref == old(kept) + |old(fidmap)| + |fidmap| && Holds(table.M, fidmap)
      ensures ended ==> (gone <==> old(kept) == 0 && old(fidmap) == map[])
    {
      connected := false;
      ended, destroyed, gone := true, [], false;
      if ref > 1 {
        HeldMade(table.M, fidmap);
        ended, destroyed := table.Sweep(fuel);
        if !ended {
          return;
        }
        VoidAll(destroyed);
      } else {
        NoneLeft(fidmap);
        HeldNone(table.M, fidmap);
        table.EmptyEnds();
      }
      ref := ref - 1;
      gone := ref <= 0;
    }

    /** What the sweep's calls of voidfid do to the connection: those that were found, and the others. */
    method VoidAll(destroyed: seq<nat>)
      requires Counted() && tagmap == map[] && KeysMade(fidmap)
      requires NoDuplicates(destroyed) && forall k: nat :: k in destroyed <==> k < 0x8000_0000 && k in fidmap
      modifies this`ref, this`fidmap, this`kept
      ensures Counted() && kept == old(kept) + |old(fidmap)|
      ensures forall f :: f in fidmap <==> f in old(fidmap) && 0x8000_0000 <= f
      ensures forall f :: f in fidmap ==> fidmap[f] == old(fidmap)[f]
    {
      ghost var F, kept0 := fidmap, kept;
      var i := 0;
      while i < |destroyed|
        invariant i <= |destroyed| && Counted() && tagmap == map[] && KeysMade(fidmap)
        invariant LeftAfter(F, fidmap, destroyed, i) && kept + |fidmap| == kept0 + |F|
      {
        StillThere(F, fidmap, destroyed, i);
        OneLess(fidmap, destroyed[i]);
        var _ := VoidFid(destroyed[i]);
        i := i + 1;
      }
      AllAfter(F, fidmap, destroyed);
      VoidOthers();
    }

    method VoidOthers()
      requires Counted() && tagmap == map[] && KeysMade(fidmap) && forall f :: f in fidmap ==> 0x8000_0000 <= f
      modifies this`ref, this`fidmap, this`kept
      ensures Counted() && fidmap == old(fidmap) && kept == old(kept) + |fidmap|
    {
      var todo := fidmap.Keys;
      while todo != {}
        invariant Counted() && tagmap == map[] && fidmap == old(fidmap) && todo <= fidmap.Keys
        invariant kept + |todo| == old(kept) + |fidmap|
        decreases todo
      {
        var f :| f in todo;
        var _ := VoidFid(f);
        todo := todo - {f};
      }
    }
  }

  /** The hash map holds the fids. */
  ghost predicate Holds(m: map<nat, Fid>, fids: FidMap) {
    && (forall k :: k in m ==> k < 0x1_0000_0000_0000_0000 && k in fids && m[k] == fids[k])
    && forall f :: f in fids ==> f in m
  }

  lemma HeldMade(m: map<nat, Fid>, fids: FidMap)
    requires Holds(m, fids) && KeysMade(fids)
    ensures I.AllMade(m)
  {}

  lemma HeldNone(m: map<nat, Fid>, fids: FidMap)
    requires Holds(m, fids) && fids == map[]
    ensures m == map[]
  {}

  /** m is F without the first i of the keys. */
  ghost predicate LeftAfter(F: FidMap, m: FidMap, keys: seq<nat>, i: nat)
    requires i <= |keys|
  {
    && (forall f :: f in m <==> f in F && forall j :: 0 <= j < i ==> keys[j] != f)
    && forall f :: f in m ==> m[f] == F[f]
  }

  lemma StillThere(F: FidMap, m: FidMap, keys: seq<nat>, i: nat)
    requires i < |keys| && LeftAfter(F, m, keys, i) && NoDuplicates(keys)
    requires forall k: nat :: k in keys <==> k < 0x8000_0000 && k in F
    ensures keys[i] < 0x8000_0000 && keys[i] in m && LeftAfter(F, m - {keys[i]}, keys, i + 1)
  {
    assert keys[i] in keys;
  }

  lemma AllAfter(F: FidMap, m: FidMap, keys: seq<nat>)
    requires LeftAfter(F, m, keys, |keys|) && KeysMade(F)
    requires forall k: nat :: k in keys <==> k < 0x8000_0000 && k in F
    ensures forall f :: f in m <==> f in F && 0x8000_0000 <= f
  {
    forall f: u64 ensures f in m <==> f in F && 0x8000_0000 <= f {
      if f in F && f < 0x8000_0000 {
        assert f in keys;
      }
    }
  }

  lemma SoundKeys(s: Server)
    requires Sound(s)
    ensures KeysMade(s.fids)
  {
    assert Inv(s);
  }

  lemma EnteredCases(fids: FidMap, m: Tmsg)
    ensures m.Tattach? ==> Entered(fids, m) == fids[Key(m.fid) := NEW_FID]
    ensures m.Twalk? ==> Entered(fids, m) == if m.fid != m.newfid then fids[Key(m.newfid) := NEW_FID] else fids
    ensures !m.Tattach? && !m.Twalk? ==> Entered(fids, m) == fids
  {}

  lemma SameSize(fids: FidMap, k: u64, f: Fid)
    requires k in fids
    ensures |fids[k := f]| == |fids|
  {
    assert fids[k := f].Keys == fids.Keys;
    assert |fids[k := f]| == |fids[k := f].Keys| && |fids| == |fids.Keys|;
  }

  lemma NoneLeft(fids: FidMap)
    requires |fids| == 0
    ensures fids == map[]
  {}

  lemma NotThere(fids: FidMap, k: u64)
    requires k !in fids
    ensures fids - {k} == fids
  {}

  lemma OneLess<T>(m: map<u64, T>, k: u64)
    requires k in m
    ensures |m| == |m - {k}| + 1
  {
    assert (m - {k}).Keys == m.Keys - {k};
    assert |m| == |m.Keys| && |m - {k}| == |(m - {k}).Keys|;
  }

  /** Inv, in a form that is opened only by AnswerStep. */
  ghost predicate Sound(s: Server) {
    forall x :: x == s ==> Inv(x)
  }

  /** The step of the recursion. */
  lemma AnswerStep(s: Server, tag: u16, o: Outcome)
    requires Sound(s) && tag in s.tags
    ensures Sound(Answer(s, tag, o)) && Uses(s.tags[tag]) <= s.fids.Keys && tag in s.born
    ensures match Flushed(s.tags, tag)
            case None => Answer(s, tag, o) == Finish(s, tag, o)
            case Some(prior) =>
              && prior in s.born && s.born[prior] < s.born[tag]
              && tag in Answer(s, prior, Fail(Intr)).tags && Answer(s, prior, Fail(Intr)).tags[tag] == s.tags[tag]
              && Answer(s, tag, o) == Finish(Answer(s, prior, Fail(Intr)), tag, o)
  {
    assert Inv(s);
    AnswerKeeps(s, tag, o);
    match Flushed(s.tags, tag)
    case None =>
      assert Chain(s.tags, tag) == [tag] && [tag][1..] == [];
      assert AnswerAll(s, [], Fail(Intr)) == s;
    case Some(prior) =>
      ChainUnfolds(s.tags, s.born, tag);
      AnswerKeeps(s, prior, Fail(Intr));
      assert ([tag] + Chain(s.tags, prior))[1..] == Chain(s.tags, prior);
  }

  /** What HandleReq starts from. */
  lemma ReceiveStep(s: Server, ops: set<u8>, tag: u16, m: Tmsg)
    requires Sound(s) && Allowed(s, Receiving(tag, m, None))
    ensures var s1 := Admitted(s, tag, m);
            && RefusalOf(s1, m) == RefusalOf(s, m)
            && (RefusalOf(s, m) == None ==> Sound(Entry(s1, ops, m)))
  {
    assert Inv(s);
    if RefusalOf(s, m) == None {
      EntryKeeps(s, ops, tag, m);
    }
  }

  lemma ReceiveSound(s: Server, ops: set<u8>, tag: u16, m: Tmsg, h: Option<Outcome>)
    requires Sound(s) && Allowed(s, Receiving(tag, m, h))
    ensures Sound(Receive(s, ops, tag, m, h))
  {
    assert Inv(s);
    ReceiveKeeps(s, ops, tag, m, h);
  }

  lemma DuplicateStep(s: Server, tag: u16, m: Tmsg)
    requires Sound(s) && m.Tflush? && m.oldtag in s.tags
    ensures m.oldtag in s.born
  {
    assert Inv(s);
  }
}
