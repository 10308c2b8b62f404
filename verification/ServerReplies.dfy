/** What the server makes of each request (libmixp/request.c), by the numbers of intro(5): when its
    handler is called, with which error it is refused, and what its answer leaves in the reply and in the
    fid table. Stated on the log and the table alone, for every state that a run can reach. */
module ServerReplies {
  import opened Common
  import opened Wire
  import opened Fids
  import opened Requests
  import opened RequestRuns

  /** Nothing came of the request but a reply with an error. */
  ghost predicate Refused(s: Server, s': Server, tag: u16, m: Tmsg, e: Error) {
    s' == s.(log := s.log + [Admit(tag, m), Reply(tag, 107, Some(e))])
  }

  /** The request is pending, the fids in made are there, unopened and at no file yet, and its handler was
      called. */
  ghost predicate Handed(s: Server, s': Server, tag: u16, m: Tmsg, made: set<u64>) {
    && s'.log == s.log + [Admit(tag, m), Created(made), Call(m)]
    && s'.tags == s.tags[tag := m] && s'.fids == s.fids + (map f | f in made :: Fid(-1, Qid(0, 0, 0)))
  }

  /** The request was answered, and the table is fids. */
  ghost predicate Replied(s': Server, tag: u16, typ: u8, error: Option<Error>, fids: FidMap) {
    tag !in s'.tags && s'.fids == fids && s'.log != [] && Last(s'.log) == Reply(tag, typ, error)
  }

  // ---------- which requests reach their handlers ----------

  lemma AnswerOne(s: Server, tag: u16, o: Outcome)
    requires tag in s.tags && Flushed(s.tags, tag) == None
    ensures Answer(s, tag, o) == Finish(s, tag, o)
  {
    assert Chain(s.tags, tag) == [tag] && [tag][1..] == [];
    assert AnswerAll(s, [], Fail(Intr)) == s;
  }

  /** In the terms of Fids. */
  lemma Taken(s: Server, ops: set<u8>, tag: u16, m: Tmsg)
    requires Inv(s) && tag !in s.tags && !m.Tflush? && !m.Tversion?
    ensures var s' := Receive(s, ops, tag, m, None);
            && (Handed(s, s', tag, m, Made(m)) <==> Refusal(s.fids, m) == None && (m.Tattach? || TypeOf(m) in ops))
            && (Refusal(s.fids, m).Some? ==> Refused(s, s', tag, m, Refusal(s.fids, m).value))
  {
    var s1 := Admitted(s, tag, m);
    match Refusal(s.fids, m)
    case Some(e) => RefusedState(s, tag, m, e);
    case None =>
      if m.Tattach? || TypeOf(m) in ops {
        assert Receive(s, ops, tag, m, None) == Entry(s1, ops, m);
      } else {
        OnTheSpot(s, ops, tag, m, None);
      }
  }

  /** Without a function a request is answered on the spot. */
  lemma OnTheSpot(s: Server, ops: set<u8>, tag: u16, m: Tmsg, h: Option<Outcome>)
    requires Inv(s) && tag !in s.tags && !m.Tflush? && Refusal(s.fids, m) == None
    requires m.Tversion? || !(m.Tattach? || TypeOf(m) in ops)
    ensures var s' := Receive(s, ops, tag, m, h); var o := if m.Tversion? || m.Tclunk? then DONE else Fail(Nofunc);
            && |s'.log| > |s.log| + 2 && !s'.log[|s.log| + 2].Call?
            && Replied(s', tag, if o.error == None then AckType(m) else 107, ReplyError(m, o), Served(s.fids, m, o))
  {
    var o := if m.Tversion? || m.Tclunk? then DONE else Fail(Nofunc);
    var s2 := Entry(Admitted(s, tag, m), ops, m);
    AnswerOne(s2, tag, o);
    assert Receive(s, ops, tag, m, h) == Finish(s2, tag, o);
    assert s2.log == s.log + [Admit(tag, m), Created(Made(m))];
  }

  /** A walk: from a fid that is not open, of names only from a directory, to a fid that is not in use. */
  lemma WalkTaken(s: Server, ops: set<u8>, tag: u16, f: u32, newfid: u32, n: u16)
    requires Inv(s) && tag !in s.tags
    ensures var m := Twalk(f, newfid, n); var s' := Receive(s, ops, tag, m, None);
            var k: u64 := if newfid < 0x8000_0000 then newfid else newfid + 0xFFFF_FFFF_0000_0000;
            && (Handed(s, s', tag, m, if newfid == f then {} else {k}) <==>
                  && 110 in ops && f in s.fids && s.fids[f].omode == -1
                  && (n == 0 || s.fids[f].qid.typ >= 0x80) && (newfid == f || k !in s.fids))
            && (f !in s.fids ==> Refused(s, s', tag, m, Nofid))
            && (f in s.fids && s.fids[f].omode != -1 ==> Refused(s, s', tag, m, WalkOpen))
            && (f in s.fids && s.fids[f].omode == -1 && n != 0 && s.fids[f].qid.typ < 0x80 ==>
                  Refused(s, s', tag, m, Notdir))
            && (f in s.fids && s.fids[f].omode == -1 && !(n != 0 && s.fids[f].qid.typ < 0x80) ==>
                  (newfid != f && k in s.fids ==> Refused(s, s', tag, m, Dupfid)))
  {
    Taken(s, ops, tag, Twalk(f, newfid, n));
  }

  /** A create: in a directory that is not open. */
  lemma CreateTaken(s: Server, ops: set<u8>, tag: u16, f: u32, mode: u8)
    requires Inv(s) && tag !in s.tags
    ensures var m := Tcreate(f, mode); var s' := Receive(s, ops, tag, m, None);
            && (Handed(s, s', tag, m, {}) <==>
                  114 in ops && f in s.fids && s.fids[f].omode == -1 && s.fids[f].qid.typ >= 0x80)
            && (f !in s.fids ==> Refused(s, s', tag, m, Nofid))
            && (f in s.fids && s.fids[f].omode != -1 ==> Refused(s, s', tag, m, Botch))
            && (f in s.fids && s.fids[f].omode == -1 && s.fids[f].qid.typ < 0x80 ==> Refused(s, s', tag, m, Notdir))
  {
    Taken(s, ops, tag, Tcreate(f, mode));
  }

  /** An open: a directory only for reading, with or without ORCLOSE. Nothing is asked of a fid already open. */
  lemma OpenTaken(s: Server, ops: set<u8>, tag: u16, f: u32, mode: u8)
    requires Inv(s) && tag !in s.tags
    ensures var m := Topen(f, mode); var s' := Receive(s, ops, tag, m, None);
            && (Handed(s, s', tag, m, {}) <==>
                  112 in ops && f in s.fids && (s.fids[f].qid.typ < 0x80 || mode == 0 || mode == 64))
            && (f !in s.fids ==> Refused(s, s', tag, m, Nofid))
            && (f in s.fids && s.fids[f].qid.typ >= 0x80 && mode != 0 && mode != 64 ==> Refused(s, s', tag, m, Isdir))
  {
    Taken(s, ops, tag, Topen(f, mode));
  }

  /** A read: the fid is open, but not with mode 1. A write: the lowest two bits of its mode are 1 or 2. */
  lemma ReadTaken(s: Server, ops: set<u8>, tag: u16, f: u32)
    requires Inv(s) && tag !in s.tags
    ensures var m := Tread(f); var s' := Receive(s, ops, tag, m, None);
            && (Handed(s, s', tag, m, {}) <==> 116 in ops && f in s.fids && s.fids[f].omode !in {-1, 1})
            && (f !in s.fids ==> Refused(s, s', tag, m, Nofid))
            && (f in s.fids && s.fids[f].omode in {-1, 1} ==> Refused(s, s', tag, m, Botch))
  {
    Taken(s, ops, tag, Tread(f));
  }

  lemma WriteTaken(s: Server, ops: set<u8>, tag: u16, f: u32)
    requires Inv(s) && tag !in s.tags
    ensures var m := Twrite(f); var s' := Receive(s, ops, tag, m, None);
            && (Handed(s, s', tag, m, {}) <==> 118 in ops && f in s.fids && s.fids[f].omode % 4 in {1, 2})
            && (f !in s.fids ==> Refused(s, s', tag, m, Nofid))
            && (f in s.fids && s.fids[f].omode % 4 in {0, 3} ==> Refused(s, s', tag, m, NotWritable))
  {
    Taken(s, ops, tag, Twrite(f));
  }

  /** A stat, clunk or remove: the fid exists. */
  lemma PlainTaken(s: Server, ops: set<u8>, tag: u16, f: u32)
    requires Inv(s) && tag !in s.tags
    ensures PlainOne(s, ops, tag, Tstat(f), 124) && PlainOne(s, ops, tag, Tclunk(f), 120)
    ensures PlainOne(s, ops, tag, Tremove(f), 122)
  {
    Taken(s, ops, tag, Tstat(f));
    Taken(s, ops, tag, Tclunk(f));
    Taken(s, ops, tag, Tremove(f));
  }

  ghost predicate PlainOne(s: Server, ops: set<u8>, tag: u16, m: Tmsg, typ: u8)
    requires (m.Tstat? || m.Tclunk? || m.Tremove?) && tag !in s.tags
  {
    var s' := Receive(s, ops, tag, m, None);
    && (Handed(s, s', tag, m, {}) <==> typ in ops && m.fid in s.fids)
    && (m.fid !in s.fids ==> Refused(s, s', tag, m, Nofid))
  }

  /** An attach: the fid is not in use. Other types have no handler. */
  lemma AttachTaken(s: Server, ops: set<u8>, tag: u16, f: u32)
    requires Inv(s) && tag !in s.tags
    ensures var m := Tattach(f); var s' := Receive(s, ops, tag, m, None);
            var k: u64 := if f < 0x8000_0000 then f else f + 0xFFFF_FFFF_0000_0000;
            && (Handed(s, s', tag, m, {k}) <==> k !in s.fids) && (k in s.fids ==> Refused(s, s', tag, m, Dupfid))
  {
    Taken(s, ops, tag, Tattach(f));
  }

  lemma OtherTaken(s: Server, ops: set<u8>, tag: u16, t: u8, h: Option<Outcome>)
    requires Inv(s) && tag !in s.tags
    ensures Refused(s, Receive(s, ops, tag, Tother(t), h), tag, Tother(t), Nofunc)
  {
    RefusedState(s, tag, Tother(t), Nofunc);
  }

  /** A flush: the request it names is pending. It counts as pending itself. */
  lemma FlushTaken(s: Server, ops: set<u8>, tag: u16, prior: u16)
    requires Inv(s) && tag !in s.tags && 108 in ops
    ensures var m := Tflush(prior); var s' := Receive(s, ops, tag, m, None);
            && (Handed(s, s', tag, m, {}) <==> prior in s.tags || prior == tag)
            && (prior !in s.tags && prior != tag ==> Refused(s, s', tag, m, Notag))
  {
    if prior !in s.tags && prior != tag {
      RefusedState(s, tag, Tflush(prior), Notag);
    } else {
      assert Receive(s, ops, tag, Tflush(prior), None) == Entry(Admitted(s, tag, Tflush(prior)), ops, Tflush(prior));
    }
  }

  /** A version is always answered, by the server itself. */
  lemma VersionAnswered(s: Server, ops: set<u8>, tag: u16, msize: u32, h: Option<Outcome>)
    requires Inv(s) && tag !in s.tags
    ensures Replied(Receive(s, ops, tag, Tversion(msize), h), tag, 101, None, s.fids)
  {
    OnTheSpot(s, ops, tag, Tversion(msize), h);
    assert Served(s.fids, Tversion(msize), DONE) == s.fids;
  }

  /** Where the server has no function, a clunk succeeds and drops its fid; a remove fails and drops it all the
      same; the rest fails and changes nothing. */
  lemma NoFunction(s: Server, ops: set<u8>, tag: u16, m: Tmsg, h: Option<Outcome>)
    requires Inv(s) && tag !in s.tags && Refusal(s.fids, m) == None
    requires !m.Tversion? && !m.Tattach? && !m.Tflush? && TypeOf(m) !in ops
    ensures var s' := Receive(s, ops, tag, m, h);
            if m.Tclunk? then Replied(s', tag, 121, None, s.fids - {m.fid})
            else Replied(s', tag, 107, Some(Nofunc), if m.Tremove? then s.fids - {m.fid} else s.fids)
  {
    OnTheSpot(s, ops, tag, m, h);
    if m.Tclunk? || m.Tremove? {
      ClunkDrops(s.fids, m, if m.Tclunk? then DONE else Fail(Nofunc));
    } else {
      FailureChangesNothing(s.fids, m, Fail(Nofunc));
    }
  }

  // ---------- what an answer leaves ----------

  /** In the terms of Fids. */
  lemma AnsweredNow(s: Server, tag: u16, o: Outcome)
    requires Inv(s) && tag in s.tags && Flushed(s.tags, tag) == None
    ensures var m := s.tags[tag]; var e := ReplyError(m, o);
            && Uses(m) <= s.fids.Keys
            && Replied(Answer(s, tag, o), tag, if e == None then Expected(m) else 107, e, Settled(s.fids, m, o))
  {
    Finished(s, tag, s.tags[tag], o);
    assert Held(s.tags, s.fids);
  }

  lemma Finished(s: Server, tag: u16, m: Tmsg, o: Outcome)
    requires tag in s.tags && s.tags[tag] == m && Flushed(s.tags, tag) == None
    ensures var e := ReplyError(m, o);
            Replied(Answer(s, tag, o), tag, if e == None then Expected(m) else 107, e, Settled(s.fids, m, o))
  {
    AnswerOne(s, tag, o);
    assert AckType(m) == Expected(m);
  }

  /** A handler that answers at once answers right after it was called. */
  lemma AtOnce(s: Server, ops: set<u8>, tag: u16, m: Tmsg, o: Outcome)
    requires RefusalOf(Admitted(s, tag, m), m) == None && !m.Tversion? && (m.Tattach? || TypeOf(m) in ops)
    ensures tag in Receive(s, ops, tag, m, None).tags
    ensures Receive(s, ops, tag, m, Some(o)) == Answer(Receive(s, ops, tag, m, None), tag, o)
  {}

  /** A request that is taken and answered at once: the last thing that happens is its reply, and the table is as
      Served says. */
  lemma ServedAtOnce(s: Server, ops: set<u8>, tag: u16, m: Tmsg, o: Outcome)
    requires Inv(s) && tag !in s.tags && Refusal(s.fids, m) == None
    requires !m.Tversion? && !m.Tflush? && (m.Tattach? || TypeOf(m) in ops)
    ensures var e := if o.error == None && m.Twalk? && o.wqids == [] && m.nwname > 0 then Some(Nofile) else o.error;
            Replied(Receive(s, ops, tag, m, Some(o)), tag, if e == None then Expected(m) else 107, e,
                    Served(s.fids, m, o))
  {
    AtOnce(s, ops, tag, m, o);
    Taken(s, ops, tag, m);
    Finished(Receive(s, ops, tag, m, None), tag, m, o);
  }

  /** An attached fid is at the handler's file; a refused one is gone. */
  lemma AttachAnswered(s: Server, tag: u16, f: u32, o: Outcome)
    requires Inv(s) && tag in s.tags && s.tags[tag] == Tattach(f)
    ensures var k: u64 := if f < 0x8000_0000 then f else f + 0xFFFF_FFFF_0000_0000;
            var s' := Answer(s, tag, o);
            if o.error != None then Replied(s', tag, 107, o.error, s.fids - {k})
            else k in s.fids && Replied(s', tag, 105, None, s.fids[k := Fid(s.fids[k].omode, o.qid)])
  {
    AnsweredNow(s, tag, o);
    SettledCases(s.fids, Tattach(f), o);
  }

  /** Every component walked: Rwalk, and newfid is at the last, or at the source when there are none. Some: Rwalk,
      and newfid is gone. The first failed: Rerror, and newfid is gone. */
  lemma WalkAnswered(s: Server, tag: u16, f: u32, newfid: u32, n: u16, o: Outcome)
    requires Inv(s) && tag in s.tags && s.tags[tag] == Twalk(f, newfid, n)
    ensures var t: u64 := if newfid == f then f else if newfid < 0x8000_0000 then newfid
                          else newfid + 0xFFFF_FFFF_0000_0000;
            var s' := Answer(s, tag, o); var gone := if newfid == f then s.fids else s.fids - {t};
            if o.error != None then Replied(s', tag, 107, o.error, gone)
            else if |o.wqids| < n then
              Replied(s', tag, if o.wqids == [] then 107 else 111, if o.wqids == [] then Some(Nofile) else None, gone)
            else
              && f in s.fids && t in s.fids
              && var q := if o.wqids == [] then s.fids[f].qid else o.wqids[|o.wqids| - 1];
                 Replied(s', tag, 111, None, s.fids[t := Fid(s.fids[t].omode, q)])
  {
    AnsweredNow(s, tag, o);
    SettledCases(s.fids, Twalk(f, newfid, n), o);
  }

  /** A fid opened, or made the file created in it: its mode is the byte as a signed char, its qid the handler's. */
  lemma OpenAnswered(s: Server, tag: u16, f: u32, mode: u8, o: Outcome)
    requires Inv(s) && tag in s.tags && (s.tags[tag] == Topen(f, mode) || s.tags[tag] == Tcreate(f, mode))
    ensures var s' := Answer(s, tag, o);
            if o.error != None then Replied(s', tag, 107, o.error, s.fids)
            else Replied(s', tag, if s.tags[tag].Topen? then 113 else 115, None,
                         s.fids[f := Fid(if mode < 0x80 then mode else mode - 0x100, o.qid)])
  {
    AnsweredNow(s, tag, o);
    SettledCases(s.fids, s.tags[tag], o);
  }

  /** Read, write and stat change no fid. */
  lemma DataAnswered(s: Server, tag: u16, o: Outcome)
    requires Inv(s) && tag in s.tags && (s.tags[tag].Tread? || s.tags[tag].Twrite? || s.tags[tag].Tstat?)
    ensures var typ: u8 := if s.tags[tag].Tread? then 117 else if s.tags[tag].Twrite? then 119 else 125;
            Replied(Answer(s, tag, o), tag, if o.error == None then typ else 107, o.error, s.fids)
  {
    AnsweredNow(s, tag, o);
    NoChange(s.fids, s.tags[tag], o);
  }

  /** Clunk and remove drop the fid in any case. */
  lemma DropAnswered(s: Server, tag: u16, o: Outcome)
    requires Inv(s) && tag in s.tags && (s.tags[tag].Tclunk? || s.tags[tag].Tremove?)
    ensures var typ: u8 := if s.tags[tag].Tclunk? then 121 else 123;
            Replied(Answer(s, tag, o), tag, if o.error == None then typ else 107, o.error, s.fids - {s.tags[tag].fid})
  {
    AnsweredNow(s, tag, o);
    NoChange(s.fids, s.tags[tag], o);
  }

  /** The answer to a flush: the request it flushes, if still pending, is answered first, with Intr. */
  lemma FlushAnswered(s: Server, tag: u16, o: Outcome)
    requires Inv(s) && tag in s.tags && s.tags[tag].Tflush?
    ensures var prior := s.tags[tag].oldtag; var s' := Answer(s, tag, o);
            if prior in s.tags then
              var s1 := Answer(s, prior, Fail(Intr));
              Replied(s1, prior, 107, Some(Intr), s1.fids) && FlushDone(s1, s', tag, o.error)
            else FlushDone(s, s', tag, o.error)
  {
    var prior := s.tags[tag].oldtag;
    if prior in s.tags {
      FlushStep(s, tag, o);
      Interrupted(s, prior);
      FinishFlush(Answer(s, prior, Fail(Intr)), tag, o);
    } else {
      AnswerOne(s, tag, o);
      FinishFlush(s, tag, o);
    }
  }

  /** Only the reply to the flush is new. */
  ghost predicate FlushDone(s: Server, s': Server, tag: u16, error: Option<Error>) {
    && s'.log == s.log + [Forgot({}), Reply(tag, if error == None then 109 else 107, error)]
    && s'.fids == s.fids && s'.tags == s.tags - {tag}
  }

  lemma FinishFlush(s: Server, tag: u16, o: Outcome)
    requires tag in s.tags && s.tags[tag].Tflush?
    ensures FlushDone(s, Finish(s, tag, o), tag, o.error)
  {
    NoChange(s.fids, s.tags[tag], o);
  }

  /** A server without a function for flush answers it with an error, after the request that it flushes. */
  lemma FlushWithout(s: Server, ops: set<u8>, tag: u16, prior: u16, h: Option<Outcome>)
    requires Inv(s) && Allowed(s, Receiving(tag, Tflush(prior), h)) && prior in s.tags && 108 !in ops
    ensures var s' := Receive(s, ops, tag, Tflush(prior), h); var n := |s'.log|;
            && Replied(s', tag, 107, Some(Nofunc), s'.fids) && prior !in s'.tags
            && n >= 3 && s'.log[n - 3] == Reply(prior, 107, Some(Intr))
  {
    var m := Tflush(prior);
    var s2 := Entry(Admitted(s, tag, m), ops, m);
    EntryKeeps(s, ops, tag, m);
    assert Receive(s, ops, tag, m, h) == Answer(s2, tag, Fail(Nofunc));
    FlushAnswered(s2, tag, Fail(Nofunc));
  }

  lemma FlushStep(s: Server, tag: u16, o: Outcome)
    requires Inv(s) && tag in s.tags && s.tags[tag].Tflush? && s.tags[tag].oldtag in s.tags
    ensures var s1 := Answer(s, s.tags[tag].oldtag, Fail(Intr));
            tag in s1.tags && s1.tags[tag] == s.tags[tag] && Answer(s, tag, o) == Finish(s1, tag, o)
  {
    var prior := s.tags[tag].oldtag;
    ChainUnfolds(s.tags, s.born, tag);
    AnswerKeeps(s, prior, Fail(Intr));
    assert ([tag] + Chain(s.tags, prior))[1..] == Chain(s.tags, prior);
  }

  /** Whatever it was, and whatever it flushes in turn. */
  lemma Interrupted(s: Server, tag: u16)
    requires Inv(s) && tag in s.tags
    ensures Replied(Answer(s, tag, Fail(Intr)), tag, 107, Some(Intr), Answer(s, tag, Fail(Intr)).fids)
  {
    AnswerKeeps(s, tag, Fail(Intr));
    if Flushed(s.tags, tag).Some? {
      FlushStep(s, tag, Fail(Intr));
    } else {
      AnswerOne(s, tag, Fail(Intr));
    }
  }

  /** A request under a tag in use fails; a flush flushes all the same. */
  lemma DuplicateRefused(s: Server, tag: u16, m: Tmsg)
    requires Inv(s) && tag in s.tags
    ensures var s1 := if m.Tflush? && m.oldtag in s.tags then Answer(s, m.oldtag, Fail(Intr)) else s;
            var s' := Duplicate(s, tag, m);
            && s'.log == s1.log + [Reply(tag, 107, Some(Duptag))] && s'.fids == s1.fids && s'.tags == s1.tags - {tag}
            && (m.Tflush? && m.oldtag in s.tags ==> Replied(s1, m.oldtag, 107, Some(Intr), s1.fids))
  {
    if m.Tflush? && m.oldtag in s.tags {
      Interrupted(s, m.oldtag);
    }
  }
}
