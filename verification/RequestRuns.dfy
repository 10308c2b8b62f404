/** What every run of the server keeps (libmixp/request.c): the pending requests are exactly those
    admitted and not answered, flushes are answered last and end, fids in use exist, and reads and
    writes reach their handlers only on fids opened for them. */
module RequestRuns {
  import opened Common
  import opened Wire
  import opened Fids
  import opened Requests

  // ---------- the invariant ----------

  /** A flush that is pending together with the request it flushes was admitted after it. */
  predicate Ranked(tags: map<u16, Tmsg>, born: map<u16, nat>) {
    && tags.Keys == born.Keys
    && forall t :: t in tags && tags[t].Tflush? && tags[t].oldtag in tags ==> born[tags[t].oldtag] < born[t]
  }

  predicate Past(born: map<u16, nat>, n: nat) {
    forall t :: t in born ==> born[t] < n
  }

  predicate Held(tags: map<u16, Tmsg>, fids: FidMap) {
    forall t :: t in tags ==> Uses(tags[t]) <= fids.Keys
  }

  predicate Exclusive(tags: map<u16, Tmsg>) {
    forall t, u :: t in tags && u in tags && t != u ==> Owns(tags[t]) !! Uses(tags[u])
  }

  function ModeOf(m: Option<u8>): int {
    match m case None => -1 case Some(mode) => Signed(mode)
  }

  predicate Modes(fids: FidMap, log: seq<Event>) {
    && Table(log) == fids && KeysMade(fids)
    && (forall f :: f in fids ==> fids[f].omode == ModeOf(LastMode(log, f)))
    && (forall f: u64 :: f !in fids ==> LastMode(log, f) == None)
  }

  predicate Inv(s: Server) {
    && Ranked(s.tags, s.born) && Past(s.born, |s.log|)
    && Replay(s.log) == Some(s.tags)
    && Held(s.tags, s.fids) && Exclusive(s.tags)
    && Modes(s.fids, s.log) && Granted(s.log)
  }

  // ---------- logs ----------

  lemma Snoc(log: seq<Event>, e: Event)
    ensures Front(log + [e]) == log && Last(log + [e]) == e
  {}

  lemma ReplaySnoc(log: seq<Event>, e: Event)
    ensures Replay(log + [e]) == match Replay(log) case None => None case Some(p) => ReplayOne(p, e)
  {
    Snoc(log, e);
  }

  lemma LastModeSnoc(log: seq<Event>, e: Event, f: u64)
    ensures LastMode(log + [e], f) == ModeAfter(LastMode(log, f), e, f)
  {
    Snoc(log, e);
  }

  lemma TableSnoc(log: seq<Event>, e: Event)
    ensures Table(log + [e]) == TableAfter(Table(log), e)
  {
    Snoc(log, e);
  }

  lemma GrantedSnoc(log: seq<Event>, e: Event)
    requires Granted(log) && GrantedOne(log, e)
    ensures Granted(log + [e])
  {
    forall i | 0 <= i < |log + [e]| ensures GrantedOne((log + [e])[..i], (log + [e])[i]) {
      if i < |log| {
        assert (log + [e])[..i] == log[..i];
      } else {
        assert (log + [e])[..i] == log;
      }
    }
  }

  lemma SameModes(fids: FidMap, log: seq<Event>, e: Event)
    requires Modes(fids, log) && (e.Admit? || e.Reply? || e.Call?)
    ensures Modes(fids, log + [e])
  {
    TableSnoc(log, e);
    forall f: u64 ensures LastMode(log + [e], f) == LastMode(log, f) {
      LastModeSnoc(log, e, f);
    }
  }

  /** An event that is neither a call nor about fids. */
  lemma Quiet(fids: FidMap, log: seq<Event>, e: Event)
    requires Modes(fids, log) && Granted(log) && (e.Admit? || e.Reply?)
    ensures Modes(fids, log + [e]) && Granted(log + [e])
  {
    SameModes(fids, log, e);
    GrantedSnoc(log, e);
  }

  // ---------- one answer ----------

  /** The log after an answer, in two steps. */
  function SetLog(log: seq<Event>, m: Tmsg, o: Outcome): seq<Event> {
    match SetEvent(m, o) case None => log case Some(e) => log + [e]
  }

  lemma AnsweredLog(log: seq<Event>, m: Tmsg, o: Outcome)
    ensures log + Answered(m, o) == SetLog(log, m, o) + [Forgot(Dropped(m, o))]
  {}

  lemma AnsweredReplay(log: seq<Event>, m: Tmsg, o: Outcome)
    ensures Replay(log + Answered(m, o)) == Replay(log)
  {
    AnsweredLog(log, m, o);
    if SetEvent(m, o).Some? {
      ReplaySnoc(log, SetEvent(m, o).value);
    }
    ReplaySnoc(SetLog(log, m, o), Forgot(Dropped(m, o)));
  }

  lemma AnsweredMode(log: seq<Event>, m: Tmsg, o: Outcome, f: u64)
    ensures LastMode(log + Answered(m, o), f) ==
      if f in Dropped(m, o) then None
      else if (m.Topen? || m.Tcreate?) && o.error == None && f == m.fid then Some(m.mode)
      else LastMode(log, f)
  {
    AnsweredLog(log, m, o);
    if SetEvent(m, o).Some? {
      LastModeSnoc(log, SetEvent(m, o).value, f);
    }
    LastModeSnoc(SetLog(log, m, o), Forgot(Dropped(m, o)), f);
  }

  /** The table that the log makes is settled like the server's. */
  lemma AnsweredTable(log: seq<Event>, m: Tmsg, o: Outcome)
    requires Uses(m) <= Table(log).Keys
    ensures Table(log + Answered(m, o)) == Settled(Table(log), m, o)
  {
    AnsweredLog(log, m, o);
    if SetEvent(m, o).Some? {
      TableSnoc(log, SetEvent(m, o).value);
    }
    TableSnoc(SetLog(log, m, o), Forgot(Dropped(m, o)));
    SetTable(Table(log), m, o);
  }

  lemma SetTable(t: FidMap, m: Tmsg, o: Outcome)
    requires Uses(m) <= t.Keys
    ensures t + Changed(t, m, o) == match SetEvent(m, o) case None => t case Some(e) => TableAfter(t, e)
  {}

  lemma SettledCases(fids: FidMap, m: Tmsg, o: Outcome)
    requires Uses(m) <= fids.Keys
    ensures m.Tattach? ==>
              Settled(fids, m, o) == if o.error != None then fids - {Key(m.fid)}
                                     else fids[Key(m.fid) := fids[Key(m.fid)].(qid := o.qid)]
    ensures m.Topen? || m.Tcreate? ==>
              Settled(fids, m, o) == if o.error != None then fids else fids[m.fid := Fid(Signed(m.mode), o.qid)]
    ensures m.Twalk? ==>
              var q := if o.wqids == [] then fids[m.fid].qid else o.wqids[|o.wqids| - 1];
              Settled(fids, m, o) == if FullWalk(m, o) then fids[Target(m) := fids[Target(m)].(qid := q)]
                                     else if m.fid != m.newfid then fids - {Key(m.newfid)} else fids
  {}

  lemma NoChange(fids: FidMap, m: Tmsg, o: Outcome)
    requires !m.Tattach? && !m.Topen? && !m.Tcreate? && !m.Twalk?
    ensures Settled(fids, m, o) == if m.Tclunk? || m.Tremove? then fids - {m.fid} else fids
    ensures ReplyError(m, o) == o.error
  {}

  lemma AnsweredModes(fids: FidMap, log: seq<Event>, m: Tmsg, o: Outcome)
    requires Modes(fids, log) && Uses(m) <= fids.Keys
    ensures Modes(Settled(fids, m, o), log + Answered(m, o))
  {
    var fids' := Settled(fids, m, o);
    AnsweredTable(log, m, o);
    forall f: u64
      ensures f in fids' ==> fids'[f].omode == ModeOf(LastMode(log + Answered(m, o), f))
      ensures f !in fids' ==> LastMode(log + Answered(m, o), f) == None
    {
      AnsweredMode(log, m, o, f);
      SettledAt(fids, m, o, f);
    }
  }

  lemma SettledAt(fids: FidMap, m: Tmsg, o: Outcome, f: u64)
    requires Uses(m) <= fids.Keys
    ensures var fids' := Settled(fids, m, o);
            && (f in fids' <==> f in fids && f !in Dropped(m, o))
            && (f in fids' ==> fids'[f].omode == if (m.Topen? || m.Tcreate?) && o.error == None && f == m.fid
                                                 then Signed(m.mode) else fids[f].omode)
  {
    var c := Changed(fids, m, o);
    assert c.Keys <= Uses(m);
  }

  lemma AnsweredGranted(log: seq<Event>, m: Tmsg, o: Outcome)
    requires Granted(log)
    ensures Granted(log + Answered(m, o))
  {
    AnsweredLog(log, m, o);
    if SetEvent(m, o).Some? {
      GrantedSnoc(log, SetEvent(m, o).value);
    }
    GrantedSnoc(SetLog(log, m, o), Forgot(Dropped(m, o)));
  }

  lemma TagsKeep(tags: map<u16, Tmsg>, born: map<u16, nat>, fids: FidMap, tag: u16, o: Outcome)
    requires tag in tags && Ranked(tags, born) && Held(tags, fids) && Exclusive(tags)
    ensures Ranked(tags - {tag}, born - {tag}) && Exclusive(tags - {tag})
    ensures Held(tags - {tag}, Settled(fids, tags[tag], o))
  {
    var m := tags[tag];
    var tags' := tags - {tag};
    assert Dropped(m, o) <= Owns(m);
    forall t | t in tags' ensures Uses(tags'[t]) <= Settled(fids, m, o).Keys {
      assert Owns(m) !! Uses(tags[t]) && Uses(tags[t]) <= fids.Keys;
      forall f | f in Uses(tags[t]) ensures f in Settled(fids, m, o) {
        SettledAt(fids, m, o, f);
      }
    }
  }

  /** A reply has the type that it is to have. */
  lemma ReplyFits(log: seq<Event>, tags: map<u16, Tmsg>, tag: u16, m: Tmsg, error: Option<Error>)
    requires Replay(log) == Some(tags) && tag in tags && tags[tag] == m && (m.Tflush? ==> m.oldtag !in tags)
    ensures Replay(log + [ReplyTo(tag, m, error)]) == Some(tags - {tag})
  {
    assert AckType(m) == Expected(m);
    ReplaySnoc(log, ReplyTo(tag, m, error));
  }

  lemma FinishKeeps(s: Server, tag: u16, o: Outcome)
    requires Inv(s) && tag in s.tags && Flushed(s.tags, tag) == None
    ensures Inv(Finish(s, tag, o)) && |Finish(s, tag, o).log| > |s.log|
  {
    var m := s.tags[tag];
    var log1 := s.log + Answered(m, o);
    var reply := ReplyTo(tag, m, ReplyError(m, o));
    var s' := Finish(s, tag, o);
    AnsweredReplay(s.log, m, o);
    ReplyFits(log1, s.tags, tag, m, ReplyError(m, o));
    AnsweredModes(s.fids, s.log, m, o);
    AnsweredGranted(s.log, m, o);
    Quiet(s'.fids, log1, reply);
    TagsKeep(s.tags, s.born, s.fids, tag, o);
  }

  // ---------- the flush ----------

  /** Nothing admitted after a request is reached by following what it flushes. */
  lemma {:induction false} ChainSkip(tags: map<u16, Tmsg>, born: map<u16, nat>, tag: u16, x: u16)
    requires Ranked(tags, born) && tag in tags && x in tags && born[tag] < born[x]
    ensures Chain(tags - {x}, tag) == Chain(tags, tag)
    decreases |tags|
  {
    var f := Flushed(tags, tag);
    if f.Some? {
      var y := f.value;
      assert born[y] < born[tag];
      assert Ranked(tags - {tag}, born - {tag});
      ChainSkip(tags - {tag}, born - {tag}, y, x);
      assert (tags - {x}) - {tag} == (tags - {tag}) - {x};
    }
  }

  /** The recursion of mixp_respond: the chain of a flush is the flush and the chain of the
      request it flushes. */
  lemma ChainUnfolds(tags: map<u16, Tmsg>, born: map<u16, nat>, tag: u16)
    requires Ranked(tags, born) && tag in tags && Flushed(tags, tag).Some?
    ensures Chain(tags, tag) == [tag] + Chain(tags, Flushed(tags, tag).value)
  {
    ChainSkip(tags, born, Flushed(tags, tag).value, tag);
  }

  predicate NewerRemain(s: Server, s': Server, tag: u16)
    requires s.tags.Keys == s.born.Keys && tag in s.tags
  {
    forall t :: t in s.tags && s.born[t] > s.born[tag] ==> t in s'.tags && s'.tags[t] == s.tags[t]
  }

  /** An answer keeps the invariant, answers the request it was for, and none admitted later. */
  lemma {:induction false} AnswerKeeps(s: Server, tag: u16, o: Outcome)
    requires Inv(s) && tag in s.tags
    ensures Inv(Answer(s, tag, o)) && tag !in Answer(s, tag, o).tags
    ensures NewerRemain(s, Answer(s, tag, o), tag)
    decreases s.born[tag]
  {
    var f := Flushed(s.tags, tag);
    if f.Some? {
      ChainUnfolds(s.tags, s.born, tag);
      var c := Chain(s.tags, f.value);
      assert ([tag] + c)[1..] == c;
      var s1 := Answer(s, f.value, Fail(Intr));
      AnswerKeeps(s, f.value, Fail(Intr));
      assert Answer(s, tag, o) == Finish(s1, tag, o);
      FinishKeeps(s1, tag, o);
    } else {
      assert Chain(s.tags, tag) == [tag];
      assert [tag][1..] == [];
      assert AnswerAll(s, [], Fail(Intr)) == s;
      assert Answer(s, tag, o) == Finish(s, tag, o);
      FinishKeeps(s, tag, o);
    }
  }

  // ---------- admission ----------

  lemma AdmittedLog(log: seq<Event>, tags: map<u16, Tmsg>, fids: FidMap, tag: u16, m: Tmsg)
    requires Replay(log) == Some(tags) && Modes(fids, log) && Granted(log) && tag !in tags
    ensures var log1 := log + [Admit(tag, m)];
            Replay(log1) == Some(tags[tag := m]) && Modes(fids, log1) && Granted(log1)
  {
    ReplaySnoc(log, Admit(tag, m));
    Quiet(fids, log, Admit(tag, m));
  }

  lemma RefusedLog(log: seq<Event>, tags: map<u16, Tmsg>, fids: FidMap, tag: u16, m: Tmsg, e: Error)
    requires Replay(log) == Some(tags) && Modes(fids, log) && Granted(log)
    requires tag !in tags && (m.Tflush? ==> m.oldtag != tag && m.oldtag !in tags)
    ensures var log2 := log + [Admit(tag, m)] + [ReplyTo(tag, m, Some(e))];
            Replay(log2) == Some(tags) && Modes(fids, log2) && Granted(log2)
  {
    var log1 := log + [Admit(tag, m)];
    AdmittedLog(log, tags, fids, tag, m);
    RepliedLog(log1, tags[tag := m], fids, tag, m, e);
    assert tags[tag := m] - {tag} == tags;
  }

  lemma RepliedLog(log: seq<Event>, tags: map<u16, Tmsg>, fids: FidMap, tag: u16, m: Tmsg, e: Error)
    requires Replay(log) == Some(tags) && Modes(fids, log) && Granted(log)
    requires tag in tags && tags[tag] == m && (m.Tflush? ==> m.oldtag !in tags)
    ensures var log1 := log + [ReplyTo(tag, m, Some(e))];
            Replay(log1) == Some(tags - {tag}) && Modes(fids, log1) && Granted(log1)
  {
    ReplyFits(log, tags, tag, m, Some(e));
    Quiet(fids, log, ReplyTo(tag, m, Some(e)));
  }

  lemma RefusedState(s: Server, tag: u16, m: Tmsg, e: Error)
    requires tag !in s.tags && tag !in s.born
    ensures Refuse(Admitted(s, tag, m), tag, e) == s.(log := s.log + [Admit(tag, m)] + [ReplyTo(tag, m, Some(e))])
  {
    assert s.tags[tag := m] - {tag} == s.tags && s.born[tag := |s.log|] - {tag} == s.born;
  }

  lemma LogGrows(s: Server, log: seq<Event>)
    requires Inv(s) && |s.log| <= |log|
    requires Replay(log) == Some(s.tags) && Modes(s.fids, log) && Granted(log)
    ensures Inv(s.(log := log))
  {}

  lemma AdmittedRefused(s: Server, tag: u16, m: Tmsg, e: Error)
    requires Inv(s) && Allowed(s, Receiving(tag, m, None)) && (m.Tflush? ==> m.oldtag !in s.tags)
    ensures Inv(Refuse(Admitted(s, tag, m), tag, e))
  {
    var log2 := s.log + [Admit(tag, m)] + [ReplyTo(tag, m, Some(e))];
    RefusedLog(s.log, s.tags, s.fids, tag, m, e);
    RefusedState(s, tag, m, e);
    LogGrows(s, log2);
  }

  lemma AdmittedRanks(tags: map<u16, Tmsg>, born: map<u16, nat>, tag: u16, m: Tmsg, n: nat)
    requires Ranked(tags, born) && Past(born, n) && tag !in tags && (m.Tflush? ==> m.oldtag != tag)
    requires forall t :: t in tags && tags[t].Tflush? ==> tags[t].oldtag != tag
    ensures Ranked(tags[tag := m], born[tag := n]) && Past(born[tag := n], n + 1)
  {}

  lemma AdmittedTags(s: Server, tag: u16, m: Tmsg)
    requires Inv(s) && Allowed(s, Receiving(tag, m, None)) && RefusalOf(s, m) == None
    ensures var s1 := Admitted(s, tag, m);
            && Ranked(s1.tags, s1.born) && Past(s1.born, |s1.log|) && Replay(s1.log) == Some(s1.tags)
            && Exclusive(s1.tags) && Modes(s.fids, s1.log) && Granted(s1.log)
  {
    AdmittedLog(s.log, s.tags, s.fids, tag, m);
    AdmittedRanks(s.tags, s.born, tag, m, |s.log|);
    StaysExclusive(s.tags, tag, m);
  }

  lemma StaysExclusive(tags: map<u16, Tmsg>, tag: u16, m: Tmsg)
    requires Exclusive(tags) && Apart(tags, m) && tag !in tags
    ensures Exclusive(tags[tag := m])
  {}

  lemma EntryHeld(s: Server, tag: u16, m: Tmsg)
    requires Held(s.tags, s.fids) && Refusal(s.fids, m) == None
    ensures Held(s.tags[tag := m], Entered(s.fids, m))
  {
    assert Uses(m) <= Entered(s.fids, m).Keys;
  }

  lemma EnterKeeps(fids: FidMap, log: seq<Event>, m: Tmsg)
    requires Modes(fids, log) && Granted(log) && Refusal(fids, m) == None
    ensures Modes(Entered(fids, m), log + [Created(Made(m))]) && Granted(log + [Created(Made(m))])
  {
    var fids', log' := Entered(fids, m), log + [Created(Made(m))];
    GrantedSnoc(log, Created(Made(m)));
    TableSnoc(log, Created(Made(m)));
    forall f: u64 ensures LastMode(log', f) == LastMode(log, f) {
      LastModeSnoc(log, Created(Made(m)), f);
    }
    forall f | f in fids' ensures fids'[f].omode == ModeOf(LastMode(log', f)) {
      if f in fids {
        assert f !in Made(m);
      }
    }
  }

  lemma CallKeeps(fids: FidMap, log: seq<Event>, m: Tmsg)
    requires Modes(fids, log) && Granted(log) && GrantedOne(log, Call(m))
    ensures Modes(fids, log + [Call(m)]) && Granted(log + [Call(m)])
  {
    SameModes(fids, log, Call(m));
    GrantedSnoc(log, Call(m));
  }

  lemma CallGranted(fids: FidMap, log: seq<Event>, m: Tmsg)
    requires Modes(fids, log) && Refusal(fids, m) == None
    ensures GrantedOne(log + [Created(Made(m))], Call(m))
  {
    if m.Tread? || m.Twrite? {
      assert fids[m.fid].omode == ModeOf(LastMode(log, m.fid));
      LastModeSnoc(log, Created(Made(m)), m.fid);
    }
  }

  lemma EntryKeeps(s: Server, ops: set<u8>, tag: u16, m: Tmsg)
    requires Inv(s) && Allowed(s, Receiving(tag, m, None)) && RefusalOf(s, m) == None
    ensures Inv(Entry(Admitted(s, tag, m), ops, m))
  {
    var s1 := Admitted(s, tag, m);
    AdmittedTags(s, tag, m);
    EntryHeld(s, tag, m);
    EntryLog(s.fids, s1.log, ops, m);
  }

  lemma EntryLog(fids: FidMap, log: seq<Event>, ops: set<u8>, m: Tmsg)
    requires Modes(fids, log) && Granted(log) && Refusal(fids, m) == None
    ensures var log' := log + EntryEvents(ops, m);
            && Modes(Entered(fids, m), log') && Granted(log') && Replay(log') == Replay(log) && |log| <= |log'|
  {
    var log1 := log + [Created(Made(m))];
    EnterKeeps(fids, log, m);
    ReplaySnoc(log, Created(Made(m)));
    CallGranted(fids, log, m);
    CallLog(Entered(fids, m), log1, ops, m);
    assert log + EntryEvents(ops, m) == log1 + CallEvents(ops, m);
  }

  lemma CallLog(fids: FidMap, log: seq<Event>, ops: set<u8>, m: Tmsg)
    requires Modes(fids, log) && Granted(log) && GrantedOne(log, Call(m))
    ensures var log' := log + CallEvents(ops, m);
            Modes(fids, log') && Granted(log') && Replay(log') == Replay(log) && |log| <= |log'|
  {
    if CallEvents(ops, m) == [] {
      assert log + [] == log;
    } else {
      CallKeeps(fids, log, m);
      ReplaySnoc(log, Call(m));
    }
  }

  lemma ReceiveKeeps(s: Server, ops: set<u8>, tag: u16, m: Tmsg, h: Option<Outcome>)
    requires Inv(s) && Allowed(s, Receiving(tag, m, h))
    ensures Inv(Receive(s, ops, tag, m, h))
  {
    var s1 := Admitted(s, tag, m);
    assert RefusalOf(s1, m) == RefusalOf(s, m);
    match RefusalOf(s, m) {
      case Some(e) => AdmittedRefused(s, tag, m, e);
      case None =>
        EntryKeeps(s, ops, tag, m);
        var h' := Effective(ops, m, h);
        if h'.Some? {
          AnswerKeeps(Entry(s1, ops, m), tag, h'.value);
        }
    }
  }

  // ---------- every run ----------

  /** Pending-request accounting and the fid state machine, over every run in which clients use
      fresh tags and fids and obey flush(5). */
  lemma {:induction false} RunKeepsInv(ops: set<u8>, run: seq<Step>)
    requires After(ops, run).Some?
    ensures Inv(After(ops, run).value)
  {
    if run == [] {
      assert Inv(INIT);
    } else {
      RunKeepsInv(ops, run[..|run| - 1]);
      var s := After(ops, run[..|run| - 1]).value;
      match run[|run| - 1] {
        case Receiving(tag, m, h) => ReceiveKeeps(s, ops, tag, m, h);
        case Answering(tag, o) => AnswerKeeps(s, tag, o);
      }
    }
  }

  /** A client that sends one request at a time, attaches only new fids and does not flush its own flush keeps to what
      the server relies on, whatever it asks for. */
  lemma OneAtATime(s: Server, ops: set<u8>, tag: u16, m: Tmsg, h: Option<Outcome>, o: Outcome)
    requires Inv(s) && s.tags == map[] && (m.Tattach? ==> Key(m.fid) !in s.fids) && m != Tflush(tag)
    ensures Allowed(s, Receiving(tag, m, h))
    ensures var s' := Receive(s, ops, tag, m, h);
            tag in s'.tags ==> Allowed(s', Answering(tag, o)) && Answer(s', tag, o).tags == map[]
    ensures Receive(s, ops, tag, m, h).tags.Keys <= {tag}
  {
    var s1 := Entry(Admitted(s, tag, m), ops, m);
    assert s1.tags == map[tag := m] && Flushed(s1.tags, tag) == None;
    OnlyOne(s1, tag, m, o);
    OnlyOne(s1, tag, m, DONE);
    OnlyOne(s1, tag, m, Fail(Nofunc));
    if h.Some? {
      OnlyOne(s1, tag, m, h.value);
    }
  }

  lemma OnlyOne(s: Server, tag: u16, m: Tmsg, o: Outcome)
    requires s.tags == map[tag := m] && Flushed(s.tags, tag) == None
    ensures Answer(s, tag, o).tags == map[]
  {
    assert Chain(s.tags, tag) == [tag] && [tag][1..] == [];
    assert AnswerAll(s, [], Fail(Intr)) == s;
  }

  /** tagmap holds exactly the requests admitted and not answered; every reply was the one reply of a
      pending request, under its tag, of type T+1 or Rerror, and no flush was answered before the
      request it flushes. */
  lemma PendingAccounting(ops: set<u8>, run: seq<Step>)
    requires After(ops, run).Some?
    ensures Replay(After(ops, run).value.log) == Some(After(ops, run).value.tags)
  {
    RunKeepsInv(ops, run);
  }

  /** The fid table after any run, pending handlers included, is what the log says: fids are there from
      their attach or walk until they are dropped or the walk fails, at the place where the latest attach, full
      walk, open or create put them. */
  lemma TableOfRun(ops: set<u8>, run: seq<Step>)
    requires After(ops, run).Some?
    ensures After(ops, run).value.fids == Table(After(ops, run).value.log)
  {
    RunKeepsInv(ops, run);
  }

  /** srv->write is reached only for a fid whose latest successful open or create, not undone by a
      drop, granted writing; srv->read only if that was neither mode 1 nor mode 255. */
  lemma AccessGranted(ops: set<u8>, run: seq<Step>, i: nat, f: u32)
    requires After(ops, run).Some? && i < |After(ops, run).value.log|
    ensures var log := After(ops, run).value.log;
            && (log[i] == Call(Twrite(f)) ==>
                  exists mode: u8 :: mode % 4 in {1, 2} && LastMode(log[..i], f) == Some(mode))
            && (log[i] == Call(Tread(f)) ==>
                  exists mode: u8 :: mode !in {1, 255} && LastMode(log[..i], f) == Some(mode))
  {
    RunKeepsInv(ops, run);
    var log := After(ops, run).value.log;
    assert GrantedOne(log[..i], log[i]);
  }

  /** No request is answered twice: between two replies with one tag, the tag was admitted again. */
  lemma AtMostOneReply(log: seq<Event>, i: nat, j: nat)
    requires Replay(log).Some? && i < j < |log|
    requires log[i].Reply? && log[j].Reply? && log[i].tag == log[j].tag
    ensures exists k :: i < k < j && log[k].Admit? && log[k].tag == log[i].tag
  {
    var tag := log[i].tag;
    ReplayPrefix(log, j + 1);
    ReplayPrefix(log, j);
    ReplayPrefix(log, i + 1);
    assert Front(log[..j + 1]) == log[..j] && Front(log[..i + 1]) == log[..i];
    if forall k :: i < k < j ==> !(log[k].Admit? && log[k].tag == tag) {
      StaysOut(log, tag, i + 1, j);
    }
  }

  lemma {:induction false} ReplayPrefix(log: seq<Event>, n: nat)
    requires Replay(log).Some? && n <= |log|
    ensures Replay(log[..n]).Some?
  {
    if n == |log| {
      assert log[..n] == log;
    } else {
      ReplayPrefix(Front(log), n);
      assert Front(log)[..n] == log[..n];
    }
  }

  lemma {:induction false} StaysOut(log: seq<Event>, tag: u16, i: nat, j: nat)
    requires i <= j <= |log| && Replay(log[..j]).Some? && Replay(log[..i]).Some?
    requires tag !in Replay(log[..i]).value
    requires forall k :: i <= k < j ==> !(log[k].Admit? && log[k].tag == tag)
    ensures tag !in Replay(log[..j]).value
  {
    if i < j {
      assert Front(log[..j]) == log[..j - 1] && Last(log[..j]) == log[j - 1];
      StaysOut(log, tag, i, j - 1);
    }
  }

  /** The refusal of a duplicate tag takes the place of the answer to the request that has the tag:
      it is no longer pending, and when its handler answers the tag is answered twice. */
  lemma DuplicateTagLosesRequest(s: Server, tag: u16, m: Tmsg, error: Option<Error>)
    requires tag in s.tags
    ensures tag !in Duplicate(s, tag, m).tags
    ensures Replay(Duplicate(s, tag, m).log + [ReplyTo(tag, s.tags[tag], error)]) == None
  {
    var s1 := if m.Tflush? && m.oldtag in s.tags then Answer(s, m.oldtag, Fail(Intr)) else s;
    var log' := Duplicate(s, tag, m).log;
    ReplaySnoc(s1.log, ReplyTo(tag, m, Some(Duptag)));
    ReplaySnoc(log', ReplyTo(tag, s.tags[tag], error));
  }

  // ---------- when the recursion of a flush ends ----------

  /** The calls of mixp_respond as written, which looks up the flushed request before its own tag is
      deleted; None when n calls are not enough. */
  function RespondCalls(tags: map<u16, Tmsg>, tag: u16, n: nat): Option<seq<u16>>
    requires tag in tags
    decreases n
  {
    if n == 0 then None
    else match Flushed(tags, tag)
      case None => Some([tag])
      case Some(prior) => match RespondCalls(tags, prior, n - 1)
        case None => None
        case Some(c) => Some([tag] + c)
  }

  /** Following what is flushed, the last request is not a flush of one already passed. */
  predicate Ends(tags: map<u16, Tmsg>, tag: u16)
    requires tag in tags
  {
    var c := Chain(tags, tag);
    var last := c[|c| - 1];
    !(last in tags && tags[last].Tflush? && tags[last].oldtag in c)
  }

  predicate Path(tags: map<u16, Tmsg>, c: seq<u16>) {
    && |c| > 0 && (forall i :: 0 <= i < |c| ==> c[i] in tags)
    && forall i :: 0 <= i < |c| - 1 ==> Flushed(tags, c[i]) == Some(c[i + 1])
  }

  lemma {:induction false} ChainPath(sub: map<u16, Tmsg>, tags: map<u16, Tmsg>, tag: u16)
    requires tag in sub && forall t :: t in sub ==> t in tags && tags[t] == sub[t]
    ensures var c := Chain(sub, tag);
            && Path(tags, c)
            && (Flushed(tags, c[|c| - 1]).Some? ==>
                  Flushed(tags, c[|c| - 1]).value in c || Flushed(tags, c[|c| - 1]).value !in sub)
    decreases |sub|
  {
    var f := Flushed(sub, tag);
    if f.Some? && f.value != tag {
      var c := Chain(sub - {tag}, f.value);
      ChainPath(sub - {tag}, tags, f.value);
      assert Chain(sub, tag) == [tag] + c;
      assert ([tag] + c)[|c|] == c[|c| - 1];
    }
  }

  lemma {:induction false} PathCalls(tags: map<u16, Tmsg>, c: seq<u16>)
    requires Path(tags, c) && Flushed(tags, c[|c| - 1]) == None
    ensures RespondCalls(tags, c[0], |c|) == Some(c)
  {
    if |c| > 1 {
      PathCalls(tags, c[1..]);
      assert Flushed(tags, c[0]) == Some(c[1]);
      assert c == [c[0]] + c[1..];
    } else {
      assert c == [c[0]];
    }
  }

  lemma {:induction false} CycleNeverEnds(tags: map<u16, Tmsg>, c: seq<u16>, i: nat, n: nat)
    requires Path(tags, c) && i < |c| && Flushed(tags, c[|c| - 1]).Some? && Flushed(tags, c[|c| - 1]).value in c
    ensures RespondCalls(tags, c[i], n) == None
    decreases n
  {
    if n > 0 {
      assert i < |c| - 1 ==> Flushed(tags, c[i]) == Some(c[i + 1]);
      var next := Flushed(tags, c[i]).value;
      var j :| 0 <= j < |c| && c[j] == next;
      CycleNeverEnds(tags, c, j, n - 1);
    }
  }

  /** As written the recursion ends exactly when no cycle of flushes is met, and then it answers the
      chain. */
  lemma FlushEndsExactly(tags: map<u16, Tmsg>, tag: u16)
    requires tag in tags
    ensures (exists n :: RespondCalls(tags, tag, n).Some?) <==> Ends(tags, tag)
    ensures Ends(tags, tag) ==> RespondCalls(tags, tag, |Chain(tags, tag)|) == Some(Chain(tags, tag))
  {
    var c := Chain(tags, tag);
    ChainPath(tags, tags, tag);
    if Ends(tags, tag) {
      PathCalls(tags, c);
    } else {
      forall n: nat ensures RespondCalls(tags, tag, n) == None {
        CycleNeverEnds(tags, c, 0, n);
      }
    }
  }

  /** It always ends for clients that obey flush(5): each call goes to a request admitted earlier. */
  lemma FlushEnds(ops: set<u8>, run: seq<Step>, tag: u16)
    requires After(ops, run).Some? && tag in After(ops, run).value.tags
    ensures Ends(After(ops, run).value.tags, tag)
  {
    var s := After(ops, run).value;
    RunKeepsInv(ops, run);
    RankedCalls(s.tags, s.born, tag);
    FlushEndsExactly(s.tags, tag);
  }

  lemma {:induction false} RankedCalls(tags: map<u16, Tmsg>, born: map<u16, nat>, tag: u16)
    requires Ranked(tags, born) && tag in tags
    ensures RespondCalls(tags, tag, born[tag] + 1).Some?
    decreases born[tag]
  {
    var f := Flushed(tags, tag);
    if f.Some? {
      RankedCalls(tags, born, f.value);
      MoreCalls(tags, f.value, born[f.value] + 1, born[tag]);
    }
  }

  lemma {:induction false} MoreCalls(tags: map<u16, Tmsg>, tag: u16, n: nat, n': nat)
    requires tag in tags && n <= n' && RespondCalls(tags, tag, n).Some?
    ensures RespondCalls(tags, tag, n').Some?
    decreases n
  {
    if Flushed(tags, tag).Some? {
      MoreCalls(tags, Flushed(tags, tag).value, n - 1, n' - 1);
    }
  }

  /** A flush of itself never ends. */
  lemma SelfFlushNeverEnds(tags: map<u16, Tmsg>, tag: u16, n: nat)
    requires tag in tags && tags[tag] == Tflush(tag)
    ensures RespondCalls(tags, tag, n) == None
  {
    FlushEndsExactly(tags, tag);
    assert Chain(tags, tag) == [tag];
  }
}
