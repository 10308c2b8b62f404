/** The two ends of the fid protocol together: calls of the client (libmixp/client.c) run in any number
    of threads, each with one request outstanding; the server (libmixp/request.c) receives and answers
    in any order, with arbitrary handlers. Starts after a successful attach of ROOT_FID. */
module FidProtocol {
  import opened Common
  import opened Wire
  import opened Layout
  import opened Fids
  import opened ClientFids
  import R = Requests

  /** mixp_open, mixp_create, mixp_remove, mixp_stat; mixp_close and one request of mixp_read or
      mixp_write on an open fid. */
  datatype Task = Open(mode: u8) | Create(mode: u8) | Remove | Stat | Close | Read | Write

  predicate NeedsOpen(task: Task) { task.Close? || task.Read? || task.Write? }

  /** What a reply says: its type, the error of an Rerror, the number of qids of an Rwalk, the qid of an Ropen or
      Rcreate. */
  datatype Ret = Ret(typ: u8, error: Option<Error>, nwqid: nat, qid: Qid)

  datatype Exchange = Exchange(msg: Tmsg, ret: Ret)

  datatype Stage = Sent | AtServer | Replied(ret: Ret)

  /** What the client does with a live fid: past are the requests that the call has made, and their replies. Lost:
      a failed clunk or remove leaves it live for good. */
  datatype Use = Doing(task: Task, past: seq<Exchange>, msg: Tmsg, stage: Stage) | Opened | Lost

  /** What the client keeps of an open fid. */
  datatype Handle = Handle(mode: u8, qid: Qid)

  datatype Fate = Keep | PutBack | Lose

  /** A call that has returned: what becomes of its fid, and whether it reports success. */
  datatype Ended = Ended(f: u32, task: Task, past: seq<Exchange>, fate: Fate, ok: bool)

  datatype State = State(fids: FidMap, pool: Pool, uses: map<u32, Use>, opens: map<u32, Handle>, calls: seq<Ended>)

  function Mounted(root: Qid): State {
    State(map[ROOT_FID := Fid(-1, root)], Pool([], ROOT_FID), map[], map[], [])
  }

  // ---------- the client's calls ----------

  /** The type T^1, which do_fcall takes a reply by. */
  function Other(t: u8): u8 { if t % 2 == 0 then t + 1 else t - 1 }

  /** do_fcall returns the reply, and walk finds all it asked for in it. */
  predicate Took(x: Exchange) {
    && x.ret.typ != RERROR && x.ret.typ == Other(TypeOf(x.msg))
    && (x.msg.Twalk? ==> x.msg.nwname <= x.ret.nwqid)
  }

  /** What a call does when its latest request is answered: another request, or it returns. */
  datatype Then = Send(msg: Tmsg) | End(fate: Fate, ok: bool)

  function Continue(f: u32, task: Task, past: seq<Exchange>): Then
    requires past != []
  {
    var x := past[|past| - 1];
    var ok := Took(x);
    match x.msg
    case Twalk(_, _, _) =>
      if !ok then End(PutBack, false)
      else (match task
        case Open(mode) => Send(Topen(f, mode))
        case Create(mode) => Send(Tcreate(f, mode))
        case Remove => Send(Tremove(f))
        case _ => Send(Tstat(f)))
    case Topen(_, _) => if ok then End(Keep, true) else Send(Tclunk(f))
    case Tcreate(_, _) => if ok then End(Keep, true) else Send(Tclunk(f))
    case Tstat(_) => Send(Tclunk(f))
    case Tclunk(_) => End(if ok then PutBack else Lose, if task.Close? then ok else StatRead(past))
    case Tremove(_) => End(if ok then PutBack else Lose, ok)
    case _ => End(Keep, ok)
  }

  /** Before its clunk the call got a stat. */
  predicate StatRead(past: seq<Exchange>) {
    |past| >= 2 && past[|past| - 2].msg.Tstat? && Took(past[|past| - 2])
  }

  function Request(f: u32, task: Task): Tmsg {
    match task case Close => Tclunk(f) case Read => Tread(f) case _ => Twrite(f)
  }

  function RefusedBy(e: Error): Ret { Ret(RERROR, Some(e), 0, NO_QID) }

  function AnsweredBy(m: Tmsg, o: Outcome): Ret {
    var e := ReplyError(m, o);
    Ret(if e == None then R.AckType(m) else RERROR, e, |o.wqids|, o.qid)
  }

  // ---------- steps ----------

  datatype Step =
    | Walk(task: Task, n: u16)         // a thread calls getfid and sends its walk
    | OnOpen(f: u32, task: Task)       // a thread closes, reads or writes an open fid
    | Receive(f: u32)                  // the server takes the request
    | Answer(f: u32, o: Outcome)       // its handler answers
    | Resume(f: u32)                   // the thread gets the reply
    | Stray(m: Tmsg, o: Outcome)       // the server receives a read or write of a fid closed meanwhile

  predicate At(s: State, f: u32, stage: Stage) {
    f in s.uses && s.uses[f].Doing? && s.uses[f].stage == stage
  }

  predicate Enabled(s: State, st: Step) {
    match st
    case Walk(task, _) => CanGet(s.pool) && Got(s.pool) < 0x8000_0000 && !NeedsOpen(task)
    case OnOpen(f, task) => f in s.uses && s.uses[f].Opened? && NeedsOpen(task)
    case Receive(f) => At(s, f, Sent)
    case Answer(f, _) => At(s, f, AtServer)
    case Resume(f) => f in s.uses && s.uses[f].Doing? && s.uses[f].stage.Replied?
    case Stray(m, _) => m.Tread? || m.Twrite?
  }

  function Apply(s: State, st: Step): State
    requires Enabled(s, st)
  {
    match st
    case Walk(task, n) =>
      var f := Got(s.pool);
      s.(pool := Get(s.pool), uses := s.uses[f := Doing(task, [], Twalk(ROOT_FID, f, n), Sent)])
    case OnOpen(f, task) => s.(uses := s.uses[f := Doing(task, [], Request(f, task), Sent)])
    case Receive(f) =>
      var u := s.uses[f];
      (match Refusal(s.fids, u.msg)
       case None => s.(fids := Entered(s.fids, u.msg), uses := s.uses[f := u.(stage := AtServer)])
       case Some(e) => s.(uses := s.uses[f := u.(stage := Replied(RefusedBy(e)))]))
    case Answer(f, o) =>
      var u := s.uses[f];
      s.(fids := Settled(s.fids, u.msg, o), uses := s.uses[f := u.(stage := Replied(AnsweredBy(u.msg, o)))])
    case Stray(m, o) => s.(fids := Served(s.fids, m, o))
    case Resume(f) => Resumed(s, f)
  }

  function Resumed(s: State, f: u32): State
    requires f in s.uses && s.uses[f].Doing? && s.uses[f].stage.Replied?
  {
    var u := s.uses[f];
    var past := u.past + [Exchange(u.msg, u.stage.ret)];
    match Continue(f, u.task, past)
    case Send(m) => s.(uses := s.uses[f := Doing(u.task, past, m, Sent)])
    case End(fate, ok) =>
      var s' := s.(calls := s.calls + [Ended(f, u.task, past, fate, ok)]);
      match fate
      case Keep => s'.(uses := s.uses[f := Opened], opens := Initfid(s.opens, f, u.task, u.stage.ret))
      case PutBack => s'.(uses := s.uses - {f}, pool := Put(s.pool, f), opens := s.opens - {f})
      case Lose => s'.(uses := s.uses[f := Lost], opens := s.opens - {f})
  }

  /** A file just opened or created. */
  function Initfid(opens: map<u32, Handle>, f: u32, task: Task, ret: Ret): map<u32, Handle> {
    match task
    case Open(mode) => opens[f := Handle(mode, ret.qid)]
    case Create(mode) => opens[f := Handle(mode, ret.qid)]
    case _ => opens
  }

  function After(root: Qid, run: seq<Step>): Option<State> {
    if run == [] then Some(Mounted(root))
    else match After(root, run[..|run| - 1])
      case None => None
      case Some(s) => if Enabled(s, run[|run| - 1]) then Some(Apply(s, run[|run| - 1])) else None
  }

  // ---------- agreement ----------

  /** The message of a call is about its own fid, and a walk starts at ROOT_FID. */
  predicate Own(f: u32, m: Tmsg) {
    match m
    case Twalk(from, newfid, _) => from == ROOT_FID && newfid == f
    case Topen(g, _) => g == f
    case Tcreate(g, _) => g == f
    case Tstat(g) => g == f
    case Tread(g) => g == f
    case Twrite(g) => g == f
    case Tclunk(g) => g == f
    case Tremove(g) => g == f
    case _ => false
  }

  /** Whether the server has the fid: not before its walk arrives nor after it failed, not once a
      clunk or remove is answered. */
  predicate Exists(u: Use) {
    match u
    case Opened => true
    case Lost => false
    case Doing(_, _, m, stage) =>
      if m.Twalk? then stage.AtServer? || (stage.Replied? && Took(Exchange(m, stage.ret)))
      else !((m.Tclunk? || m.Tremove?) && stage.Replied?)
  }

  predicate Fits(fids: FidMap, f: u32, u: Use) {
    && f != ROOT_FID && f < 0x8000_0000
    && (f in fids <==> Exists(u))
    && (u.Doing? ==> Own(f, u.msg) && (u.msg.Twalk? && f in fids ==> fids[f].omode == -1))
  }

  ghost predicate Agree(s: State) {
    && Exact(s.pool, s.uses.Keys)
    && ROOT_FID in s.fids && s.fids[ROOT_FID].omode == -1
    && (forall f :: f in s.fids ==> f == ROOT_FID || f in s.uses)
    && (forall f :: f in s.uses ==> Fits(s.fids, f, s.uses[f]))
  }

  /** One fid's entry and its use change; every other is as it was. */
  lemma OneChanges(s: State, s': State, f: u32)
    requires Agree(s) && Exact(s'.pool, s'.uses.Keys) && f != ROOT_FID
    requires forall g: u64 :: g != f ==> (g in s.fids <==> g in s'.fids) && (g in s.fids ==> s'.fids[g] == s.fids[g])
    requires forall g: u32 :: g != f ==> (g in s.uses <==> g in s'.uses) && (g in s.uses ==> s'.uses[g] == s.uses[g])
    requires if f in s'.uses then Fits(s'.fids, f, s'.uses[f]) else f !in s'.fids
    ensures Agree(s')
  {
    forall g | g in s'.uses ensures Fits(s'.fids, g, s'.uses[g]) {
      if g != f {
        assert Fits(s.fids, g, s.uses[g]);
      }
    }
  }

  lemma WalkAgrees(s: State, task: Task, n: u16)
    requires Agree(s) && Enabled(s, Walk(task, n))
    ensures Agree(Apply(s, Walk(task, n)))
  {
    var f := Got(s.pool);
    var s' := Apply(s, Walk(task, n));
    GetExact(s.pool, s.uses.Keys);
    assert s'.uses.Keys == s.uses.Keys + {f};
    assert f !in s.fids;
    OneChanges(s, s', f);
  }

  lemma OnOpenAgrees(s: State, f: u32, task: Task)
    requires Agree(s) && Enabled(s, OnOpen(f, task))
    ensures Agree(Apply(s, OnOpen(f, task)))
  {
    var s' := Apply(s, OnOpen(f, task));
    assert s'.uses.Keys == s.uses.Keys;
    assert Fits(s.fids, f, s.uses[f]);
    OneChanges(s, s', f);
  }

  /** The server refuses a request of the client only because of the kind or mode of the file: never
      because a fid exists or does not, or because ROOT_FID is open. */
  lemma RefusedOnlyForFile(s: State, f: u32)
    requires Agree(s) && At(s, f, Sent)
    ensures Refusal(s.fids, s.uses[f].msg) !in {Some(Dupfid), Some(Nofid), Some(WalkOpen)}
  {
    assert Fits(s.fids, f, s.uses[f]);
  }

  lemma EnteredAt(fids: FidMap, f: u32, m: Tmsg)
    requires Own(f, m) && f < 0x8000_0000
    ensures var fids' := Entered(fids, m);
            && (forall g: u64 :: g != f ==> (g in fids <==> g in fids') && (g in fids ==> fids'[g] == fids[g]))
            && (if m.Twalk? && f != ROOT_FID then f in fids' && fids'[f] == NEW_FID else fids' == fids)
  {
    if !(m.Twalk? && f != ROOT_FID) {
      assert Made(m) == {};
      assert Entered(fids, m) == fids;
    }
  }

  lemma ReceiveAgrees(s: State, f: u32)
    requires Agree(s) && Enabled(s, Receive(f))
    ensures Agree(Apply(s, Receive(f)))
  {
    var s' := Apply(s, Receive(f));
    assert s'.uses.Keys == s.uses.Keys;
    assert Fits(s.fids, f, s.uses[f]);
    RefusedOnlyForFile(s, f);
    EnteredAt(s.fids, f, s.uses[f].msg);
    ClunkGoesIn(s.fids, f, s.uses[f].msg);
    OneChanges(s, s', f);
  }

  lemma ClunkGoesIn(fids: FidMap, f: u32, m: Tmsg)
    requires Own(f, m) && (m.Tclunk? || m.Tremove? ==> f in fids)
    ensures m.Tclunk? || m.Tremove? ==> Refusal(fids, m) == None
  {}

  lemma SettledElsewhere(fids: FidMap, f: u32, m: Tmsg, o: Outcome)
    requires Own(f, m) && f in fids && ROOT_FID in fids && f != ROOT_FID && f < 0x8000_0000
    ensures var fids' := Settled(fids, m, o);
            && (forall g: u64 :: g != f ==> (g in fids <==> g in fids') && (g in fids ==> fids'[g] == fids[g]))
            && (f in fids' <==> !(m.Tclunk? || m.Tremove? || (m.Twalk? && !Took(Exchange(m, AnsweredBy(m, o))))))
            && (m.Twalk? && f in fids' ==> fids'[f].omode == fids[f].omode)
  {
    assert Changed(fids, m, o).Keys <= {f};
    assert Dropped(m, o) <= {f};
  }

  lemma AnswerAgrees(s: State, f: u32, o: Outcome)
    requires Agree(s) && Enabled(s, Answer(f, o))
    ensures Agree(Apply(s, Answer(f, o)))
  {
    var s' := Apply(s, Answer(f, o));
    assert s'.uses.Keys == s.uses.Keys;
    assert Fits(s.fids, f, s.uses[f]);
    SettledElsewhere(s.fids, f, s.uses[f].msg, o);
    OneChanges(s, s', f);
  }

  lemma ResumeAgrees(s: State, f: u32)
    requires Agree(s) && Enabled(s, Resume(f))
    ensures Agree(Apply(s, Resume(f)))
  {
    var s' := Apply(s, Resume(f));
    var u := s.uses[f];
    assert Fits(s.fids, f, u);
    var next := Continue(f, u.task, u.past + [Exchange(u.msg, u.stage.ret)]);
    if next.End? && next.fate.PutBack? {
      PutExact(s.pool, s.uses.Keys, f);
      assert s'.uses.Keys == s.uses.Keys - {f};
    } else {
      assert s'.uses.Keys == s.uses.Keys;
    }
    OneChanges(s, s', f);
  }

  /** mixp_close does not take iolock: another thread's read or write of the fid may come after the clunk.
      It changes no fid. */
  lemma StrayAgrees(s: State, m: Tmsg, o: Outcome)
    requires Agree(s) && Enabled(s, Stray(m, o))
    ensures Apply(s, Stray(m, o)) == s
  {
    if Refusal(s.fids, m) == None {
      assert Made(m) == {} && Entered(s.fids, m) == s.fids;
    }
  }

  /** It is refused because the fid does not exist exactly when the fid is not live or lost, or is being
      walked to, clunked or removed. */
  lemma StrayRefusedExact(s: State, m: Tmsg)
    requires Agree(s) && (m.Tread? || m.Twrite?) && m.fid != ROOT_FID
    ensures Refusal(s.fids, m) == Some(Nofid) <==> !(m.fid in s.uses && Exists(s.uses[m.fid]))
  {
    if m.fid in s.uses {
      assert Fits(s.fids, m.fid, s.uses[m.fid]);
    }
  }

  /** Otherwise it reaches the file that the fid now stands for. A fid put back is the very next one to be
      handed out, unless it was the last while others are free. */
  lemma ReusedAtOnce(p: Pool, live: set<u32>, f: u32)
    requires Exact(p, live) && f in live
    ensures CanGet(Put(p, f)) && (Got(Put(p, f)) == f <==> f != p.last || p.free == [])
  {
    assert f in live && f !in p.free;
    assert p.free != [] ==> p.free[0] in p.free;
  }

  /** In every interleaving the two ends agree about which fids exist. */
  lemma {:induction false} AlwaysAgree(root: Qid, run: seq<Step>)
    requires After(root, run).Some?
    ensures Agree(After(root, run).value)
  {
    if run == [] {
      assert Agree(Mounted(root));
    } else {
      AlwaysAgree(root, run[..|run| - 1]);
      var s := After(root, run[..|run| - 1]).value;
      match run[|run| - 1] {
        case Walk(task, n) => WalkAgrees(s, task, n);
        case OnOpen(f, task) => OnOpenAgrees(s, f, task);
        case Receive(f) => ReceiveAgrees(s, f);
        case Answer(f, o) => AnswerAgrees(s, f, o);
        case Resume(f) => ResumeAgrees(s, f);
        case Stray(m, o) => StrayAgrees(s, m, o);
      }
    }
  }

  /** The fids of the server are ROOT_FID and live fids of the client; those lost are not among them.
      ROOT_FID stays, unopened. No request of the client is refused because of what fids exist. */
  lemma ClientAndServerAgree(root: Qid, run: seq<Step>)
    requires After(root, run).Some?
    ensures var s := After(root, run).value;
            && s.fids.Keys <= {ROOT_FID} + s.uses.Keys
            && ROOT_FID in s.fids && ROOT_FID !in s.uses && s.fids[ROOT_FID].omode == -1
            && (forall f :: f in s.uses ==> (f in s.fids <==> Exists(s.uses[f])))
            && (forall f :: At(s, f, Sent) ==>
                  Refusal(s.fids, s.uses[f].msg) !in {Some(Dupfid), Some(Nofid), Some(WalkOpen)})
  {
    AlwaysAgree(root, run);
    var s := After(root, run).value;
    forall f | f in s.uses ensures f != ROOT_FID && (f in s.fids <==> Exists(s.uses[f])) {
      assert Fits(s.fids, f, s.uses[f]);
    }
    forall f | At(s, f, Sent)
      ensures Refusal(s.fids, s.uses[f].msg) !in {Some(Dupfid), Some(Nofid), Some(WalkOpen)}
    {
      RefusedOnlyForFile(s, f);
    }
  }

  /** The client keeps to what the server relies on: of two requests under way, neither names a fid
      that the other makes or drops. */
  lemma RequestsAreApart(root: Qid, run: seq<Step>, f: u32, g: u32)
    requires After(root, run).Some? && f != g
    requires var u := After(root, run).value.uses; f in u && u[f].Doing? && g in u && u[g].Doing?
    ensures var u := After(root, run).value.uses;
            R.Uses(u[f].msg) !! R.Owns(u[g].msg) && R.Owns(u[f].msg) !! R.Uses(u[g].msg)
  {
    AlwaysAgree(root, run);
    var s := After(root, run).value;
    assert Fits(s.fids, f, s.uses[f]) && Fits(s.fids, g, s.uses[g]);
    assert R.Owns(s.uses[f].msg) <= {f} && R.Owns(s.uses[g].msg) <= {g};
  }

  // ---------- the course of each call ----------

  predicate Asked(x: Exchange, m: Tmsg, typ: u8) { x.msg == m && x.ret.error == None && x.ret.typ == typ }

  predicate Failed(x: Exchange, m: Tmsg) { x.msg == m && x.ret.error != None && x.ret.typ == 107 }

  predicate Walking(f: u32, m: Tmsg) { m.Twalk? && m.fid == 1 && m.newfid == f }

  predicate Walked(f: u32, x: Exchange) {
    Walking(f, x.msg) && x.ret.error == None && x.ret.typ == 111 && x.msg.nwname <= x.ret.nwqid
  }

  predicate NotWalked(f: u32, x: Exchange) {
    Walking(f, x.msg) && (x.ret.error != None || x.ret.nwqid < x.msg.nwname)
  }

  /** The last request was a clunk. */
  predicate Clunked(c: Ended, x: Exchange) {
    (Asked(x, Tclunk(c.f), 121) && c.fate.PutBack?) || (Failed(x, Tclunk(c.f)) && c.fate.Lose?)
  }

  predicate WalkFailed(c: Ended) {
    |c.past| == 1 && NotWalked(c.f, c.past[0]) && c.fate.PutBack? && !c.ok
  }

  /** A walk; m, with the reply typ: then the fid is kept. Refused, it is clunked. */
  predicate OpenEnds(c: Ended, m: Tmsg, typ: u8) {
    || WalkFailed(c)
    || (|c.past| == 2 && Walked(c.f, c.past[0]) && Asked(c.past[1], m, typ) && c.fate.Keep? && c.ok)
    || (|c.past| == 3 && Walked(c.f, c.past[0]) && Failed(c.past[1], m) && Clunked(c, c.past[2]) && !c.ok)
  }

  predicate RemoveEnds(c: Ended) {
    || WalkFailed(c)
    || (|c.past| == 2 && Walked(c.f, c.past[0])
        && if c.ok then Asked(c.past[1], Tremove(c.f), 123) && c.fate.PutBack?
           else Failed(c.past[1], Tremove(c.f)) && c.fate.Lose?)
  }

  predicate StatEnds(c: Ended) {
    || WalkFailed(c)
    || (|c.past| == 3 && Walked(c.f, c.past[0]) && Clunked(c, c.past[2])
        && if c.ok then Asked(c.past[1], Tstat(c.f), 125) else Failed(c.past[1], Tstat(c.f)))
  }

  /** One request on an open fid. */
  predicate OneEnds(c: Ended, m: Tmsg, typ: u8) {
    |c.past| == 1 && c.fate.Keep? && if c.ok then Asked(c.past[0], m, typ) else Failed(c.past[0], m)
  }

  /** The requests of a call that has returned, in order, and what came of them. */
  predicate Proper(c: Ended) {
    match c.task
    case Open(mode) => OpenEnds(c, Topen(c.f, mode), 113)
    case Create(mode) => OpenEnds(c, Tcreate(c.f, mode), 115)
    case Remove => RemoveEnds(c)
    case Stat => StatEnds(c)
    case Close => |c.past| == 1 && Clunked(c, c.past[0]) && c.ok == c.fate.PutBack?
    case Read => OneEnds(c, Tread(c.f), 117)
    case Write => OneEnds(c, Twrite(c.f), 119)
  }

  /** The second request of a call. */
  predicate Second(f: u32, task: Task, m: Tmsg) {
    match task
    case Open(mode) => m == Topen(f, mode)
    case Create(mode) => m == Tcreate(f, mode)
    case Remove => m == Tremove(f)
    case Stat => m == Tstat(f)
    case _ => false
  }

  /** The request under way, after those past. */
  predicate InCall(f: u32, task: Task, past: seq<Exchange>, m: Tmsg) {
    if |past| == 0 then
      if task.Close? then m == Tclunk(f) else if task.Read? then m == Tread(f) else if task.Write? then m == Twrite(f)
      else Walking(f, m)
    else if |past| == 1 then Walked(f, past[0]) && Second(f, task, m)
    else
      && |past| == 2 && Walked(f, past[0]) && m == Tclunk(f)
      && if task.Stat? then Asked(past[1], Tstat(f), 125) || Failed(past[1], Tstat(f))
         else (task.Open? || task.Create?) && Second(f, task, past[1].msg) && Failed(past[1], past[1].msg)
  }

  predicate Typed(m: Tmsg, ret: Ret) {
    ret.typ == if ret.error == None then R.Expected(m) else 107
  }

  /** A call goes on, or returns, as it should. */
  lemma ContinueProper(f: u32, task: Task, past: seq<Exchange>, m: Tmsg, ret: Ret)
    requires InCall(f, task, past, m) && Typed(m, ret)
    ensures var past' := past + [Exchange(m, ret)];
            match Continue(f, task, past')
            case Send(next) => InCall(f, task, past', next)
            case End(fate, ok) => Proper(Ended(f, task, past', fate, ok))
  {
  }

  // ---------- what the ends know of an open fid ----------

  /** A call that opened the fid, with this mode, and got this qid. */
  predicate Opening(c: Ended, f: u32, mode: u8, qid: Qid) {
    && c.f == f && c.fate.Keep? && c.ok && |c.past| == 2 && c.past[1].ret.qid == qid
    && ((c.task == Open(mode) && Asked(c.past[1], Topen(f, mode), 113))
        || (c.task == Create(mode) && Asked(c.past[1], Tcreate(f, mode), 115)))
  }

  /** The i-th call is the latest on the fid but for reads and writes. */
  predicate Since(calls: seq<Ended>, f: u32, i: nat) {
    forall j :: i < j < |calls| && calls[j].f == f ==> calls[j].task.Read? || calls[j].task.Write?
  }

  ghost predicate OpenedIn(calls: seq<Ended>, f: u32, h: Handle) {
    exists i :: 0 <= i < |calls| && Opening(calls[i], f, h.mode, h.qid) && Since(calls, f, i)
  }

  /** The fid is open for the client. */
  predicate IsOpen(u: Use) {
    u.Opened? || (u.Doing? && NeedsOpen(u.task) && Exists(u))
  }

  predicate HasMode(fids: FidMap, f: u32, mode: u8, qid: Qid) {
    f in fids && fids[f] == Fid(Signed(mode), qid)
  }

  /** The server has opened the fid, the client does not know yet. */
  predicate JustOpened(u: Use) {
    u.Doing? && (u.msg.Topen? || u.msg.Tcreate?) && u.stage.Replied? && u.stage.ret.error == None
  }

  ghost predicate Course(s: State, f: u32)
    requires f in s.uses
  {
    var u := s.uses[f];
    && (u.Doing? ==> InCall(f, u.task, u.past, u.msg) && (u.stage.Replied? ==> Typed(u.msg, u.stage.ret)))
    && (IsOpen(u) ==>
          && f in s.opens && OpenedIn(s.calls, f, s.opens[f])
          && HasMode(s.fids, f, s.opens[f].mode, s.opens[f].qid))
    && (JustOpened(u) ==> HasMode(s.fids, f, u.msg.mode, u.stage.ret.qid))
  }

  ghost predicate Known(s: State) {
    && Agree(s) && (forall f :: f in s.uses ==> Course(s, f))
    && (forall i :: 0 <= i < |s.calls| ==> Proper(s.calls[i]))
  }

  /** Only f's use, entry and handle change, and at most one call returns, one on f. */
  ghost predicate OnlyOf(s: State, s': State, f: u32) {
    && (forall g: u64 :: g != f && g in s.fids ==> g in s'.fids && s'.fids[g] == s.fids[g])
    && (forall g :: g != f && g in s'.uses ==> g in s.uses && s'.uses[g] == s.uses[g])
    && (forall g :: g != f && g in s.opens ==> g in s'.opens && s'.opens[g] == s.opens[g])
    && (s'.calls == s.calls
        || (|s'.calls| == |s.calls| + 1 && s'.calls[..|s.calls|] == s.calls && s'.calls[|s.calls|].f == f))
  }

  lemma OneCourse(s: State, s': State, f: u32)
    requires Known(s) && Agree(s') && OnlyOf(s, s', f) && (f in s'.uses ==> Course(s', f))
    requires forall i :: |s.calls| <= i < |s'.calls| ==> Proper(s'.calls[i])
    ensures Known(s')
  {
    forall g | g in s'.uses ensures Course(s', g) {
      if g != f {
        assert Course(s, g);
        if IsOpen(s.uses[g]) {
          StillOpened(s.calls, s'.calls, g, s.opens[g]);
        }
      }
    }
    forall i | 0 <= i < |s'.calls| ensures Proper(s'.calls[i]) {
      if i < |s.calls| {
        assert s'.calls[i] == s'.calls[..|s.calls|][i];
      }
    }
  }

  lemma StillOpened(calls: seq<Ended>, calls': seq<Ended>, f: u32, h: Handle)
    requires OpenedIn(calls, f, h)
    requires calls' == calls
      || (|calls'| == |calls| + 1 && calls'[..|calls|] == calls
          && (calls'[|calls|].f == f ==> calls'[|calls|].task.Read? || calls'[|calls|].task.Write?))
    ensures OpenedIn(calls', f, h)
  {
    var i :| 0 <= i < |calls| && Opening(calls[i], f, h.mode, h.qid) && Since(calls, f, i);
    forall j | 0 <= j < |calls| ensures calls'[j] == calls[j] {
      assert calls' == calls || calls'[j] == calls'[..|calls|][j];
    }
    assert Since(calls', f, i);
  }

  lemma WalkCourse(s: State, task: Task, n: u16)
    requires Known(s) && Enabled(s, Walk(task, n))
    ensures Known(Apply(s, Walk(task, n)))
  {
    WalkAgrees(s, task, n);
    OneCourse(s, Apply(s, Walk(task, n)), Got(s.pool));
  }

  lemma OnOpenCourse(s: State, f: u32, task: Task)
    requires Known(s) && Enabled(s, OnOpen(f, task))
    ensures Known(Apply(s, OnOpen(f, task)))
  {
    OnOpenAgrees(s, f, task);
    assert Course(s, f);
    OneCourse(s, Apply(s, OnOpen(f, task)), f);
  }

  lemma ReceiveOwn(s: State, f: u32)
    requires Enabled(s, Receive(f)) && Course(s, f) && Fits(s.fids, f, s.uses[f])
    ensures Course(Apply(s, Receive(f)), f)
  {
    EnteredAt(s.fids, f, s.uses[f].msg);
  }

  lemma ReceiveCourse(s: State, f: u32)
    requires Known(s) && Enabled(s, Receive(f))
    ensures Known(Apply(s, Receive(f)))
  {
    ReceiveAgrees(s, f);
    assert Course(s, f) && Fits(s.fids, f, s.uses[f]);
    ReceiveOwn(s, f);
    assert OnlyOf(s, Apply(s, Receive(f)), f) by { EnteredAt(s.fids, f, s.uses[f].msg); }
    OneCourse(s, Apply(s, Receive(f)), f);
  }

  lemma AnswerOwn(s: State, f: u32, o: Outcome)
    requires Enabled(s, Answer(f, o)) && Course(s, f) && Fits(s.fids, f, s.uses[f]) && Exists(s.uses[f])
    ensures Course(Apply(s, Answer(f, o)), f)
  {
    var m := s.uses[f].msg;
    assert Typed(m, AnsweredBy(m, o));
    SettledMode(s.fids, f, m, o);
  }

  /** Only a successful open or create changes the mode of the fid, or its qid once it is open. */
  lemma SettledMode(fids: FidMap, f: u32, m: Tmsg, o: Outcome)
    requires Own(f, m) && f in fids
    ensures m.Topen? || m.Tcreate? ==>
              if ReplyError(m, o) == None then HasMode(Settled(fids, m, o), f, m.mode, o.qid)
              else Settled(fids, m, o) == fids
    ensures m.Tread? || m.Twrite? || m.Tstat? ==> Settled(fids, m, o) == fids
  {}

  lemma AnswerCourse(s: State, f: u32, o: Outcome)
    requires Known(s) && Enabled(s, Answer(f, o))
    ensures Known(Apply(s, Answer(f, o)))
  {
    AnswerAgrees(s, f, o);
    assert Course(s, f) && Fits(s.fids, f, s.uses[f]);
    AnswerOwn(s, f, o);
    assert OnlyOf(s, Apply(s, Answer(f, o)), f) by { SettledElsewhere(s.fids, f, s.uses[f].msg, o); }
    OneCourse(s, Apply(s, Answer(f, o)), f);
  }

  lemma ResumeOwn(s: State, f: u32)
    requires Enabled(s, Resume(f)) && Course(s, f) && Fits(s.fids, f, s.uses[f])
    ensures f in Apply(s, Resume(f)).uses ==> Course(Apply(s, Resume(f)), f)
  {
    var u := s.uses[f];
    ContinueProper(f, u.task, u.past, u.msg, u.stage.ret);
    var past := u.past + [Exchange(u.msg, u.stage.ret)];
    if Continue(f, u.task, past).End? && Continue(f, u.task, past).fate.Keep? {
      KeepOwn(s, f, Continue(f, u.task, past).ok);
    }
  }

  lemma KeepOwn(s: State, f: u32, ok: bool)
    requires Enabled(s, Resume(f)) && Course(s, f) && Fits(s.fids, f, s.uses[f])
    requires var u := s.uses[f]; var past := u.past + [Exchange(u.msg, u.stage.ret)];
             Continue(f, u.task, past) == End(Keep, ok) && Proper(Ended(f, u.task, past, Keep, ok))
    ensures Course(Resumed(s, f), f)
  {
    var u := s.uses[f];
    var s' := Resumed(s, f);
    var c := s'.calls[|s.calls|];
    assert s'.calls[..|s.calls|] == s.calls;
    if NeedsOpen(u.task) {
      StillOpened(s.calls, s'.calls, f, s.opens[f]);
    } else {
      var h := s'.opens[f];
      assert Opening(c, f, h.mode, h.qid) && Since(s'.calls, f, |s.calls|);
      assert OpenedIn(s'.calls, f, h);
    }
  }

  lemma ResumeCourse(s: State, f: u32)
    requires Known(s) && Enabled(s, Resume(f))
    ensures Known(Apply(s, Resume(f)))
  {
    var u := s.uses[f];
    var s' := Apply(s, Resume(f));
    ResumeAgrees(s, f);
    assert Course(s, f) && Fits(s.fids, f, u);
    ResumeOwn(s, f);
    ResumeElsewhere(s, f);
    OneCourse(s, s', f);
  }

  lemma ResumeElsewhere(s: State, f: u32)
    requires Enabled(s, Resume(f)) && Course(s, f)
    ensures var s' := Apply(s, Resume(f));
            OnlyOf(s, s', f) && forall i :: |s.calls| <= i < |s'.calls| ==> Proper(s'.calls[i])
  {
    var u := s.uses[f];
    ContinueProper(f, u.task, u.past, u.msg, u.stage.ret);
  }

  lemma {:induction false} AlwaysKnown(root: Qid, run: seq<Step>)
    requires After(root, run).Some?
    ensures Known(After(root, run).value)
  {
    if run != [] {
      AlwaysKnown(root, run[..|run| - 1]);
      var s := After(root, run[..|run| - 1]).value;
      match run[|run| - 1] {
        case Walk(task, n) => WalkCourse(s, task, n);
        case OnOpen(f, task) => OnOpenCourse(s, f, task);
        case Receive(f) => ReceiveCourse(s, f);
        case Answer(f, o) => AnswerCourse(s, f, o);
        case Resume(f) => ResumeCourse(s, f);
        case Stray(m, o) => StrayAgrees(s, m, o);
      }
    }
  }

  /** Every call that has returned sent the requests it should, in order, and reports what came of them: an open or
      create keeps its fid exactly when it was granted and clunks it when it was refused; a remove succeeds only with an
      answered Tremove of its own fid; a stat clunks in any case; close, read and write send one request. */
  lemma CallsReturnProperly(root: Qid, run: seq<Step>, i: nat)
    requires After(root, run).Some? && i < |After(root, run).value.calls|
    ensures Proper(After(root, run).value.calls[i])
  {
    AlwaysKnown(root, run);
  }

  /** The same for calls under way: in particular, a refused open or create is followed by Tclunk of that fid. */
  lemma CallsProceedProperly(root: Qid, run: seq<Step>, f: u32)
    requires After(root, run).Some? && f in After(root, run).value.uses && After(root, run).value.uses[f].Doing?
    ensures var u := After(root, run).value.uses[f]; InCall(f, u.task, u.past, u.msg)
  {
    AlwaysKnown(root, run);
    assert Course(After(root, run).value, f);
  }

  /** A fid that is open for the client has, at the server, the mode and the qid of the open or create that opened
      it; reads and writes are all that was done with it since. */
  lemma OpenedAgrees(root: Qid, run: seq<Step>, f: u32)
    requires After(root, run).Some? && f in After(root, run).value.uses && IsOpen(After(root, run).value.uses[f])
    ensures var s := After(root, run).value;
            && f in s.opens && OpenedIn(s.calls, f, s.opens[f])
            && f in s.fids && s.fids[f].qid == s.opens[f].qid
            && s.fids[f].omode == s.opens[f].mode - (if s.opens[f].mode < 0x80 then 0 else 0x100)
  {
    AlwaysKnown(root, run);
    assert Course(After(root, run).value, f);
  }

  // ---------- a run ----------

  ghost predicate Moves(s: State, st: Step, s': State) { Enabled(s, st) && Apply(s, st) == s' }

  ghost predicate Leads(root: Qid, run: seq<Step>, s: State) { After(root, run) == Some(s) }

  lemma OneMore(root: Qid, run: seq<Step>, st: Step, s: State, s': State)
    requires Leads(root, run, s) && Moves(s, st, s')
    ensures Leads(root, run + [st], s')
  {
    assert (run + [st])[..|run|] == run;
  }

  /** One call, on fid 2. */
  function Single(fids: FidMap, past: seq<Exchange>, msg: Tmsg, stage: Stage): State {
    State(fids, Pool([], 2), map[2 := Doing(Open(0), past, msg, stage)], map[], [])
  }

  const CLONED := Exchange(Twalk(1, 2, 0), Ret(111, None, 0, Qid(0, 0, 0)))

  /** Fid 2 with this mode and qid. */
  function Two(root: Qid, mode: int, qid: Qid): FidMap { map[1 := Fid(-1, root), 2 := Fid(mode, qid)] }

  lemma WalkMoves(root: Qid)
    ensures Moves(Mounted(root), Walk(Open(0), 0), Single(map[1 := Fid(-1, root)], [], Twalk(1, 2, 0), Sent))
  {}

  lemma WalkReceived(root: Qid)
    ensures Moves(Single(map[1 := Fid(-1, root)], [], Twalk(1, 2, 0), Sent), Receive(2),
                  Single(Two(root, -1, Qid(0, 0, 0)), [], Twalk(1, 2, 0), AtServer))
  {
    assert Entered(map[1 := Fid(-1, root)], Twalk(1, 2, 0)) == Two(root, -1, Qid(0, 0, 0));
  }

  lemma WalkDone(root: Qid)
    ensures Moves(Single(Two(root, -1, Qid(0, 0, 0)), [], Twalk(1, 2, 0), AtServer), Answer(2, DONE),
                  Single(Two(root, -1, root), [], Twalk(1, 2, 0), Replied(CLONED.ret)))
  {
    assert Settled(Two(root, -1, Qid(0, 0, 0)), Twalk(1, 2, 0), DONE) == Two(root, -1, root);
  }

  lemma WalkResumed(root: Qid)
    ensures Moves(Single(Two(root, -1, root), [], Twalk(1, 2, 0), Replied(CLONED.ret)), Resume(2),
                  Single(Two(root, -1, root), [CLONED], Topen(2, 0), Sent))
  {
    var s := Single(Two(root, -1, root), [], Twalk(1, 2, 0), Replied(CLONED.ret));
    assert [] + [CLONED] == [CLONED] && Took(CLONED);
    assert Continue(2, Open(0), [CLONED]) == Send(Topen(2, 0));
    assert Resumed(s, 2).uses == map[2 := Doing(Open(0), [CLONED], Topen(2, 0), Sent)];
  }

  lemma OpenReceived(root: Qid)
    ensures Moves(Single(Two(root, -1, root), [CLONED], Topen(2, 0), Sent), Receive(2),
                  Single(Two(root, -1, root), [CLONED], Topen(2, 0), AtServer))
  {
    assert Entered(Two(root, -1, root), Topen(2, 0)) == Two(root, -1, root);
  }

  function Opening1(o: Outcome): Exchange {
    Exchange(Topen(2, 0), Ret(if o.error == None then 113 else 107, o.error, |o.wqids|, o.qid))
  }

  function OpenedFids(root: Qid, o: Outcome): FidMap {
    if o.error == None then Two(root, 0, o.qid) else Two(root, -1, root)
  }

  lemma OpenDone(root: Qid, o: Outcome)
    ensures Moves(Single(Two(root, -1, root), [CLONED], Topen(2, 0), AtServer), Answer(2, o),
                  Single(OpenedFids(root, o), [CLONED], Topen(2, 0), Replied(Opening1(o).ret)))
  {
    assert Settled(Two(root, -1, root), Topen(2, 0), o) == OpenedFids(root, o);
  }

  lemma OpenResumed(root: Qid, o: Outcome)
    ensures Moves(Single(OpenedFids(root, o), [CLONED], Topen(2, 0), Replied(Opening1(o).ret)), Resume(2),
                  FirstOpened(root, o))
  {
    var s := Single(OpenedFids(root, o), [CLONED], Topen(2, 0), Replied(Opening1(o).ret));
    var s', past := Resumed(s, 2), [CLONED] + [Opening1(o)];
    assert past == [CLONED, Opening1(o)];
    assert Took(Opening1(o)) <==> o.error == None;
    if o.error == None {
      assert Continue(2, Open(0), past) == End(Keep, true);
      assert s'.uses == map[2 := Opened];
      assert s'.opens == map[2 := Handle(0, o.qid)];
      assert s'.calls == [Ended(2, Open(0), past, Keep, true)];
    } else {
      assert Continue(2, Open(0), past) == Send(Tclunk(2));
      assert s'.uses == map[2 := Doing(Open(0), past, Tclunk(2), Sent)];
    }
    assert s' == FirstOpened(root, o);
  }

  function FirstOpened(root: Qid, o: Outcome): State {
    if o.error == None then
      State(Two(root, 0, o.qid), Pool([], 2), map[2 := Opened], map[2 := Handle(0, o.qid)],
            [Ended(2, Open(0), [CLONED, Opening1(o)], Keep, true)])
    else Single(Two(root, -1, root), [CLONED, Opening1(o)], Tclunk(2), Sent)
  }

  /** The first open for reading, of ROOT_FID's own file: granted, the fid is open at both ends; refused by the
      handler, Tclunk is the next request. */
  lemma FirstOpen(root: Qid, o: Outcome)
    ensures Leads(root, [Walk(Open(0), 0), Receive(2), Answer(2, DONE), Resume(2), Receive(2), Answer(2, o), Resume(2)],
                  FirstOpened(root, o))
  {
    var run := [Walk(Open(0), 0), Receive(2), Answer(2, DONE), Resume(2), Receive(2), Answer(2, o), Resume(2)];
    var s4 := Single(Two(root, -1, root), [CLONED], Topen(2, 0), Sent);
    var s5 := s4.(uses := map[2 := Doing(Open(0), [CLONED], Topen(2, 0), AtServer)]);
    FirstWalk(root);
    assert run[..4] == [Walk(Open(0), 0), Receive(2), Answer(2, DONE), Resume(2)];
    OpenReceived(root);
    OneMore(root, run[..4], run[4], s4, s5);
    OpenDone(root, o);
    var s6 := Single(OpenedFids(root, o), [CLONED], Topen(2, 0), Replied(Opening1(o).ret));
    assert run[..4] + [run[4]] == run[..5];
    OneMore(root, run[..5], run[5], s5, s6);
    OpenResumed(root, o);
    assert run[..5] + [run[5]] == run[..6];
    OneMore(root, run[..6], run[6], s6, FirstOpened(root, o));
    assert run[..6] + [run[6]] == run;
  }

  lemma FirstWalk(root: Qid)
    ensures Leads(root, [Walk(Open(0), 0), Receive(2), Answer(2, DONE), Resume(2)],
                  Single(Two(root, -1, root), [CLONED], Topen(2, 0), Sent))
  {
    var run := [Walk(Open(0), 0), Receive(2), Answer(2, DONE), Resume(2)];
    var s1 := Single(map[1 := Fid(-1, root)], [], Twalk(1, 2, 0), Sent);
    var s2 := Single(Two(root, -1, Qid(0, 0, 0)), [], Twalk(1, 2, 0), AtServer);
    var s3 := Single(Two(root, -1, root), [], Twalk(1, 2, 0), Replied(CLONED.ret));
    WalkMoves(root);
    assert [] + [run[0]] == run[..1];
    OneMore(root, [], run[0], Mounted(root), s1);
    WalkReceived(root);
    assert run[..1] + [run[1]] == run[..2];
    OneMore(root, run[..1], run[1], s1, s2);
    WalkDone(root);
    assert run[..2] + [run[2]] == run[..3];
    OneMore(root, run[..2], run[2], s2, s3);
    WalkResumed(root);
    assert run[..3] + [run[3]] == run;
    OneMore(root, run[..3], run[3], s3, Single(Two(root, -1, root), [CLONED], Topen(2, 0), Sent));
  }
}
