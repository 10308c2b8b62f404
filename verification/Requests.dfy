/** The server's pending requests (libmixp/request.c) as a state machine: a request is admitted
    under its tag, refused or handed to a handler, and answered at once or later. Answering a flush
    answers the request it flushes first. */
module Requests {
  import opened Common
  import opened Wire
  import opened Layout
  import opened Fids

  datatype Event =
    | Admit(tag: u16, msg: Tmsg)
    | Call(msg: Tmsg)                  // a handler is called
    | Created(fids: set<u64>)            // fids are made, unopened
    | Place(fid: u64, qid: Qid)        // a successful attach or full walk
    | Clone(fid: u64, from: u64)       // a walk of no components
    | Opened(fid: u64, mode: u8, qid: Qid)
    | Forgot(fids: set<u64>)
    | Reply(tag: u16, typ: u8, error: Option<Error>)

  /** born says when a pending request was admitted. */
  datatype Server = Server(
    fids: FidMap,
    tags: map<u16, Tmsg>,
    born: map<u16, nat>,
    log: seq<Event>)

  const INIT := Server(map[], map[], map[], [])

  // ---------- answering ----------

  /** A successful attach, walk, open or create. */
  function SetEvent(m: Tmsg, o: Outcome): Option<Event> {
    match m
    case Tattach(f) => if o.error == None then Some(Place(Key(f), o.qid)) else None
    case Topen(f, mode) => if o.error == None then Some(Opened(f, mode, o.qid)) else None
    case Tcreate(f, mode) => if o.error == None then Some(Opened(f, mode, o.qid)) else None
    case Twalk(f, _, _) =>
      if !FullWalk(m, o) then None
      else if o.wqids == [] then Some(Clone(Target(m), f))
      else Some(Place(Target(m), o.wqids[|o.wqids| - 1]))
    case _ => None
  }

  function Answered(m: Tmsg, o: Outcome): seq<Event> {
    match SetEvent(m, o)
    case None => [Forgot(Dropped(m, o))]
    case Some(e) => [e] + [Forgot(Dropped(m, o))]
  }

  function AckType(m: Tmsg): u8 { (TypeOf(m) + 1) % 0x100 }

  function ReplyTo(tag: u16, m: Tmsg, error: Option<Error>): Event {
    Reply(tag, if error == None then AckType(m) else RERROR, error)
  }

  function Untagged(s: Server, tag: u16): Server {
    s.(tags := s.tags - {tag}, born := s.born - {tag})
  }

  /** One request answered, without the flush. */
  function Finish(s: Server, tag: u16, o: Outcome): Server
    requires tag in s.tags
  {
    var m := s.tags[tag];
    Untagged(s, tag).(
      fids := Settled(s.fids, m, o),
      log := s.log + Answered(m, o) + [ReplyTo(tag, m, ReplyError(m, o))])
  }

  /** A request that handlereq refuses: its fids are not set. */
  function Refuse(s: Server, tag: u16, e: Error): Server
    requires tag in s.tags
  {
    Untagged(s, tag).(log := s.log + [ReplyTo(tag, s.tags[tag], Some(e))])
  }

  function Flushed(tags: map<u16, Tmsg>, tag: u16): Option<u16>
    requires tag in tags
    ensures Flushed(tags, tag).Some? ==> Flushed(tags, tag).value in tags
  {
    if tags[tag].Tflush? && tags[tag].oldtag in tags then Some(tags[tag].oldtag) else None
  }

  /** The requests that answering one answers, the last of them first. */
  function Chain(tags: map<u16, Tmsg>, tag: u16): (c: seq<u16>)
    requires tag in tags
    ensures |c| > 0 && c[0] == tag
    decreases |tags|
  {
    match Flushed(tags, tag)
    case None => [tag]
    case Some(prior) => [tag] + (if prior == tag then [] else Chain(tags - {tag}, prior))
  }

  function AnswerAll(s: Server, c: seq<u16>, o: Outcome): Server {
    if c == [] then s
    else
      var s' := AnswerAll(s, c[1..], Fail(Intr));
      if c[0] in s'.tags then Finish(s', c[0], o) else s'
  }

  function Answer(s: Server, tag: u16, o: Outcome): Server
    requires tag in s.tags
  {
    AnswerAll(s, Chain(s.tags, tag), o)
  }

  // ---------- admitting ----------

  /** What is answered on the spot: always a version, and whatever srv has no function for. The
      attach function is required. Otherwise the handler may answer now (Some) or later (None). */
  function Effective(ops: set<u8>, m: Tmsg, h: Option<Outcome>): Option<Outcome> {
    if m.Tversion? then Some(DONE)
    else if m.Tattach? || TypeOf(m) in ops then h
    else if m.Tclunk? then Some(DONE)
    else Some(Fail(Nofunc))
  }

  function CallEvents(ops: set<u8>, m: Tmsg): seq<Event> {
    if !m.Tversion? && (m.Tattach? || TypeOf(m) in ops) then [Call(m)] else []
  }

  function EntryEvents(ops: set<u8>, m: Tmsg): seq<Event> { [Created(Made(m))] + CallEvents(ops, m) }

  function RefusalOf(s: Server, m: Tmsg): Option<Error> {
    if m.Tflush? && m.oldtag !in s.tags then Some(Notag) else Refusal(s.fids, m)
  }

  function Admitted(s: Server, tag: u16, m: Tmsg): Server {
    s.(tags := s.tags[tag := m], born := s.born[tag := |s.log|], log := s.log + [Admit(tag, m)])
  }

  /** The request's fids are made and its handler, if there is one, is called. */
  function Entry(s: Server, ops: set<u8>, m: Tmsg): Server {
    s.(fids := Entered(s.fids, m), log := s.log + EntryEvents(ops, m))
  }

  function Receive(s: Server, ops: set<u8>, tag: u16, m: Tmsg, h: Option<Outcome>): Server {
    Proceed(Admitted(s, tag, m), ops, tag, h)
  }

  /** A request just admitted is refused, or goes to its handler. */
  function Proceed(s: Server, ops: set<u8>, tag: u16, h: Option<Outcome>): Server
    requires tag in s.tags
  {
    match RefusalOf(s, s.tags[tag])
    case Some(e) => Refuse(s, tag, e)
    case None => Handled(Entry(s, ops, s.tags[tag]), ops, tag, h)
  }

  /** The handler answers now or later. */
  function Handled(s: Server, ops: set<u8>, tag: u16, h: Option<Outcome>): Server
    requires tag in s.tags
  {
    match Effective(ops, s.tags[tag], h)
    case None => s
    case Some(o) => Answer(s, tag, o)
  }

  /** A request received under a tag in use is not admitted; its refusal deletes the tag. */
  function Duplicate(s: Server, tag: u16, m: Tmsg): Server {
    var s1 := if m.Tflush? && m.oldtag in s.tags then Answer(s, m.oldtag, Fail(Intr)) else s;
    Untagged(s1, tag).(log := s1.log + [ReplyTo(tag, m, Some(Duptag))])
  }

  // ---------- runs ----------

  datatype Step = Receiving(tag: u16, msg: Tmsg, h: Option<Outcome>) | Answering(tag: u16, o: Outcome)

  /** The fids that a request names, and those that only it may name while it is pending. */
  function Uses(m: Tmsg): set<u64> {
    match m
    case Tversion(_) => {}
    case Tflush(_) => {}
    case Tother(_) => {}
    case Tattach(f) => {Key(f)}
    case Twalk(f, _, _) => {f, Target(m)}
    case _ => {m.fid}
  }

  function Owns(m: Tmsg): set<u64> {
    Made(m) + (if m.Tclunk? || m.Tremove? then {m.fid} else {})
  }

  /** What the server relies on. The tag is not in use, nor, following flush(5), waiting for the
      answer to its flush; attach takes a new fid; no request names a fid that a pending one makes
      or drops, or drops one that a pending one names. Handlers answer pending requests only. */
  predicate Allowed(s: Server, st: Step) {
    match st
    case Receiving(tag, m, _) =>
      && tag !in s.tags
      && (forall t :: t in s.tags && s.tags[t].Tflush? ==> s.tags[t].oldtag != tag)
      && (m.Tflush? ==> m.oldtag != tag)
      && (m.Tattach? ==> Key(m.fid) !in s.fids)
      && (RefusalOf(s, m) == None ==> Apart(s.tags, m))
    case Answering(tag, _) => tag in s.tags
  }

  predicate Apart(tags: map<u16, Tmsg>, m: Tmsg) {
    forall t :: t in tags ==> Uses(m) !! Owns(tags[t]) && Owns(m) !! Uses(tags[t])
  }

  function Apply(s: Server, ops: set<u8>, st: Step): Server
    requires Allowed(s, st)
  {
    match st
    case Receiving(tag, m, h) => Receive(s, ops, tag, m, h)
    case Answering(tag, o) => Answer(s, tag, o)
  }

  /** The state after a run; None when the run does not keep to what the server relies on. */
  function After(ops: set<u8>, run: seq<Step>): Option<Server> {
    if run == [] then Some(INIT)
    else match After(ops, run[..|run| - 1])
      case None => None
      case Some(s) => if Allowed(s, run[|run| - 1]) then Some(Apply(s, ops, run[|run| - 1])) else None
  }

  // ---------- what the log says ----------

  function Last(log: seq<Event>): Event
    requires log != []
  {
    log[|log| - 1]
  }

  function Front(log: seq<Event>): seq<Event>
    requires log != []
  {
    log[..|log| - 1]
  }

  /** The reply of intro(5) to each request. */
  function Expected(m: Tmsg): u8 {
    match m
    case Tversion(_) => 101
    case Tattach(_) => 105
    case Tflush(_) => 109
    case Twalk(_, _, _) => 111
    case Topen(_, _) => 113
    case Tcreate(_, _) => 115
    case Tread(_) => 117
    case Twrite(_) => 119
    case Tclunk(_) => 121
    case Tremove(_) => 123
    case Tstat(_) => 125
    case Tother(t) => (t + 1) % 0x100
  }

  /** The requests admitted and not answered, or None if some reply is not one to a pending request
      (its own tag, the reply of intro(5) or Rerror) or answers a flush before the request it flushes. */
  function Replay(log: seq<Event>): Option<map<u16, Tmsg>> {
    if log == [] then Some(map[])
    else match Replay(Front(log))
      case None => None
      case Some(p) => ReplayOne(p, Last(log))
  }

  function ReplayOne(p: map<u16, Tmsg>, e: Event): Option<map<u16, Tmsg>> {
    match e
    case Admit(t, m) => if t in p then None else Some(p[t := m])
    case Reply(t, typ, err) =>
      if t in p && typ == (if err == None then Expected(p[t]) else 107)
         && (p[t].Tflush? ==> p[t].oldtag !in p)
      then Some(p - {t}) else None
    case _ => Some(p)
  }

  /** The mode of the latest successful open or create of a fid, if it was not dropped since. */
  function LastMode(log: seq<Event>, f: u64): Option<u8> {
    if log == [] then None else ModeAfter(LastMode(Front(log), f), Last(log), f)
  }

  function ModeAfter(before: Option<u8>, e: Event, f: u64): Option<u8> {
    if e.Opened? && e.fid == f then Some(e.mode)
    else if e.Forgot? && f in e.fids then None
    else before
  }

  /** The fid table that the log makes. */
  function Table(log: seq<Event>): FidMap {
    if log == [] then map[] else TableAfter(Table(Front(log)), Last(log))
  }

  function TableAfter(t: FidMap, e: Event): FidMap {
    match e
    case Created(fids) => t + (map f | f in fids :: NEW_FID)
    case Place(f, q) => if f in t then t[f := t[f].(qid := q)] else t
    case Clone(f, g) => if f in t && g in t then t[f := t[f].(qid := t[g].qid)] else t
    case Opened(f, mode, q) => t[f := Fid(Signed(mode), q)]
    case Forgot(fids) => t - fids
    case _ => t
  }

  /** Every write that reached its handler had been granted, and every read. */
  predicate Granted(log: seq<Event>) {
    forall i :: 0 <= i < |log| ==> GrantedOne(log[..i], log[i])
  }

  predicate GrantedOne(before: seq<Event>, e: Event) {
    e.Call? ==>
      match e.msg
      case Twrite(f) => LastMode(before, f).Some? && LastMode(before, f).value % 4 in {1, 2}
      case Tread(f) => LastMode(before, f).Some? && LastMode(before, f).value !in {1, 255}
      case _ => true
  }
}
