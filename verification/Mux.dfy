/** The client RPC multiplexer (libmixp/rpc.c) as a transition system.
    Any number of threads run muxrpc over one connection. A step is one region of code that holds
    lk, or one send or receive outside it; steps of different threads interleave freely. The rpc
    of a thread lives on its stack, so it is named by the thread's index. The server is part of
    the state: it answers what it was asked, once each, in any order. */
module Mux {
  import opened Common
  import TT = TagTable

  /** A request on its way to the server, or the reply to it; req names the call it belongs to. */
  datatype Msg = Msg(tag: nat, req: nat)

  datatype Pc =
    | Idle                // outside muxrpc
    | TagAsleep           // asleep on tagrend
    | TagWoken            // woken from tagrend, has yet to retake lk
    | Sending             // has a tag and is queued; about to send
    | Ready               // sent; about to take lk in muxrpc
    | Asleep              // asleep on its own rendezvous
    | Woken               // woken from it, has yet to retake lk
    | Receiving           // the muxer, in muxrecv without lk
    | Holding(f: Msg)     // the muxer with a reply, about to take lk in dispatchandqlock

  datatype Thread = Thread(pc: Pc, slot: nat, req: nat, p: Option<Msg>)

  /** One return from muxrpc: the call, and the reply or NULL. */
  datatype Ret = Ret(req: nat, p: Option<Msg>)

  /** mintag, and maxtag - mintag. */
  datatype Config = Config(mintag: nat, range: nat)

  datatype State = State(
    th: seq<Thread>,
    tab: TT.Table<nat>,
    queue: seq<nat>,          // the sleep queue from sleep.next on
    muxer: Option<nat>,
    asked: set<Msg>,          // sent, not yet answered
    answered: set<Msg>,       // answered, not yet received
    eof: bool,
    failed: bool,             // a send failed, or a reply did not unpack
    crashed: bool,            // an assert failed or abort() was called
    nextReq: nat,
    log: seq<Ret>)

  datatype Step =
    | Call(t: nat)                        // enter muxrpc, first region of sendrpc
    | TagSpurious(t: nat)                 // tagrend: wake without a signal
    | TagRun(t: nat)                      // woken from tagrend: retake lk, go round gettag
    | Send(t: nat)
    | SendFail(t: nat, w: Option<nat>)
    | Enter(t: nat, w: Option<nat>)       // take lk and evaluate the wait loop of muxrpc
    | Spurious(t: nat)
    | Receive(t: nat, m: Msg)
    | ReceiveEof(t: nat, w: Option<nat>)
    | GiveUp(t: nat, m: Msg, w: Option<nat>)   // receive m, which does not unpack
    | Dispatch(t: nat, w: Option<nat>)    // dispatchandqlock and what follows up to unlock
    | Answer(m: Msg)                      // the server

  // ---------- the code's regions ----------

  function SetPc(s: State, t: nat, pc: Pc): State
    requires t < |s.th|
  {
    s.(th := s.th[t := s.th[t].(pc := pc)])
  }

  /** wake(&r.r): a signal reaches a sleeper or is lost. */
  function Wake(s: State, t: nat): State
    requires t < |s.th|
  {
    if s.th[t].pc == Asleep then SetPc(s, t, Woken) else s
  }

  /** electmuxer: the queue's first rpc, and it is woken. */
  function Elect(s: State): (s': State)
    ensures |s'.th| == |s.th|
  {
    if s.queue == [] then s.(muxer := None)
    else if s.queue[0] < |s.th| then Wake(s.(muxer := Some(s.queue[0])), s.queue[0])
    else s.(crashed := true)
  }

  /** gettag and enqueue. */
  function GetTag(cfg: Config, s: State, t: nat): State
    requires t < |s.th|
  {
    if (|s.tab.wait| == 0 && !(s.tab.nwait == 0 < cfg.range)) || 0 < |s.tab.wait| <= s.tab.freetag then
      s.(crashed := true)
    else
      match TT.TakeTag(s.tab, cfg.range, t)
      case Taken(tb, i) =>
        s.(tab := tb, queue := [t] + s.queue, th := s.th[t := s.th[t].(pc := Sending, slot := i, p := None)])
      case MustSleep => SetPc(s, t, TagAsleep)
      case Abort => s.(crashed := true)
  }

  /** wake(&tagrend) signals one of the sleepers there, if there is any. */
  ghost predicate Signalled(s: State, w: Option<nat>) {
    match w
    case Some(u) => u < |s.th| && s.th[u].pc == TagAsleep
    case None => forall u :: 0 <= u < |s.th| ==> s.th[u].pc != TagAsleep
  }

  /** puttag, and the return from muxrpc with the reply r. */
  function Leave(s: State, t: nat, w: Option<nat>, r: Option<Msg>): State
    requires t < |s.th| && (w.Some? ==> w.value < |s.th|)
  {
    var th := s.th[t];
    if th.slot < |s.tab.wait| && s.tab.wait[th.slot] == Some(t) && 0 < s.tab.nwait then
      var woken := if w.Some? then SetPc(s, w.value, TagWoken) else s;
      SetPc(woken, t, Idle).(tab := TT.FreeTag(s.tab, th.slot), log := s.log + [Ret(th.req, r)])
    else
      s.(crashed := true)
  }

  /** dispatchandqlock: hand f to the rpc waiting under its tag, or drop it. */
  function HandOut(cfg: Config, s: State, f: Msg): (s': State)
    ensures |s'.th| == |s.th|
  {
    var tag := f.tag - cfg.mintag;
    if tag < 0 || |s.tab.wait| <= tag then s
    else
      match s.tab.wait[tag]
      case None => s
      case Some(r2) =>
        if r2 !in s.queue then s
        else if |s.th| <= r2 then s.(crashed := true)
        else Wake(s.(th := s.th[r2 := s.th[r2].(p := Some(f))], queue := Without(s.queue, r2)), r2)
  }

  ghost predicate Enabled(s: State, step: Step) {
    !s.crashed &&
    match step
    case Call(t) => t < |s.th| && s.th[t].pc == Idle
    case TagSpurious(t) => t < |s.th| && s.th[t].pc == TagAsleep
    case TagRun(t) => t < |s.th| && s.th[t].pc == TagWoken
    case Send(t) => t < |s.th| && s.th[t].pc == Sending
    case SendFail(t, w) => t < |s.th| && s.th[t].pc == Sending && s.muxer != Some(t) && Signalled(s, w)
    case Enter(t, w) => t < |s.th| && (s.th[t].pc == Ready || s.th[t].pc == Woken) && Signalled(s, w)
    case Spurious(t) => t < |s.th| && s.th[t].pc == Asleep
    case Receive(t, m) => t < |s.th| && s.th[t].pc == Receiving && !s.eof && m in s.answered
    case ReceiveEof(t, w) => t < |s.th| && s.th[t].pc == Receiving && Signalled(s, w)
    case GiveUp(t, m, w) => CanGiveUp(s, t, m, w) && m.req == s.th[t].req
    case Dispatch(t, w) => t < |s.th| && s.th[t].pc.Holding? && Signalled(s, w)
    case Answer(m) => m in s.asked
  }

  /** The failure branch of sendrpc, whoever the muxer is. */
  function FailSend(s: State, t: nat, w: Option<nat>): State
    requires t < |s.th| && (w.Some? ==> w.value < |s.th|)
  {
    Leave(s.(queue := Without(s.queue, t), failed := true), t, w, None)
  }

  ghost predicate CanGiveUp(s: State, t: nat, m: Msg, w: Option<nat>) {
    t < |s.th| && s.th[t].pc == Receiving && !s.eof && m in s.answered && Signalled(s, w)
  }

  /** The muxer's loop when muxrecv returns NULL for a message that does not unpack, whosever it is. The
      stream goes on. */
  function GiveUpOn(s: State, t: nat, m: Msg, w: Option<nat>): State
    requires t < |s.th| && (w.Some? ==> w.value < |s.th|)
  {
    var s1 := Elect(s.(queue := Without(s.queue, t), answered := s.answered - {m}, failed := true));
    Leave(s1, t, w, s1.th[t].p)
  }

  /** The loop at lines 164-165 of muxrpc and what follows it, up to the next unlock or sleep. */
  function EnterLoop(s: State, t: nat, w: Option<nat>): State
    requires t < |s.th| && (w.Some? ==> w.value < |s.th|)
  {
    if s.muxer.Some? && s.muxer != Some(t) && s.th[t].p.None? then SetPc(s, t, Asleep)
    else if s.th[t].p.Some? then Leave(s, t, w, s.th[t].p)
    else SetPc(s.(muxer := Some(t)), t, Receiving)
  }

  function AfterHandOut(s: State, t: nat, w: Option<nat>): State
    requires t < |s.th| && (w.Some? ==> w.value < |s.th|)
  {
    if s.th[t].p.None? then SetPc(s, t, Receiving)
    else Leave(Elect(s), t, w, s.th[t].p)
  }

  function Apply(cfg: Config, s: State, step: Step): State
    requires Enabled(s, step)
  {
    match step
    case Call(t) =>
      GetTag(cfg, s.(th := s.th[t := s.th[t].(req := s.nextReq, p := None)], nextReq := s.nextReq + 1), t)
    case TagSpurious(t) => SetPc(s, t, TagWoken)
    case TagRun(t) => GetTag(cfg, s, t)
    case Send(t) =>
      SetPc(s, t, Ready).(asked := s.asked + {Msg(cfg.mintag + s.th[t].slot, s.th[t].req)})
    case SendFail(t, w) => FailSend(s, t, w)
    case Enter(t, w) => EnterLoop(s, t, w)
    case Spurious(t) => SetPc(s, t, Woken)
    case Receive(t, m) => SetPc(s, t, Holding(m)).(answered := s.answered - {m})
    case ReceiveEof(t, w) =>
      var s1 := Elect(s.(queue := Without(s.queue, t), eof := true));
      Leave(s1, t, w, s1.th[t].p)
    case GiveUp(t, m, w) => GiveUpOn(s, t, m, w)
    case Dispatch(t, w) => AfterHandOut(HandOut(cfg, s, s.th[t].pc.f), t, w)
    case Answer(m) => s.(asked := s.asked - {m}, answered := s.answered + {m})
  }

  ghost predicate Init(cfg: Config, s: State) {
    && TT.Valid(s.tab, cfg.range) && s.tab.nwait == 0
    && (forall t :: 0 <= t < |s.th| ==> s.th[t].pc == Idle && s.th[t].p.None?)
    && s.queue == [] && s.muxer == None && s.asked == {} && s.answered == {}
    && !s.eof && !s.failed && !s.crashed && s.nextReq == 0 && s.log == []
  }

  ghost predicate Next(cfg: Config, s: State, s': State) {
    exists step :: Enabled(s, step) && s' == Apply(cfg, s, step)
  }

  ghost predicate IsRun(cfg: Config, run: seq<State>) {
    Steps(cfg, run) && Init(cfg, run[0])
  }

  /** A sequence of states that steps lead through. */
  ghost predicate Steps(cfg: Config, run: seq<State>) {
    0 < |run| && forall i :: 0 <= i < |run| - 1 ==> NextAt(cfg, run, i)
  }

  ghost predicate NextAt(cfg: Config, run: seq<State>, i: nat)
    requires i + 1 < |run|
  {
    Next(cfg, run[i], run[i + 1])
  }

  // ---------- the invariant ----------

  predicate HasTag(pc: Pc) {
    !pc.Idle? && !pc.TagAsleep? && !pc.TagWoken?
  }

  /** Has a tag and no reply yet. */
  predicate Unanswered(th: Thread) {
    HasTag(th.pc) && th.p.None?
  }

  predicate InRecv(pc: Pc) {
    pc.Receiving? || pc.Holding?
  }

  /** Neither asleep nor waiting for a tag: the thread will run without anyone's help. */
  predicate Awake(pc: Pc) {
    pc.Sending? || pc.Ready? || pc.Woken? || pc.Receiving? || pc.Holding?
  }

  /** Slots and rpcs point at each other. */
  ghost predicate TableInv(cfg: Config, s: State) {
    && TT.Valid(s.tab, cfg.range)
    && (forall i :: 0 <= i < |s.tab.wait| && s.tab.wait[i].Some? ==>
          var t := s.tab.wait[i].value; t < |s.th| && HasTag(s.th[t].pc) && s.th[t].slot == i)
    && (forall t :: 0 <= t < |s.th| && HasTag(s.th[t].pc) ==>
          s.th[t].slot < |s.tab.wait| && s.tab.wait[s.th[t].slot] == Some(t))
  }

  /** The queue holds exactly the unanswered rpcs, once each; gone is a thread on its way out. */
  ghost predicate QueueInv(s: State, gone: set<nat>) {
    && NoDuplicates(s.queue)
    && forall t: nat :: t in s.queue <==> t < |s.th| && t !in gone && Unanswered(s.th[t])
  }

  /** muxer is null or queued, and then its owner is awake; only the muxer is receiving; whoever
      is asleep has no reply and somebody else holds the role. */
  ghost predicate MuxerInv(s: State, gone: set<nat>) {
    && (s.muxer.Some? ==>
          s.muxer.value in s.queue && s.muxer.value < |s.th| && Awake(s.th[s.muxer.value].pc))
    && (forall t :: 0 <= t < |s.th| && t !in gone && InRecv(s.th[t].pc) ==> s.muxer == Some(t))
    && (forall t :: 0 <= t < |s.th| && s.th[t].pc == Asleep ==> s.th[t].p.None? && s.muxer.Some?)
  }

  /** An answered rpc has sent its request, is not receiving, and its reply is to its own request. */
  ghost predicate ReplyInv(s: State, gone: set<nat>) {
    forall t :: 0 <= t < |s.th| && HasTag(s.th[t].pc) && s.th[t].p.Some? ==>
      && s.th[t].p.value.req == s.th[t].req
      && (t in gone || s.th[t].pc == Ready || s.th[t].pc == Woken)
  }

  /** The message m belongs to the unanswered rpc registered under its tag. */
  ghost predicate Owned(cfg: Config, s: State, m: Msg) {
    && cfg.mintag <= m.tag < cfg.mintag + |s.tab.wait|
    && s.tab.wait[m.tag - cfg.mintag].Some?
    && var t := s.tab.wait[m.tag - cfg.mintag].value;
    t in s.queue && t < |s.th| && s.th[t].pc != Sending && s.th[t].req == m.req
  }

  ghost predicate Held(s: State, m: Msg, gone: set<nat>) {
    exists t :: 0 <= t < |s.th| && t !in gone && s.th[t].pc == Holding(m)
  }

  ghost predicate InFlight(s: State, m: Msg, gone: set<nat>) {
    m in s.asked || m in s.answered || Held(s, m, gone)
  }

  /** Until end of stream every message in flight is owned, and is in one place only. */
  ghost predicate MsgInv(cfg: Config, s: State, gone: set<nat>) {
    && (s.eof ==> forall t :: 0 <= t < |s.th| && t !in gone ==> !s.th[t].pc.Holding?)
    && (!s.eof ==>
          && s.asked !! s.answered
          && (forall m :: m in s.asked || m in s.answered ==> Owned(cfg, s, m))
          && (forall t :: 0 <= t < |s.th| && t !in gone && s.th[t].pc.Holding? ==>
                var m := s.th[t].pc.f; Owned(cfg, s, m) && m !in s.asked && m !in s.answered))
  }

  /** Until end of stream the request of every waiting rpc is somewhere. */
  ghost predicate PendingInv(cfg: Config, s: State, gone: set<nat>) {
    !s.eof ==> forall t :: 0 <= t < |s.th| && t !in gone && Unanswered(s.th[t]) && s.th[t].pc != Sending ==>
                 InFlight(s, Msg(cfg.mintag + s.th[t].slot, s.th[t].req), gone)
  }

  function WokenForTag(th: Thread): nat {
    if th.pc == TagWoken then 1 else 0
  }

  /** While a thread sleeps on tagrend the table is at its full size, and there are no more free
      tags than threads woken from tagrend that have yet to run. */
  ghost predicate WaiterInv(cfg: Config, s: State) {
    (exists t :: 0 <= t < |s.th| && s.th[t].pc == TagAsleep) ==>
      cfg.range <= |s.tab.wait| && |s.tab.wait| <= s.tab.nwait + Sum(s.th, WokenForTag)
  }

  /** What muxrpc returned: the reply to that very call, or NULL after a failed send or receive. */
  ghost predicate LogInv(s: State) {
    forall k :: 0 <= k < |s.log| ==>
      (match s.log[k].p
       case Some(m) => m.req == s.log[k].req
       case None => s.eof || s.failed)
  }

  ghost predicate Returned(log: seq<Ret>, q: nat) {
    exists k :: 0 <= k < |log| && log[k].req == q
  }

  ghost predicate Running(th: seq<Thread>, q: nat) {
    exists t :: 0 <= t < |th| && th[t].pc != Idle && th[t].req == q
  }

  /** Every call is either still running or has returned, never both and never twice. */
  ghost predicate CallInv(s: State) {
    && (forall q: nat :: q < s.nextReq ==> Running(s.th, q) || Returned(s.log, q))
    && (forall t :: 0 <= t < |s.th| && s.th[t].pc != Idle ==> s.th[t].req < s.nextReq && !Returned(s.log, s.th[t].req))
    && (forall t, u :: 0 <= t < u < |s.th| && s.th[t].pc != Idle && s.th[u].pc != Idle ==> s.th[t].req != s.th[u].req)
    && (forall j, k :: 0 <= j < k < |s.log| ==> s.log[j].req != s.log[k].req)
    && (forall k :: 0 <= k < |s.log| ==> s.log[k].req < s.nextReq)
  }

  /** The invariant with the threads in gone taken out of the sleep queue already. */
  ghost predicate InvBut(cfg: Config, s: State, gone: set<nat>) {
    && !s.crashed
    && TableInv(cfg, s) && QueueInv(s, gone) && MuxerInv(s, gone) && ReplyInv(s, gone)
    && MsgInv(cfg, s, gone) && PendingInv(cfg, s, gone)
    && WaiterInv(cfg, s) && LogInv(s) && CallInv(s)
  }

  ghost predicate Inv(cfg: Config, s: State) {
    InvBut(cfg, s, {})
  }
}
