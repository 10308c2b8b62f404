/** What the two failures that are kept out of the multiplexer's runs cost (libmixp/rpc.c), from any
    state and in every continuation: after a muxer's send fails nobody who waits for a reply gets one,
    and after somebody else's reply does not unpack that call never returns one. */
module MuxHarm {
  import opened Common
  import opened Mux
  import P = MuxProof
  import TT = TagTable

  // ---------- the send of the muxer fails ----------

  /** The role of muxer is with a thread that is outside muxrpc, and nobody receives. */
  ghost predicate Orphaned(s: State, t: nat) {
    && s.muxer == Some(t) && t < |s.th| && s.th[t].pc == Idle
    && forall v :: 0 <= v < |s.th| ==> !InRecv(s.th[v].pc)
  }

  /** The thread u has sent its request and waits for the reply. */
  ghost predicate Waits(s: State, u: nat, q: nat) {
    u < |s.th| && (s.th[u].pc == Ready || s.th[u].pc == Asleep || s.th[u].pc == Woken)
    && s.th[u].p.None? && s.th[u].req == q
  }

  ghost predicate StillWait(s: State, s': State) {
    forall u, q :: Waits(s, u, q) ==> Waits(s', u, q)
  }

  lemma FailSendOrphans(cfg: Config, s: State, t: nat, w: Option<nat>)
    requires Inv(cfg, s) && t < |s.th| && s.th[t].pc == Sending && s.muxer == Some(t) && Signalled(s, w)
    ensures Orphaned(FailSend(s, t, w), t) && StillWait(s, FailSend(s, t, w))
  {
    var s1 := s.(queue := Without(s.queue, t), failed := true);
    P.LeaveIsLeft(cfg, s1, t, w, None);
    LeftOrphaned(s1, FailSend(s, t, w), t);
  }

  lemma LeftOrphaned(s: State, s': State, t: nat)
    requires P.Left(s, s', t, None) && s.th[t].pc == Sending && s.muxer == Some(t)
    requires forall v :: 0 <= v < |s.th| ==> !InRecv(s.th[v].pc)
    ensures Orphaned(s', t) && StillWait(s, s')
  {}

  lemma OrphanedGetTag(cfg: Config, s: State, v: nat, t: nat)
    requires Orphaned(s, t) && v < |s.th| && v != t && !HasTag(s.th[v].pc)
    ensures Orphaned(GetTag(cfg, s, v), t) && StillWait(s, GetTag(cfg, s, v))
  {}

  lemma OrphanedLeave(s: State, v: nat, w: Option<nat>, r: Option<Msg>, t: nat)
    requires Orphaned(s, t) && v < |s.th| && v != t && Signalled(s, w)
    requires s.th[v].pc == Sending || s.th[v].p.Some?
    ensures Orphaned(Leave(s, v, w, r), t) && StillWait(s, Leave(s, v, w, r))
  {}

  lemma OrphanedCall(cfg: Config, s: State, v: nat, t: nat)
    requires Orphaned(s, t) && Enabled(s, Call(v)) && v != t
    ensures Orphaned(Apply(cfg, s, Call(v)), t) && StillWait(s, Apply(cfg, s, Call(v)))
  {
    var s1 := s.(th := s.th[v := s.th[v].(req := s.nextReq, p := None)], nextReq := s.nextReq + 1);
    assert Orphaned(s1, t) && StillWait(s, s1);
    OrphanedGetTag(cfg, s1, v, t);
  }

  lemma OrphanedSendFail(s: State, v: nat, w: Option<nat>, t: nat)
    requires Orphaned(s, t) && Enabled(s, SendFail(v, w))
    ensures Orphaned(FailSend(s, v, w), t) && StillWait(s, FailSend(s, v, w))
  {
    OrphanedLeave(s.(queue := Without(s.queue, v), failed := true), v, w, None, t);
  }

  lemma OrphanedEnter(s: State, v: nat, w: Option<nat>, t: nat)
    requires Orphaned(s, t) && Enabled(s, Enter(v, w))
    ensures Orphaned(EnterLoop(s, v, w), t) && StillWait(s, EnterLoop(s, v, w))
  {
    if s.th[v].p.Some? {
      OrphanedLeave(s, v, w, s.th[v].p, t);
    }
  }

  lemma OrphanedStep(cfg: Config, s: State, step: Step, t: nat)
    requires Orphaned(s, t) && Enabled(s, step) && step != Call(t)
    ensures Orphaned(Apply(cfg, s, step), t) && StillWait(s, Apply(cfg, s, step))
  {
    match step
    case Call(v) => OrphanedCall(cfg, s, v, t);
    case TagRun(v) => OrphanedGetTag(cfg, s, v, t);
    case SendFail(v, w) => OrphanedSendFail(s, v, w, t);
    case Enter(v, w) => OrphanedEnter(s, v, w, t);
    case _ => OrphanedRest(cfg, s, step, t);
  }

  lemma OrphanedRest(cfg: Config, s: State, step: Step, t: nat)
    requires Orphaned(s, t) && Enabled(s, step)
    requires !step.Call? && !step.TagRun? && !step.SendFail? && !step.Enter?
    ensures Orphaned(Apply(cfg, s, step), t) && StillWait(s, Apply(cfg, s, step))
  {}

  /** A continuation in which the thread t makes no call. */
  ghost predicate ContinuesWithout(cfg: Config, run: seq<State>, t: nat) {
    0 < |run| && forall i :: 0 <= i < |run| - 1 ==> StepWithout(cfg, run, i, t)
  }

  ghost predicate StepWithout(cfg: Config, run: seq<State>, i: nat, t: nat)
    requires i + 1 < |run|
  {
    exists step :: Enabled(run[i], step) && step != Call(t) && run[i + 1] == Apply(cfg, run[i], step)
  }

  lemma {:induction false} OrphansStay(cfg: Config, run: seq<State>, t: nat, i: nat)
    requires ContinuesWithout(cfg, run, t) && Orphaned(run[0], t) && i < |run|
    ensures Orphaned(run[i], t) && StillWait(run[0], run[i])
  {
    if i > 0 {
      OrphansStay(cfg, run, t, i - 1);
      assert StepWithout(cfg, run, i - 1, t);
      StepOrphaned(cfg, run, i - 1, t);
    }
  }

  /** Whenever the send of an rpc that was elected muxer fails, every thread that has sent its request
      waits for ever, whatever the others and the server do, until the thread of that rpc calls again. */
  lemma SendFailureStrandsAll(cfg: Config, s: State, t: nat, w: Option<nat>, run: seq<State>, i: nat)
    requires Inv(cfg, s) && t < |s.th| && s.th[t].pc == Sending && s.muxer == Some(t) && Signalled(s, w)
    requires ContinuesWithout(cfg, run, t) && run[0] == FailSend(s, t, w) && i < |run|
    ensures Orphaned(run[i], t) && StillWait(s, run[i])
  {
    FailSendOrphans(cfg, s, t, w);
    OrphansStay(cfg, run, t, i);
  }

  lemma StepOrphaned(cfg: Config, run: seq<State>, i: nat, t: nat)
    requires i + 1 < |run| && StepWithout(cfg, run, i, t) && Orphaned(run[i], t)
    ensures Orphaned(run[i + 1], t) && StillWait(run[i], run[i + 1])
  {
    var step :| Enabled(run[i], step) && step != Call(t) && run[i + 1] == Apply(cfg, run[i], step);
    OrphanedStep(cfg, run[i], step, t);
  }

  // ---------- somebody else's reply does not unpack ----------

  /** No message in flight has the tag of the slot. */
  ghost predicate NoMessage(cfg: Config, s: State, slot: nat) {
    && (forall m :: m in s.asked || m in s.answered ==> m.tag != cfg.mintag + slot)
    && (forall v :: 0 <= v < |s.th| && s.th[v].pc.Holding? ==> s.th[v].pc.f.tag != cfg.mintag + slot)
  }

  /** u waits for a reply that cannot come any more. */
  ghost predicate Deaf(cfg: Config, s: State, u: nat) {
    && u < |s.th| && HasTag(s.th[u].pc) && s.th[u].pc != Sending && s.th[u].p.None?
    && NoMessage(cfg, s, s.th[u].slot)
  }

  /** The call q has returned no reply and, if the thread u still runs it, will return none. */
  ghost predicate Silent(cfg: Config, s: State, u: nat, q: nat) {
    && TableInv(cfg, s) && q < s.nextReq
    && (forall k :: 0 <= k < |s.log| && s.log[k].req == q ==> s.log[k].p.None?)
    && (forall v :: 0 <= v < |s.th| && v != u && s.th[v].pc != Idle ==> s.th[v].req != q)
    && (u < |s.th| && s.th[u].pc != Idle && s.th[u].req == q ==> Deaf(cfg, s, u))
  }

  lemma SilentMove(cfg: Config, s: State, s': State, v: nat, u: nat, q: nat)
    requires Silent(cfg, s, u, q) && P.Moved(s, s', v) && HasTag(s.th[v].pc) && HasTag(s'.th[v].pc)
    requires s'.th[v].pc != Sending && !s'.th[v].pc.Holding?
    requires s'.asked == s.asked && s'.answered == s.answered
    ensures Silent(cfg, s', u, q)
  {}

  lemma SilentTagWait(cfg: Config, s: State, s': State, v: nat, u: nat, q: nat)
    requires Silent(cfg, s, u, q) && P.TagWaitMove(s, s', v)
    ensures Silent(cfg, s', u, q)
  {}

  lemma SilentTaken(cfg: Config, s: State, s': State, v: nat, u: nat, q: nat)
    requires Silent(cfg, s, u, q) && P.TagTaken(s, s', v) && TT.Valid(s'.tab, cfg.range)
    ensures Silent(cfg, s', u, q)
  {
    assert TableInv(cfg, s');
  }

  lemma SilentGetTag(cfg: Config, s: State, v: nat, u: nat, q: nat)
    requires Silent(cfg, s, u, q) && v < |s.th| && s.th[v].pc == TagWoken
    ensures Silent(cfg, GetTag(cfg, s, v), u, q)
  {
    TT.TakeTagCorrect(s.tab, cfg.range, v);
    if TT.TakeTag(s.tab, cfg.range, v).MustSleep? {
      SilentTagWait(cfg, s, GetTag(cfg, s, v), v, u, q);
    } else {
      SilentTaken(cfg, s, GetTag(cfg, s, v), v, u, q);
    }
  }

  lemma SilentCall(cfg: Config, s: State, v: nat, u: nat, q: nat)
    requires Silent(cfg, s, u, q) && Enabled(s, Call(v))
    ensures Silent(cfg, Apply(cfg, s, Call(v)), u, q)
  {
    SilentEntered(cfg, s, v, u, q);
    P.EnteredGetTag(cfg, s, v);
    SilentGetTag(cfg, P.Entered(s, v), v, u, q);
  }

  lemma SilentEntered(cfg: Config, s: State, v: nat, u: nat, q: nat)
    requires Silent(cfg, s, u, q) && v < |s.th| && s.th[v].pc == Idle
    ensures Silent(cfg, P.Entered(s, v), u, q)
  {}

  lemma SilentLeave(cfg: Config, s: State, v: nat, w: Option<nat>, r: Option<Msg>, u: nat, q: nat)
    requires Silent(cfg, s, u, q) && v < |s.th| && HasTag(s.th[v].pc) && Signalled(s, w)
    requires r == s.th[v].p || r == None
    ensures Silent(cfg, Leave(s, v, w, r), u, q)
  {
    var s' := Leave(s, v, w, r);
    P.LeaveIsLeft(cfg, s, v, w, r);
    P.LeftTable(cfg, s, s', v, r);
    SilentLeft(cfg, s, s', v, r, u, q);
  }

  lemma SilentLeft(cfg: Config, s: State, s': State, v: nat, r: Option<Msg>, u: nat, q: nat)
    requires Silent(cfg, s, u, q) && P.Left(s, s', v, r) && HasTag(s.th[v].pc) && TableInv(cfg, s')
    requires r == s.th[v].p || r == None
    ensures Silent(cfg, s', u, q)
  {
    assert s.th[v].req == q ==> r == None;
  }

  lemma SilentElect(cfg: Config, s: State, u: nat, q: nat)
    requires Silent(cfg, s, u, q)
    ensures Silent(cfg, Elect(s), u, q)
  {
    P.ElectIsElected(s);
    P.ElectedTable(cfg, s, Elect(s));
    SilentElected(cfg, s, Elect(s), u, q);
  }

  lemma SilentElected(cfg: Config, s: State, s': State, u: nat, q: nat)
    requires Silent(cfg, s, u, q) && P.Elected(s, s') && TableInv(cfg, s')
    ensures Silent(cfg, s', u, q)
  {}

  /** The role is handed on and v leaves with what it has. */
  lemma SilentElectLeave(cfg: Config, s: State, v: nat, w: Option<nat>, u: nat, q: nat)
    requires Silent(cfg, s, u, q) && v < |s.th| && InRecv(s.th[v].pc) && Signalled(s, w)
    ensures Silent(cfg, Leave(Elect(s), v, w, Elect(s).th[v].p), u, q)
    ensures Elect(s).th[v] == s.th[v]
  {
    SilentElect(cfg, s, u, q);
    P.ElectIsElected(s);
    P.SignalledAfterElect(s, w);
    SilentLeave(cfg, Elect(s), v, w, Elect(s).th[v].p, u, q);
  }

  lemma SilentSend(cfg: Config, s: State, v: nat, u: nat, q: nat)
    requires Silent(cfg, s, u, q) && Enabled(s, Send(v))
    ensures Silent(cfg, Apply(cfg, s, Send(v)), u, q)
  {
    assert Deaf(cfg, s, u) && s.th[u].pc != Idle ==> s.th[u].slot != s.th[v].slot;
  }

  lemma SilentReceive(cfg: Config, s: State, v: nat, m: Msg, u: nat, q: nat)
    requires Silent(cfg, s, u, q) && Enabled(s, Receive(v, m))
    ensures Silent(cfg, Apply(cfg, s, Receive(v, m)), u, q)
  {}

  lemma SilentAnswer(cfg: Config, s: State, m: Msg, u: nat, q: nat)
    requires Silent(cfg, s, u, q) && Enabled(s, Answer(m))
    ensures Silent(cfg, Apply(cfg, s, Answer(m)), u, q)
  {}

  lemma SilentEnter(cfg: Config, s: State, v: nat, w: Option<nat>, u: nat, q: nat)
    requires Silent(cfg, s, u, q) && Enabled(s, Enter(v, w))
    ensures Silent(cfg, EnterLoop(s, v, w), u, q)
  {
    if s.th[v].p.Some? {
      SilentLeave(cfg, s, v, w, s.th[v].p, u, q);
    } else {
      SilentMove(cfg, s, EnterLoop(s, v, w), v, u, q);
    }
  }

  /** The rpc r2 gets a reply and is woken. */
  ghost predicate Delivered(s: State, s': State, r2: nat) {
    && r2 < |s.th| == |s'.th| && (forall x :: 0 <= x < |s.th| && x != r2 ==> s'.th[x] == s.th[x])
    && s'.th[r2].slot == s.th[r2].slot && s'.th[r2].req == s.th[r2].req
    && s'.th[r2].pc == (if s.th[r2].pc == Asleep then Woken else s.th[r2].pc)
    && s'.tab == s.tab && s'.asked == s.asked && s'.answered == s.answered
    && s'.nextReq == s.nextReq && s'.log == s.log
  }

  ghost predicate Registered(cfg: Config, s: State, f: Msg, r2: nat) {
    0 <= f.tag - cfg.mintag < |s.tab.wait| && s.tab.wait[f.tag - cfg.mintag] == Some(r2)
  }

  lemma HandOutCases(cfg: Config, s: State, f: Msg) returns (r2: nat)
    ensures var s' := HandOut(cfg, s, f);
            s' == s.(crashed := s'.crashed) || (Registered(cfg, s, f, r2) && Delivered(s, s', r2))
  {
    var tag := f.tag - cfg.mintag;
    r2 := if 0 <= tag < |s.tab.wait| && s.tab.wait[tag].Some? then s.tab.wait[tag].value else 0;
  }

  lemma SilentDelivered(cfg: Config, s: State, s': State, r2: nat, u: nat, q: nat)
    requires Silent(cfg, s, u, q) && Delivered(s, s', r2)
    requires r2 == u ==> s.th[u].pc == Idle || s.th[u].req != q
    ensures Silent(cfg, s', u, q)
  {}

  /** The message that v holds goes to another than u. */
  lemma SilentHandOut(cfg: Config, s: State, v: nat, w: Option<nat>, u: nat, q: nat)
    requires Silent(cfg, s, u, q) && v < |s.th| && s.th[v].pc.Holding? && Signalled(s, w)
    ensures var s' := HandOut(cfg, s, s.th[v].pc.f);
            Silent(cfg, s', u, q) && s'.th[v].pc == s.th[v].pc && Signalled(s', w)
  {
    var f := s.th[v].pc.f;
    var r2 := HandOutCases(cfg, s, f);
    if Delivered(s, HandOut(cfg, s, f), r2) && Registered(cfg, s, f, r2) {
      SilentDelivered(cfg, s, HandOut(cfg, s, f), r2, u, q);
    }
  }

  lemma SilentDispatch(cfg: Config, s: State, v: nat, w: Option<nat>, u: nat, q: nat)
    requires Silent(cfg, s, u, q) && Enabled(s, Dispatch(v, w))
    ensures Silent(cfg, Apply(cfg, s, Dispatch(v, w)), u, q)
  {
    var s1 := HandOut(cfg, s, s.th[v].pc.f);
    SilentHandOut(cfg, s, v, w, u, q);
    if s1.th[v].p.None? {
      SilentMove(cfg, s1, SetPc(s1, v, Receiving), v, u, q);
    } else {
      SilentElectLeave(cfg, s1, v, w, u, q);
    }
  }

  lemma SilentStep(cfg: Config, s: State, step: Step, u: nat, q: nat)
    requires Silent(cfg, s, u, q) && Enabled(s, step)
    ensures Silent(cfg, Apply(cfg, s, step), u, q)
  {
    match step
    case Call(v) => SilentCall(cfg, s, v, u, q);
    case TagSpurious(v) => SilentTagWait(cfg, s, SetPc(s, v, TagWoken), v, u, q);
    case TagRun(v) => SilentGetTag(cfg, s, v, u, q);
    case Send(v) => SilentSend(cfg, s, v, u, q);
    case SendFail(v, w) => SilentSendFail(cfg, s, v, w, u, q);
    case Enter(v, w) => SilentEnter(cfg, s, v, w, u, q);
    case Spurious(v) => SilentMove(cfg, s, SetPc(s, v, Woken), v, u, q);
    case Receive(v, m) => SilentReceive(cfg, s, v, m, u, q);
    case ReceiveEof(v, w) => SilentReceiveEof(cfg, s, v, w, u, q);
    case GiveUp(v, m, w) => SilentGiveUp(cfg, s, v, m, w, u, q);
    case Dispatch(v, w) => SilentDispatch(cfg, s, v, w, u, q);
    case Answer(m) => SilentAnswer(cfg, s, m, u, q);
  }

  lemma SilentSendFail(cfg: Config, s: State, v: nat, w: Option<nat>, u: nat, q: nat)
    requires Silent(cfg, s, u, q) && Enabled(s, SendFail(v, w))
    ensures Silent(cfg, FailSend(s, v, w), u, q)
  {
    SilentLeave(cfg, s.(queue := Without(s.queue, v), failed := true), v, w, None, u, q);
  }

  lemma SilentReceiveEof(cfg: Config, s: State, v: nat, w: Option<nat>, u: nat, q: nat)
    requires Silent(cfg, s, u, q) && Enabled(s, ReceiveEof(v, w))
    ensures Silent(cfg, Apply(cfg, s, ReceiveEof(v, w)), u, q)
  {
    SilentElectLeave(cfg, s.(queue := Without(s.queue, v), eof := true), v, w, u, q);
  }

  lemma SilentGiveUp(cfg: Config, s: State, v: nat, m: Msg, w: Option<nat>, u: nat, q: nat)
    requires Silent(cfg, s, u, q) && CanGiveUp(s, v, m, w)
    ensures Silent(cfg, GiveUpOn(s, v, m, w), u, q)
  {
    SilentElectLeave(cfg, s.(queue := Without(s.queue, v), answered := s.answered - {m}, failed := true), v, w, u, q);
  }

  /** Consuming the only message for u's call leaves that call silent. */
  lemma LosingReplySilences(cfg: Config, s: State, t: nat, m: Msg, w: Option<nat>, u: nat)
    requires Inv(cfg, s) && CanGiveUp(s, t, m, w) && u < |s.th| && u != t && s.th[u].pc != Idle && s.th[u].req == m.req
    ensures Silent(cfg, GiveUpOn(s, t, m, w), u, m.req)
  {
    var s1 := s.(queue := Without(s.queue, t), answered := s.answered - {m}, failed := true);
    OnlyReply(cfg, s, s1, t, m, u);
    SilentElectLeave(cfg, s1, t, w, u, m.req);
  }

  lemma OnlyReply(cfg: Config, s: State, s1: State, t: nat, m: Msg, u: nat)
    requires TableInv(cfg, s) && QueueInv(s, {}) && MuxerInv(s, {}) && MsgInv(cfg, s, {}) && CallInv(s)
    requires !s.eof && m in s.answered && t < |s.th| && s.th[t].pc == Receiving
    requires u < |s.th| && s.th[u].pc != Idle && s.th[u].req == m.req
    requires s1 == s.(queue := s1.queue, answered := s.answered - {m}, failed := true)
    ensures Silent(cfg, s1, u, m.req)
  {
    P.OwnMessage(cfg, s, u, m);
    OwnerWaits(cfg, s, m, u);
    NoOtherMessage(cfg, s, t, m, u);
    assert !Returned(s.log, s.th[u].req);
  }

  lemma OwnerWaits(cfg: Config, s: State, m: Msg, u: nat)
    requires TableInv(cfg, s) && QueueInv(s, {}) && MsgInv(cfg, s, {}) && !s.eof && m in s.answered
    requires u < |s.th| && m == Msg(cfg.mintag + s.th[u].slot, s.th[u].req) && s.th[u].pc != Idle
    requires CallInv(s)
    ensures HasTag(s.th[u].pc) && s.th[u].pc != Sending && s.th[u].p.None?
  {
    assert Owned(cfg, s, m);
    var v := s.tab.wait[m.tag - cfg.mintag].value;
    assert v == u;
  }

  lemma NoOtherMessage(cfg: Config, s: State, t: nat, m: Msg, u: nat)
    requires MuxerInv(s, {}) && MsgInv(cfg, s, {}) && !s.eof && m in s.answered
    requires t < |s.th| && s.th[t].pc == Receiving && u < |s.th| && m.tag == cfg.mintag + s.th[u].slot
    ensures forall n :: n in s.asked || n in s.answered - {m} ==> n.tag != m.tag
    ensures forall v :: 0 <= v < |s.th| ==> !s.th[v].pc.Holding?
  {
    assert Owned(cfg, s, m);
    forall n | (n in s.asked || n in s.answered) && n.tag == m.tag ensures n == m {
      assert Owned(cfg, s, n);
    }
  }

  lemma {:induction false} StaysSilent(cfg: Config, run: seq<State>, i: nat, u: nat, q: nat)
    requires Steps(cfg, run) && Silent(cfg, run[0], u, q) && i < |run|
    ensures Silent(cfg, run[i], u, q)
  {
    if i > 0 {
      StaysSilent(cfg, run, i - 1, u, q);
      assert NextAt(cfg, run, i - 1);
      NextSilent(cfg, run[i - 1], run[i], u, q);
    }
  }

  lemma NextSilent(cfg: Config, s: State, s': State, u: nat, q: nat)
    requires Silent(cfg, s, u, q) && Next(cfg, s, s')
    ensures Silent(cfg, s', u, q)
  {
    var step :| Enabled(s, step) && s' == Apply(cfg, s, step);
    SilentStep(cfg, s, step, u, q);
  }

  /** Whenever a muxer gives up on the reply to another thread's call, that call returns no reply in any
      continuation: it waits for ever, or returns NULL. */
  lemma GiveUpSilences(cfg: Config, s: State, t: nat, m: Msg, w: Option<nat>, run: seq<State>, i: nat, k: nat)
    requires Inv(cfg, s) && CanGiveUp(s, t, m, w) && m.req != s.th[t].req
    requires Steps(cfg, run) && run[0] == GiveUpOn(s, t, m, w) && i < |run| && k < |run[i].log|
    ensures run[i].log[k].req == m.req ==> run[i].log[k].p == None
  {
    var u := ReplyOwner(cfg, s, m);
    LosingReplySilences(cfg, s, t, m, w, u);
    StaysSilent(cfg, run, i, u, m.req);
  }

  lemma ReplyOwner(cfg: Config, s: State, m: Msg) returns (u: nat)
    requires QueueInv(s, {}) && MsgInv(cfg, s, {}) && !s.eof && m in s.answered
    ensures u < |s.th| && s.th[u].pc != Idle && s.th[u].req == m.req
  {
    assert Owned(cfg, s, m);
    u := s.tab.wait[m.tag - cfg.mintag].value;
  }
}
