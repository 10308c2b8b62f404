/** What the invariant of the multiplexer gives for every run: routing, wake-ups, tag waiters,
    freedom from deadlock, and the bound on the number of steps. */
module MuxTheorems {
  import opened Common
  import opened Mux
  import P = MuxProof
  import TT = TagTable

  lemma {:induction false} RunKeepsInv(cfg: Config, run: seq<State>, i: nat)
    requires IsRun(cfg, run) && i < |run|
    ensures Inv(cfg, run[i])
  {
    if i == 0 {
      P.InitInv(cfg, run[0]);
    } else {
      RunKeepsInv(cfg, run, i - 1);
      NextInv(cfg, run, i - 1);
    }
  }

  lemma NextInv(cfg: Config, run: seq<State>, i: nat)
    requires IsRun(cfg, run) && i + 1 < |run| && Inv(cfg, run[i])
    ensures Inv(cfg, run[i + 1])
  {
    assert NextAt(cfg, run, i);
    NextKeeps(cfg, run[i], run[i + 1]);
  }

  lemma NextKeeps(cfg: Config, s: State, s': State)
    requires Inv(cfg, s) && Next(cfg, s, s')
    ensures Inv(cfg, s')
  {
    var step :| Enabled(s, step) && s' == Apply(cfg, s, step);
    P.StepKeeps(cfg, s, step);
  }

  /** End-to-end routing: in every run each muxrpc that returned a reply returned the one to its own
      call, no call returned twice, and without a failed send or an end of stream none returned NULL. */
  lemma Routing(cfg: Config, run: seq<State>, i: nat)
    requires IsRun(cfg, run) && i < |run|
    ensures var s := run[i];
            && (forall k :: 0 <= k < |s.log| && s.log[k].p.Some? ==> s.log[k].p.value.req == s.log[k].req)
            && (forall j, k :: 0 <= j < k < |s.log| ==> s.log[j].req != s.log[k].req)
            && (!s.eof && !s.failed ==> forall k :: 0 <= k < |s.log| ==> s.log[k].p.Some?)
  {
    RunKeepsInv(cfg, run, i);
  }

  /** No lost wake-up: whoever is asleep on its own rendezvous has no reply, and the role of muxer is
      held by another rpc, which is queued, unanswered and awake. */
  lemma NoLostWakeup(cfg: Config, run: seq<State>, i: nat, t: nat)
    requires IsRun(cfg, run) && i < |run| && t < |run[i].th| && run[i].th[t].pc == Asleep
    ensures var s := run[i];
            && s.th[t].p.None? && s.muxer.Some? && s.muxer != Some(t)
            && s.muxer.value in s.queue && s.muxer.value < |s.th|
            && s.th[s.muxer.value].p.None? && Awake(s.th[s.muxer.value].pc)
  {
    RunKeepsInv(cfg, run, i);
  }

  /** No assert fails and abort() is never reached; at most one thread is in muxrecv; the queue holds
      exactly the unanswered rpcs; distinct rpcs have distinct tags, below mintag + 2*range. */
  lemma MultiplexerSafe(cfg: Config, run: seq<State>, i: nat)
    requires IsRun(cfg, run) && i < |run|
    ensures var s := run[i];
            && !s.crashed
            && (forall t, u :: 0 <= t < u < |s.th| ==> !(InRecv(s.th[t].pc) && InRecv(s.th[u].pc)))
            && NoDuplicates(s.queue)
            && (forall t: nat :: t in s.queue <==> t < |s.th| && Unanswered(s.th[t]))
            && (forall t, u :: 0 <= t < u < |s.th| && HasTag(s.th[t].pc) && HasTag(s.th[u].pc) ==>
                  s.th[t].slot != s.th[u].slot)
            && (forall t :: 0 <= t < |s.th| && HasTag(s.th[t].pc) ==> s.th[t].slot < 2 * cfg.range)
  {
    RunKeepsInv(cfg, run, i);
    var s := run[i];
    forall t, u | 0 <= t < u < |s.th| && HasTag(s.th[t].pc) && HasTag(s.th[u].pc)
      ensures s.th[t].slot != s.th[u].slot
    {
      assert s.tab.wait[s.th[t].slot] == Some(t) && s.tab.wait[s.th[u].slot] == Some(u);
    }
  }

  /** Tag waiters are never stranded: while somebody sleeps on tagrend, every free tag has a thread
      that was woken for one and has yet to run. */
  lemma TagWaiters(cfg: Config, run: seq<State>, i: nat, t: nat)
    requires IsRun(cfg, run) && i < |run| && t < |run[i].th| && run[i].th[t].pc == TagAsleep
    ensures var s := run[i];
            && cfg.range <= |s.tab.wait| && |s.tab.wait| - s.tab.nwait <= Sum(s.th, WokenForTag)
            && (s.tab.nwait < |s.tab.wait| ==> exists u :: 0 <= u < |s.th| && s.th[u].pc == TagWoken)
  {
    RunKeepsInv(cfg, run, i);
    var s := run[i];
    if s.tab.nwait < |s.tab.wait| {
      var u := SumPositive(s.th, WokenForTag);
      assert s.th[u].pc == TagWoken;
    }
  }

  // ---------- progress ----------

  /** A step that gets work done: not a new call, not a spurious wake-up, not a failure (once the
      stream has ended, receiving means noticing it). */
  predicate Productive(s: State, step: Step) {
    match step
    case Call(_) => false
    case TagSpurious(_) => false
    case Spurious(_) => false
    case SendFail(_, _) => false
    case ReceiveEof(_, _) => s.eof
    case GiveUp(_, _, _) => false
    case _ => true
  }

  ghost predicate CanProgress(s: State) {
    exists step :: Productive(s, step) && Enabled(s, step)
  }

  lemma Signal(s: State) returns (w: Option<nat>)
    ensures Signalled(s, w)
  {
    if u: nat :| u < |s.th| && s.th[u].pc == TagAsleep {
      w := Some(u);
    } else {
      w := None;
    }
  }

  lemma ReceivingProgresses(cfg: Config, s: State, t: nat)
    requires !s.crashed && MuxerInv(s, {}) && ReplyInv(s, {}) && PendingInv(cfg, s, {})
    requires t < |s.th| && s.th[t].pc == Receiving
    ensures CanProgress(s)
  {
    var w := Signal(s);
    if s.eof {
      assert Enabled(s, ReceiveEof(t, w));
    } else {
      var m := Msg(cfg.mintag + s.th[t].slot, s.th[t].req);
      assert InFlight(s, m, {});
      assert !Held(s, m, {});
      if m in s.asked {
        assert Enabled(s, Answer(m));
      } else {
        assert Enabled(s, Receive(t, m));
      }
    }
  }

  lemma AwakeProgresses(cfg: Config, s: State, t: nat)
    requires Inv(cfg, s) && t < |s.th| && Awake(s.th[t].pc)
    ensures CanProgress(s)
  {
    var w := Signal(s);
    match s.th[t].pc
    case Sending => assert Enabled(s, Send(t));
    case Ready => assert Enabled(s, Enter(t, w));
    case Woken => assert Enabled(s, Enter(t, w));
    case Holding(_) => assert Enabled(s, Dispatch(t, w));
    case Receiving => ReceivingProgresses(cfg, s, t);
  }

  /** No deadlock: while any thread is inside muxrpc, some thread or the server can take a step that
      is neither a new call nor a spurious wake-up nor a failure. */
  lemma NoDeadlock(cfg: Config, run: seq<State>, i: nat, t: nat)
    requires IsRun(cfg, run) && i < |run| && t < |run[i].th| && run[i].th[t].pc != Idle
    ensures CanProgress(run[i])
  {
    RunKeepsInv(cfg, run, i);
    InsideProgresses(cfg, run[i], t);
  }

  lemma InsideProgresses(cfg: Config, s: State, t: nat)
    requires Inv(cfg, s) && t < |s.th| && s.th[t].pc != Idle
    ensures CanProgress(s)
  {
    var pc := s.th[t].pc;
    if Awake(pc) {
      AwakeProgresses(cfg, s, t);
    } else if pc == Asleep {
      AwakeProgresses(cfg, s, s.muxer.value);
    } else if pc == TagWoken {
      assert Enabled(s, TagRun(t));
    } else if s.tab.nwait < |s.tab.wait| {
      var u := SumPositive(s.th, WokenForTag);
      assert Enabled(s, TagRun(u));
    } else {
      TT.OccupiedBounds(s.tab.wait);
      var u := s.tab.wait[0].value;
      if Awake(s.th[u].pc) {
        AwakeProgresses(cfg, s, u);
      } else {
        AwakeProgresses(cfg, s, s.muxer.value);
      }
    }
  }

  /** When nothing productive is left to do, every call made has returned, exactly once. */
  lemma QuiescentMeansAllReturned(cfg: Config, run: seq<State>, i: nat)
    requires IsRun(cfg, run) && i < |run| && !CanProgress(run[i])
    ensures forall t :: 0 <= t < |run[i].th| ==> run[i].th[t].pc == Idle
    ensures forall q: nat :: q < run[i].nextReq ==> Returned(run[i].log, q)
    ensures run[i].queue == [] && run[i].muxer == None && run[i].tab.nwait == 0
  {
    RunKeepsInv(cfg, run, i);
    var s := run[i];
    forall t | 0 <= t < |s.th| ensures s.th[t].pc == Idle {
      if s.th[t].pc != Idle {
        InsideProgresses(cfg, s, t);
      }
    }
    assert forall t :: t !in s.queue;
    FirstIsMember(s.queue);
    NoneOccupied(s.tab.wait);
  }

  lemma FirstIsMember<T>(q: seq<T>)
    ensures q != [] ==> q[0] in q
  {}

  lemma {:induction false} NoneOccupied<T>(w: seq<Option<T>>)
    ensures (forall i :: 0 <= i < |w| ==> w[i].None?) ==> TT.Occupied(w) == 0
  {
    if w != [] {
      NoneOccupied(w[..|w| - 1]);
    }
  }

  /** What a thread may still cost, wake-ups that it can cause included. */
  function Weight(th: Thread): nat {
    match th.pc
    case Idle => 0
    case TagAsleep => 12
    case TagWoken => 13
    case Sending => 11
    case Ready => 6
    case Asleep => 4
    case Woken => 5
    case Receiving => 4
    case Holding(_) => 6
  }

  function Potential(s: State): nat {
    Sum(s.th, Weight) + 4 * |s.asked| + 3 * |s.answered|
  }

  predicate Fresh(step: Step) {
    step.Call? || step.Spurious? || step.TagSpurious?
  }

  lemma SetPcWeight(s: State, t: nat, pc: Pc)
    requires t < |s.th|
    ensures Sum(SetPc(s, t, pc).th, Weight) + Weight(s.th[t]) == Sum(s.th, Weight) + Weight(s.th[t].(pc := pc))
  {
    SumUpdate(s.th, Weight, t, s.th[t].(pc := pc));
  }

  lemma WakeWeight(s: State, t: nat)
    requires t < |s.th|
    ensures Sum(Wake(s, t).th, Weight) <= Sum(s.th, Weight) + 1
  {
    SetPcWeight(s, t, Woken);
  }

  lemma ElectWeight(s: State)
    ensures Sum(Elect(s).th, Weight) <= Sum(s.th, Weight) + 1
  {
    if s.queue != [] && s.queue[0] < |s.th| {
      WakeWeight(s.(muxer := Some(s.queue[0])), s.queue[0]);
    }
  }

  /** Leaving costs at most the one wake-up on tagrend. */
  lemma LeaveWeight(cfg: Config, s: State, t: nat, w: Option<nat>, r: Option<Msg>)
    requires TableInv(cfg, s) && t < |s.th| && HasTag(s.th[t].pc) && Signalled(s, w)
    ensures Sum(Leave(s, t, w, r).th, Weight) + Weight(s.th[t]) <= Sum(s.th, Weight) + 1
    ensures Leave(s, t, w, r).asked == s.asked && Leave(s, t, w, r).answered == s.answered
  {
    TT.FreeTagCorrect(s.tab, cfg.range, s.th[t].slot);
    var woken := if w.Some? then SetPc(s, w.value, TagWoken) else s;
    if w.Some? {
      SetPcWeight(s, w.value, TagWoken);
    }
    SetPcWeight(woken, t, Idle);
  }

  lemma TagRunWeight(cfg: Config, s: State, t: nat)
    requires TT.Valid(s.tab, cfg.range) && t < |s.th| && s.th[t].pc == TagWoken
    ensures Potential(GetTag(cfg, s, t)) < Potential(s)
  {
    assert !TT.TakeTag(s.tab, cfg.range, t).Abort? by {
      TT.TakeTagCorrect(s.tab, cfg.range, t);
    }
    var s' := GetTag(cfg, s, t);
    assert s'.th == s.th[t := s'.th[t]] && Weight(s'.th[t]) < Weight(s.th[t]);
    SumUpdate(s.th, Weight, t, s'.th[t]);
  }

  lemma EnterWeight(cfg: Config, s: State, t: nat, w: Option<nat>)
    requires TableInv(cfg, s) && Enabled(s, Enter(t, w))
    ensures Potential(EnterLoop(s, t, w)) < Potential(s)
  {
    if s.th[t].p.Some? {
      LeaveWeight(cfg, s, t, w, s.th[t].p);
    } else {
      SetPcWeight(s, t, Asleep);
      SetPcWeight(s, t, Receiving);
    }
  }

  /** Electing and leaving cost at most two wake-ups. */
  lemma ElectLeaveWeight(cfg: Config, s: State, t: nat, w: Option<nat>, r: Option<Msg>)
    requires TableInv(cfg, s) && t < |s.th| && InRecv(s.th[t].pc) && Signalled(s, w)
    ensures Potential(Leave(Elect(s), t, w, r)) + Weight(s.th[t]) <= Potential(s) + 2
  {
    P.ElectIsElected(s);
    P.ElectedTable(cfg, s, Elect(s));
    ElectWeight(s);
    P.SignalledAfterElect(s, w);
    LeaveWeight(cfg, Elect(s), t, w, r);
  }

  lemma ReceiveEofWeight(cfg: Config, s: State, t: nat, w: Option<nat>)
    requires TableInv(cfg, s) && Enabled(s, ReceiveEof(t, w))
    ensures Potential(Apply(cfg, s, ReceiveEof(t, w))) < Potential(s)
  {
    var s1 := s.(queue := Without(s.queue, t), eof := true);
    ElectLeaveWeight(cfg, s1, t, w, Elect(s1).th[t].p);
  }

  lemma GiveUpWeight(cfg: Config, s: State, t: nat, m: Msg, w: Option<nat>)
    requires TableInv(cfg, s) && CanGiveUp(s, t, m, w)
    ensures Potential(GiveUpOn(s, t, m, w)) < Potential(s)
  {
    var s1 := s.(queue := Without(s.queue, t), answered := s.answered - {m}, failed := true);
    ElectLeaveWeight(cfg, s1, t, w, Elect(s1).th[t].p);
  }

  lemma HandOutWeight(cfg: Config, s: State, t: nat)
    requires t < |s.th| && s.th[t].pc.Holding?
    ensures var s1 := HandOut(cfg, s, s.th[t].pc.f);
            && Sum(s1.th, Weight) <= Sum(s.th, Weight) + 1 && s1.asked == s.asked && s1.answered == s.answered
            && s1.th[t].pc == s.th[t].pc
            && (s1.th[t].p.Some? && s.th[t].p.None? ==> Sum(s1.th, Weight) == Sum(s.th, Weight))
  {
    var f := s.th[t].pc.f;
    var tag := f.tag - cfg.mintag;
    if 0 <= tag < |s.tab.wait| && s.tab.wait[tag].Some? && s.tab.wait[tag].value < |s.th| {
      DeliverWeight(s, s.tab.wait[tag].value, f);
    }
  }

  lemma DeliverWeight(s: State, r2: nat, f: Msg)
    requires r2 < |s.th|
    ensures var s0 := s.(th := s.th[r2 := s.th[r2].(p := Some(f))], queue := Without(s.queue, r2));
            && Sum(Wake(s0, r2).th, Weight) <= Sum(s.th, Weight) + 1
            && (s.th[r2].pc != Asleep ==> Sum(Wake(s0, r2).th, Weight) == Sum(s.th, Weight))
  {
    var s0 := s.(th := s.th[r2 := s.th[r2].(p := Some(f))], queue := Without(s.queue, r2));
    SumUpdate(s.th, Weight, r2, s0.th[r2]);
    WakeWeight(s0, r2);
  }

  lemma HandedOwn(cfg: Config, s: State, t: nat, w: Option<nat>)
    requires TableInv(cfg, s) && QueueInv(s, {}) && MsgInv(cfg, s, {}) && Enabled(s, Dispatch(t, w)) && s.th[t].p.None?
    requires HandOut(cfg, s, s.th[t].pc.f).th[t].p.Some?
    ensures var s1 := HandOut(cfg, s, s.th[t].pc.f);
            && TableInv(cfg, s1) && s1.th[t].pc == s.th[t].pc && Signalled(s1, w) && Potential(s1) == Potential(s)
  {
    var s1 := HandOut(cfg, s, s.th[t].pc.f);
    var r2 := P.HeldIsAddressed(cfg, s, t);
    P.HandOutDelivers(cfg, s, t, r2);
    HandOutWeight(cfg, s, t);
    P.HandedTable(cfg, s, s1, t, r2, s.th[t].pc);
  }

  lemma DispatchOwnWeight(cfg: Config, s: State, t: nat, w: Option<nat>)
    requires TableInv(cfg, s) && QueueInv(s, {}) && MsgInv(cfg, s, {}) && Enabled(s, Dispatch(t, w)) && s.th[t].p.None?
    requires HandOut(cfg, s, s.th[t].pc.f).th[t].p.Some?
    ensures Potential(Apply(cfg, s, Dispatch(t, w))) < Potential(s)
  {
    HandedOwn(cfg, s, t, w);
    AfterOwnWeight(cfg, HandOut(cfg, s, s.th[t].pc.f), t, w);
  }

  lemma AfterOwnWeight(cfg: Config, s: State, t: nat, w: Option<nat>)
    requires TableInv(cfg, s) && t < |s.th| && s.th[t].pc.Holding? && Signalled(s, w) && s.th[t].p.Some?
    ensures Potential(AfterHandOut(s, t, w)) < Potential(s)
  {
    ElectLeaveWeight(cfg, s, t, w, s.th[t].p);
  }

  lemma DispatchOtherWeight(cfg: Config, s: State, t: nat, w: Option<nat>)
    requires Enabled(s, Dispatch(t, w)) && HandOut(cfg, s, s.th[t].pc.f).th[t].p.None?
    ensures Potential(Apply(cfg, s, Dispatch(t, w))) < Potential(s)
  {
    HandOutWeight(cfg, s, t);
    SetPcWeight(HandOut(cfg, s, s.th[t].pc.f), t, Receiving);
  }

  lemma DispatchWeight(cfg: Config, s: State, t: nat, w: Option<nat>)
    requires Inv(cfg, s) && Enabled(s, Dispatch(t, w))
    ensures Potential(Apply(cfg, s, Dispatch(t, w))) < Potential(s)
  {
    assert s.th[t].p.None?;
    if HandOut(cfg, s, s.th[t].pc.f).th[t].p.Some? {
      DispatchOwnWeight(cfg, s, t, w);
    } else {
      DispatchOtherWeight(cfg, s, t, w);
    }
  }

  lemma SendWeight(cfg: Config, s: State, t: nat)
    requires Enabled(s, Send(t))
    ensures Potential(Apply(cfg, s, Send(t))) < Potential(s)
  {
    SetPcWeight(s, t, Ready);
  }

  lemma ReceiveWeight(cfg: Config, s: State, t: nat, m: Msg)
    requires Enabled(s, Receive(t, m))
    ensures Potential(Apply(cfg, s, Receive(t, m))) < Potential(s)
  {
    SetPcWeight(s, t, Holding(m));
  }

  lemma SendFailWeight(cfg: Config, s: State, t: nat, w: Option<nat>)
    requires Inv(cfg, s) && Enabled(s, SendFail(t, w))
    ensures Potential(FailSend(s, t, w)) < Potential(s)
  {
    var s1 := s.(queue := Without(s.queue, t), failed := true);
    LeaveWeight(cfg, s1, t, w, None);
  }

  /** Every step except a new call and a spurious wake-up uses up some of the potential. */
  lemma PotentialFalls(cfg: Config, s: State, step: Step)
    requires Inv(cfg, s) && Enabled(s, step) && !Fresh(step)
    ensures Potential(Apply(cfg, s, step)) < Potential(s)
  {
    match step
    case TagRun(t) => TagRunWeight(cfg, s, t);
    case Send(t) => SendWeight(cfg, s, t);
    case SendFail(t, w) => SendFailWeight(cfg, s, t, w);
    case Enter(t, w) => EnterWeight(cfg, s, t, w);
    case Receive(t, m) => ReceiveWeight(cfg, s, t, m);
    case ReceiveEof(t, w) => ReceiveEofWeight(cfg, s, t, w);
    case GiveUp(t, m, w) => GiveUpWeight(cfg, s, t, m, w);
    case Dispatch(t, w) => DispatchWeight(cfg, s, t, w);
    case Answer(m) =>
  }

  ghost predicate QuietStep(cfg: Config, s: State, s': State) {
    exists step :: !Fresh(step) && Enabled(s, step) && s' == Apply(cfg, s, step)
  }

  ghost predicate QuietAt(cfg: Config, run: seq<State>, k: nat)
    requires k + 1 < |run|
  {
    QuietStep(cfg, run[k], run[k + 1])
  }

  /** Between two states of a run with no new call and no spurious wake-up there are at most
      Potential steps; with QuiescentMeansAllReturned, every call then returns. */
  lemma {:induction false} StepsBounded(cfg: Config, run: seq<State>, i: nat, j: nat)
    requires IsRun(cfg, run) && i <= j < |run|
    requires forall k :: i <= k < j ==> QuietAt(cfg, run, k)
    ensures Potential(run[j]) + (j - i) <= Potential(run[i])
  {
    if i < j {
      StepsBounded(cfg, run, i, j - 1);
      assert QuietAt(cfg, run, j - 1);
      QuietFalls(cfg, run, j - 1);
    }
  }

  lemma QuietFalls(cfg: Config, run: seq<State>, i: nat)
    requires IsRun(cfg, run) && i + 1 < |run| && QuietAt(cfg, run, i)
    ensures Potential(run[i + 1]) < Potential(run[i])
  {
    RunKeepsInv(cfg, run, i);
    QuietStepFalls(cfg, run[i], run[i + 1]);
  }

  lemma QuietStepFalls(cfg: Config, s: State, s': State)
    requires Inv(cfg, s) && QuietStep(cfg, s, s')
    ensures Potential(s') < Potential(s)
  {
    var step :| !Fresh(step) && Enabled(s, step) && s' == Apply(cfg, s, step);
    PotentialFalls(cfg, s, step);
  }

  // ---------- the failing send and the reply that does not unpack ----------

  /** The failure branch of sendrpc keeps the invariant exactly when the rpc was not elected muxer
      in the meantime: it never hands the role on. */
  lemma SendFailureExact(cfg: Config, s: State, t: nat, w: Option<nat>)
    requires Inv(cfg, s) && t < |s.th| && s.th[t].pc == Sending && Signalled(s, w)
    ensures Inv(cfg, FailSend(s, t, w)) <==> s.muxer != Some(t)
  {
    if s.muxer != Some(t) {
      P.SendFailKeeps(cfg, s, t, w);
    } else {
      var s1 := s.(queue := Without(s.queue, t), failed := true);
      WithoutMembers(s.queue, t);
      P.LeaveIsLeft(cfg, s1, t, w, None);
      assert t !in FailSend(s, t, w).queue && FailSend(s, t, w).muxer == Some(t);
    }
  }

  /** Giving up on a reply that does not unpack keeps the invariant exactly when it was the reply to the
      muxer's own call: otherwise that reply is still to come, and the tag it comes under is free. */
  lemma GiveUpExact(cfg: Config, s: State, t: nat, m: Msg, w: Option<nat>)
    requires Inv(cfg, s) && CanGiveUp(s, t, m, w)
    ensures Inv(cfg, GiveUpOn(s, t, m, w)) <==> m.req == s.th[t].req
  {
    if m.req == s.th[t].req {
      P.GiveUpKeeps(cfg, s, t, m, w);
    } else {
      GiveUpLoses(cfg, s, t, m, w);
    }
  }

  lemma StillToCome(cfg: Config, s: State, t: nat)
    requires MuxerInv(s, {}) && ReplyInv(s, {}) && PendingInv(cfg, s, {})
    requires !s.eof && t < |s.th| && s.th[t].pc == Receiving
    ensures var own := Msg(cfg.mintag + s.th[t].slot, s.th[t].req); own in s.asked || own in s.answered
  {
    assert InFlight(s, Msg(cfg.mintag + s.th[t].slot, s.th[t].req), {});
  }

  /** Once t has left, its tag is free and no message under it is owned. */
  lemma LeftUnowned(cfg: Config, s: State, s': State, t: nat, r: Option<Msg>, m: Msg)
    requires P.Left(s, s', t, r) && m.tag == cfg.mintag + s.th[t].slot && !s.eof && (m in s.asked || m in s.answered)
    ensures !MsgInv(cfg, s', {})
  {
    assert !Owned(cfg, s', m);
  }

  lemma GiveUpLoses(cfg: Config, s: State, t: nat, m: Msg, w: Option<nat>)
    requires TableInv(cfg, s) && MuxerInv(s, {}) && ReplyInv(s, {}) && PendingInv(cfg, s, {})
    requires CanGiveUp(s, t, m, w) && m.req != s.th[t].req
    ensures !MsgInv(cfg, GiveUpOn(s, t, m, w), {})
  {
    var own := Msg(cfg.mintag + s.th[t].slot, s.th[t].req);
    assert own in s.asked || own in s.answered - {m} by {
      StillToCome(cfg, s, t);
    }
    var s1 := s.(queue := Without(s.queue, t), answered := s.answered - {m}, failed := true);
    GiveUpLeft(cfg, s1, t, w);
    LeftUnowned(cfg, Elect(s1), GiveUpOn(s, t, m, w), t, Elect(s1).th[t].p, own);
  }

  lemma GiveUpLeft(cfg: Config, s: State, t: nat, w: Option<nat>)
    requires TableInv(cfg, s) && t < |s.th| && s.th[t].pc == Receiving && Signalled(s, w)
    ensures var s' := Elect(s);
            && P.Elected(s, s') && s'.th[t] == s.th[t]
            && P.Left(s', Leave(s', t, w, s'.th[t].p), t, s'.th[t].p)
  {
    P.ElectIsElected(s);
    P.ElectedTable(cfg, s, Elect(s));
    P.SignalledAfterElect(s, w);
    P.LeaveIsLeft(cfg, Elect(s), t, w, Elect(s).th[t].p);
  }
}
