/** Every step of the multiplexer keeps its invariant; what follows for whole runs. */
module MuxProof {
  import opened Common
  import opened Mux
  import TT = TagTable

  lemma InitInv(cfg: Config, s: State)
    requires Init(cfg, s)
    ensures Inv(cfg, s)
  {
    forall i | 0 <= i < |s.tab.wait| && s.tab.wait[i].Some? ensures false {
      TT.OccupiedPositive(s.tab.wait, i);
    }
  }

  // ---------- leaving muxrpc ----------

  /** What Leave does to the state, as a relation. */
  ghost predicate Left(s: State, s': State, t: nat, r: Option<Msg>) {
    && t < |s.th| == |s'.th| && s'.th[t].pc == Idle
    && (forall u :: 0 <= u < |s.th| && u != t ==>
          s'.th[u] == s.th[u] || (s.th[u].pc == TagAsleep && s'.th[u] == s.th[u].(pc := TagWoken)))
    && s.th[t].slot < |s.tab.wait| == |s'.tab.wait| && s'.tab.wait[s.th[t].slot].None?
    && (forall i :: 0 <= i < |s.tab.wait| && i != s.th[t].slot ==> s'.tab.wait[i] == s.tab.wait[i])
    && s'.queue == s.queue && s'.muxer == s.muxer && s'.asked == s.asked && s'.answered == s.answered
    && s'.eof == s.eof && s'.failed == s.failed && s'.crashed == s.crashed && s'.nextReq == s.nextReq
    && s'.log == s.log + [Ret(s.th[t].req, r)]
  }

  lemma LeaveIsLeft(cfg: Config, s: State, t: nat, w: Option<nat>, r: Option<Msg>)
    requires TableInv(cfg, s) && t < |s.th| && HasTag(s.th[t].pc) && Signalled(s, w)
    ensures Left(s, Leave(s, t, w, r), t, r)
    ensures TT.Valid(Leave(s, t, w, r).tab, cfg.range)
  {
    TT.FreeTagCorrect(s.tab, cfg.range, s.th[t].slot);
  }

  lemma LeftTable(cfg: Config, s: State, s': State, t: nat, r: Option<Msg>)
    requires TableInv(cfg, s) && Left(s, s', t, r) && HasTag(s.th[t].pc) && TT.Valid(s'.tab, cfg.range)
    ensures TableInv(cfg, s')
  {}

  lemma LeaveWaiters(cfg: Config, s: State, t: nat, w: Option<nat>, r: Option<Msg>)
    requires TableInv(cfg, s) && WaiterInv(cfg, s) && t < |s.th| && HasTag(s.th[t].pc) && Signalled(s, w)
    ensures WaiterInv(cfg, Leave(s, t, w, r))
  {
    TT.FreeTagCorrect(s.tab, cfg.range, s.th[t].slot);
    var s' := Leave(s, t, w, r);
    if u :| 0 <= u < |s'.th| && s'.th[u].pc == TagAsleep {
      assert s.th[u].pc == TagAsleep;
      var woken := SetPc(s, w.value, TagWoken);
      SumUpdate(s.th, WokenForTag, w.value, woken.th[w.value]);
      SumUpdate(woken.th, WokenForTag, t, s'.th[t]);
    }
  }

  lemma LeftReturned(s: State, s': State, t: nat, r: Option<Msg>, q: nat)
    requires Left(s, s', t, r)
    ensures Returned(s'.log, q) <==> Returned(s.log, q) || q == s.th[t].req
  {
    var n := |s.log|;
    assert s'.log[n] == Ret(s.th[t].req, r);
    if Returned(s.log, q) {
      var k :| 0 <= k < |s.log| && s.log[k].req == q;
      assert s'.log[k].req == q;
    }
    if Returned(s'.log, q) && q != s.th[t].req {
      var k :| 0 <= k < |s'.log| && s'.log[k].req == q;
      assert k < n && s.log[k].req == q;
    }
  }

  lemma LeftCalls(s: State, s': State, t: nat, r: Option<Msg>)
    requires CallInv(s) && Left(s, s', t, r) && s.th[t].pc != Idle
    ensures CallInv(s')
  {
    forall q: nat | q < s'.nextReq ensures Running(s'.th, q) || Returned(s'.log, q) {
      LeftReturned(s, s', t, r, q);
      if q != s.th[t].req && Running(s.th, q) {
        var u :| 0 <= u < |s.th| && s.th[u].pc != Idle && s.th[u].req == q;
        assert s'.th[u].pc != Idle && s'.th[u].req == q;
      }
    }
    forall u | 0 <= u < |s'.th| && s'.th[u].pc != Idle
      ensures s'.th[u].req < s'.nextReq && !Returned(s'.log, s'.th[u].req)
    {
      LeftReturned(s, s', t, r, s'.th[u].req);
    }
    var n := |s.log|;
    forall k | 0 <= k < |s'.log|
      ensures s'.log[k].req < s'.nextReq && forall j :: 0 <= j < k ==> s'.log[j].req != s'.log[k].req
    {
      if k == n {
        forall j | 0 <= j < k ensures s'.log[j].req != s'.log[k].req {
          assert s'.log[j] == s.log[j];
        }
      }
    }
  }

  lemma LeftQueue(s: State, s': State, t: nat, r: Option<Msg>)
    requires Left(s, s', t, r) && HasTag(s.th[t].pc)
    requires QueueInv(s, {t}) && MuxerInv(s, {t}) && ReplyInv(s, {t}) && LogInv(s)
    requires r.Some? ==> r.value.req == s.th[t].req
    requires r.None? ==> s.eof || s.failed
    ensures QueueInv(s', {}) && MuxerInv(s', {}) && ReplyInv(s', {}) && LogInv(s')
  {}

  lemma LeftOwned(cfg: Config, s: State, s': State, t: nat, r: Option<Msg>, m: Msg)
    requires Left(s, s', t, r) && HasTag(s.th[t].pc) && TableInv(cfg, s) && t !in s.queue && Owned(cfg, s, m)
    ensures Owned(cfg, s', m)
  {
    assert m.tag - cfg.mintag != s.th[t].slot;
  }

  lemma LeftMessages(cfg: Config, s: State, s': State, t: nat, r: Option<Msg>)
    requires Left(s, s', t, r) && HasTag(s.th[t].pc) && TableInv(cfg, s) && t !in s.queue
    requires MsgInv(cfg, s, {t})
    ensures MsgInv(cfg, s', {})
  {
    forall m | Owned(cfg, s, m) ensures Owned(cfg, s', m) {
      LeftOwned(cfg, s, s', t, r, m);
    }
  }

  lemma LeftPending(cfg: Config, s: State, s': State, t: nat, r: Option<Msg>)
    requires Left(s, s', t, r) && PendingInv(cfg, s, {t})
    ensures PendingInv(cfg, s', {})
  {
    if !s.eof {
      forall u | 0 <= u < |s'.th| && Unanswered(s'.th[u]) && s'.th[u].pc != Sending
        ensures InFlight(s', Msg(cfg.mintag + s'.th[u].slot, s'.th[u].req), {})
      {
        var m := Msg(cfg.mintag + s.th[u].slot, s.th[u].req);
        assert InFlight(s, m, {t});
        if Held(s, m, {t}) {
          var v :| 0 <= v < |s.th| && v !in {t} && s.th[v].pc == Holding(m);
          assert s'.th[v].pc == Holding(m);
        }
      }
    }
  }

  /** Leaving muxrpc with a reply to one's own request, or with NULL after a failure, restores the
      whole invariant once the rpc is out of the sleep queue. */
  lemma LeaveKeeps(cfg: Config, s: State, t: nat, w: Option<nat>, r: Option<Msg>)
    requires InvBut(cfg, s, {t}) && t < |s.th| && HasTag(s.th[t].pc) && Signalled(s, w)
    requires r.Some? ==> r.value.req == s.th[t].req
    requires r.None? ==> s.eof || s.failed
    ensures Inv(cfg, Leave(s, t, w, r))
  {
    var s' := Leave(s, t, w, r);
    LeaveIsLeft(cfg, s, t, w, r);
    LeftTable(cfg, s, s', t, r);
    LeaveWaiters(cfg, s, t, w, r);
    LeftCalls(s, s', t, r);
    LeftQueue(s, s', t, r);
    LeftMessages(cfg, s, s', t, r);
    LeftPending(cfg, s, s', t, r);
  }

  // ---------- steps that move one thread ----------

  /** Thread t changes and nothing else that the table, the queue or the log depends on. */
  ghost predicate Moved(s: State, s': State, t: nat) {
    && t < |s.th| == |s'.th| && (forall u :: 0 <= u < |s.th| && u != t ==> s'.th[u] == s.th[u])
    && s'.th[t].slot == s.th[t].slot && s'.th[t].req == s.th[t].req && s'.th[t].p == s.th[t].p
    && s.th[t].pc != Idle && s'.th[t].pc != Idle
    && s'.tab == s.tab && s'.queue == s.queue && s'.nextReq == s.nextReq && s'.log == s.log
    && s'.eof == s.eof && s'.failed == s.failed && s'.crashed == s.crashed
  }

  lemma MovedCalls(s: State, s': State, t: nat)
    requires Moved(s, s', t) && CallInv(s)
    ensures CallInv(s')
  {
    forall q: nat | q < s'.nextReq ensures Running(s'.th, q) || Returned(s'.log, q) {
      if Running(s.th, q) {
        var u :| 0 <= u < |s.th| && s.th[u].pc != Idle && s.th[u].req == q;
        assert s'.th[u].pc != Idle;
      }
    }
  }

  /** A thread with a tag that stays neither idle nor waiting for a tag. */
  lemma MovedTable(cfg: Config, s: State, s': State, t: nat)
    requires Moved(s, s', t) && HasTag(s.th[t].pc) && HasTag(s'.th[t].pc)
    requires TableInv(cfg, s) && QueueInv(s, {}) && WaiterInv(cfg, s) && LogInv(s)
    ensures TableInv(cfg, s') && QueueInv(s', {}) && WaiterInv(cfg, s') && LogInv(s')
  {
    SumUpdate(s.th, WokenForTag, t, s'.th[t]);
    assert s'.th == s.th[t := s'.th[t]];
    if u :| 0 <= u < |s'.th| && s'.th[u].pc == TagAsleep {
      assert s.th[u].pc == TagAsleep;
    }
  }

  lemma MovedPending(cfg: Config, s: State, s': State, t: nat, m: Msg)
    requires Moved(s, s', t) && InFlight(s, m, {})
    requires s.asked + s.answered <= s'.asked + s'.answered + (if s'.th[t].pc.Holding? then {s'.th[t].pc.f} else {})
    requires s.th[t].pc.Holding? ==> s'.th[t].pc == s.th[t].pc
    ensures InFlight(s', m, {})
  {
    if Held(s, m, {}) {
      var v :| 0 <= v < |s.th| && v !in {} && s.th[v].pc == Holding(m);
      assert s'.th[v].pc == Holding(m);
    } else {
      assert m in s.asked + s.answered;
      if m !in s'.asked + s'.answered {
        assert s'.th[t].pc == Holding(m);
      }
    }
  }

  /** A step that is neither a send, a receive nor a dispatch leaves the messages where they are. */
  ghost predicate SameMessages(s: State, s': State, t: nat) {
    && Moved(s, s', t) && s'.asked == s.asked && s'.answered == s.answered
    && !s.th[t].pc.Holding? && !s'.th[t].pc.Holding? && s.th[t].pc != Sending && s'.th[t].pc != Sending
    && HasTag(s.th[t].pc) && HasTag(s'.th[t].pc)
  }

  lemma SameMessagesKeep(cfg: Config, s: State, s': State, t: nat)
    requires SameMessages(s, s', t) && MsgInv(cfg, s, {}) && PendingInv(cfg, s, {})
    ensures MsgInv(cfg, s', {}) && PendingInv(cfg, s', {})
  {
    forall m | Owned(cfg, s, m) ensures Owned(cfg, s', m) {}
    if !s.eof {
      forall u | 0 <= u < |s'.th| && Unanswered(s'.th[u]) && s'.th[u].pc != Sending
        ensures InFlight(s', Msg(cfg.mintag + s'.th[u].slot, s'.th[u].req), {})
      {
        MovedPending(cfg, s, s', t, Msg(cfg.mintag + s.th[u].slot, s.th[u].req));
      }
    }
  }

  lemma SameMessagesInv(cfg: Config, s: State, s': State, t: nat)
    requires Inv(cfg, s) && SameMessages(s, s', t) && MuxerInv(s', {}) && ReplyInv(s', {})
    ensures Inv(cfg, s')
  {
    MovedCalls(s, s', t);
    MovedTable(cfg, s, s', t);
    SameMessagesKeep(cfg, s, s', t);
  }

  lemma SpuriousParts(s: State, t: nat)
    requires MuxerInv(s, {}) && ReplyInv(s, {}) && !s.crashed && t < |s.th| && s.th[t].pc == Asleep
    ensures var s' := SetPc(s, t, Woken); SameMessages(s, s', t) && MuxerInv(s', {}) && ReplyInv(s', {})
  {}

  lemma SpuriousKeeps(cfg: Config, s: State, t: nat)
    requires Inv(cfg, s) && Enabled(s, Spurious(t))
    ensures Inv(cfg, Apply(cfg, s, Spurious(t)))
  {
    SpuriousParts(s, t);
    SameMessagesInv(cfg, s, SetPc(s, t, Woken), t);
  }

  lemma EnterAnsweredKeeps(cfg: Config, s: State, t: nat, w: Option<nat>)
    requires Inv(cfg, s) && Enabled(s, Enter(t, w)) && s.th[t].p.Some?
    ensures Inv(cfg, EnterLoop(s, t, w))
  {
    GoneWhenAnswered(cfg, s, t);
    LeaveKeeps(cfg, s, t, w, s.th[t].p);
  }

  lemma EnterSameMessages(s: State, t: nat, w: Option<nat>)
    requires Enabled(s, Enter(t, w)) && s.th[t].p.None?
    ensures SameMessages(s, EnterLoop(s, t, w), t)
  {}

  lemma EnterUnansweredKeeps(cfg: Config, s: State, t: nat, w: Option<nat>)
    requires Inv(cfg, s) && Enabled(s, Enter(t, w)) && s.th[t].p.None?
    ensures Inv(cfg, EnterLoop(s, t, w))
  {
    var s' := EnterLoop(s, t, w);
    EnterMuxer(s, t, w);
    EnterSameMessages(s, t, w);
    SameMessagesInv(cfg, s, s', t);
  }

  lemma EnterKeeps(cfg: Config, s: State, t: nat, w: Option<nat>)
    requires Inv(cfg, s) && Enabled(s, Enter(t, w))
    ensures Inv(cfg, EnterLoop(s, t, w))
  {
    if s.th[t].p.Some? {
      EnterAnsweredKeeps(cfg, s, t, w);
    } else {
      EnterUnansweredKeeps(cfg, s, t, w);
    }
  }

  /** An answered rpc is out of the queue already. */
  lemma GoneWhenAnswered(cfg: Config, s: State, t: nat)
    requires Inv(cfg, s) && t < |s.th| && HasTag(s.th[t].pc) && s.th[t].p.Some?
    ensures InvBut(cfg, s, {t})
  {
    GoneQueue(s, t);
    GoneMessages(cfg, s, t);
    GonePending(cfg, s, t);
  }

  lemma GoneQueue(s: State, t: nat)
    requires QueueInv(s, {}) && MuxerInv(s, {}) && ReplyInv(s, {}) && t < |s.th| && s.th[t].p.Some?
    ensures QueueInv(s, {t}) && MuxerInv(s, {t}) && ReplyInv(s, {t})
  {}

  lemma GoneMessages(cfg: Config, s: State, t: nat)
    requires MsgInv(cfg, s, {})
    ensures MsgInv(cfg, s, {t})
  {}

  lemma GonePending(cfg: Config, s: State, t: nat)
    requires PendingInv(cfg, s, {}) && ReplyInv(s, {}) && t < |s.th| && HasTag(s.th[t].pc) && s.th[t].p.Some?
    ensures PendingInv(cfg, s, {t})
  {
    forall m | InFlight(s, m, {}) ensures InFlight(s, m, {t}) {
      if Held(s, m, {}) {
        var v :| 0 <= v < |s.th| && v !in {} && s.th[v].pc == Holding(m);
        assert v != t;
      }
    }
  }

  lemma EnterMuxer(s: State, t: nat, w: Option<nat>)
    requires QueueInv(s, {}) && MuxerInv(s, {}) && ReplyInv(s, {}) && Enabled(s, Enter(t, w)) && s.th[t].p.None?
    ensures MuxerInv(EnterLoop(s, t, w), {}) && ReplyInv(EnterLoop(s, t, w), {})
  {}

  // ---------- taking a tag ----------

  /** A thread that has no tag yet moves between running and sleeping on tagrend. */
  ghost predicate TagWaitMove(s: State, s': State, t: nat) {
    && Moved(s, s', t) && s'.muxer == s.muxer && s'.asked == s.asked && s'.answered == s.answered
    && !HasTag(s.th[t].pc) && !HasTag(s'.th[t].pc)
  }

  lemma TagWaitTable(cfg: Config, s: State, s': State, t: nat)
    requires TableInv(cfg, s) && QueueInv(s, {}) && LogInv(s) && TagWaitMove(s, s', t)
    ensures TableInv(cfg, s') && QueueInv(s', {}) && LogInv(s')
  {}

  lemma TagWaitMuxer(s: State, s': State, t: nat)
    requires QueueInv(s, {}) && MuxerInv(s, {}) && ReplyInv(s, {}) && TagWaitMove(s, s', t)
    ensures MuxerInv(s', {}) && ReplyInv(s', {})
  {}

  lemma TagWaitMessages(cfg: Config, s: State, s': State, t: nat)
    requires MsgInv(cfg, s, {}) && QueueInv(s, {}) && TagWaitMove(s, s', t)
    ensures MsgInv(cfg, s', {})
  {
    assert t !in s.queue;
    forall m | Owned(cfg, s, m) ensures Owned(cfg, s', m) {}
  }

  lemma TagWaitPending(cfg: Config, s: State, s': State, t: nat)
    requires PendingInv(cfg, s, {}) && TagWaitMove(s, s', t)
    ensures PendingInv(cfg, s', {})
  {
    if !s.eof {
      forall u | 0 <= u < |s'.th| && Unanswered(s'.th[u]) && s'.th[u].pc != Sending
        ensures InFlight(s', Msg(cfg.mintag + s'.th[u].slot, s'.th[u].req), {})
      {
        MovedPending(cfg, s, s', t, Msg(cfg.mintag + s.th[u].slot, s.th[u].req));
      }
    }
  }

  lemma TagWaitKeeps(cfg: Config, s: State, s': State, t: nat)
    requires Inv(cfg, s) && TagWaitMove(s, s', t) && WaiterInv(cfg, s')
    ensures Inv(cfg, s')
  {
    MovedCalls(s, s', t);
    TagWaitTable(cfg, s, s', t);
    TagWaitMuxer(s, s', t);
    TagWaitMessages(cfg, s, s', t);
    TagWaitPending(cfg, s, s', t);
  }

  lemma TagSpuriousKeeps(cfg: Config, s: State, t: nat)
    requires Inv(cfg, s) && Enabled(s, TagSpurious(t))
    ensures Inv(cfg, Apply(cfg, s, TagSpurious(t)))
  {
    var s' := Apply(cfg, s, TagSpurious(t));
    SumUpdate(s.th, WokenForTag, t, s'.th[t]);
    TagWaitKeeps(cfg, s, s', t);
  }

  /** What gettag followed by enqueue does to the state, when a tag is found. */
  ghost predicate TagTaken(s: State, s': State, t: nat) {
    && t < |s.th| == |s'.th| && (forall u :: 0 <= u < |s.th| && u != t ==> s'.th[u] == s.th[u])
    && s.th[t].pc != Idle && !HasTag(s.th[t].pc)
    && s'.th[t] == s.th[t].(pc := Sending, slot := s'.th[t].slot, p := None)
    && |s.tab.wait| <= |s'.tab.wait| && s'.th[t].slot < |s'.tab.wait|
    && s'.tab.wait[s'.th[t].slot] == Some(t)
    && (s'.th[t].slot < |s.tab.wait| ==> s.tab.wait[s'.th[t].slot].None?)
    && (forall i :: 0 <= i < |s.tab.wait| && i != s'.th[t].slot ==> s'.tab.wait[i] == s.tab.wait[i])
    && (forall i :: |s.tab.wait| <= i < |s'.tab.wait| && i != s'.th[t].slot ==> s'.tab.wait[i].None?)
    && s'.queue == [t] + s.queue && s'.muxer == s.muxer && s'.asked == s.asked && s'.answered == s.answered
    && s'.eof == s.eof && s'.failed == s.failed && s'.crashed == s.crashed && s'.nextReq == s.nextReq
    && s'.log == s.log
  }

  lemma TagTakenTable(cfg: Config, s: State, s': State, t: nat)
    requires TagTaken(s, s', t) && TableInv(cfg, s) && TT.Valid(s'.tab, cfg.range) && LogInv(s)
    ensures TableInv(cfg, s') && LogInv(s')
  {}

  lemma TagTakenQueue(s: State, s': State, t: nat)
    requires TagTaken(s, s', t) && QueueInv(s, {}) && MuxerInv(s, {}) && ReplyInv(s, {})
    ensures QueueInv(s', {}) && MuxerInv(s', {}) && ReplyInv(s', {})
  {
    assert t !in s.queue;
  }

  lemma TagTakenMessages(cfg: Config, s: State, s': State, t: nat)
    requires TagTaken(s, s', t) && QueueInv(s, {}) && MsgInv(cfg, s, {})
    ensures MsgInv(cfg, s', {})
  {
    assert t !in s.queue;
    forall m | Owned(cfg, s, m) ensures Owned(cfg, s', m) {
      assert m.tag - cfg.mintag != s'.th[t].slot;
    }
  }

  lemma TagTakenPending(cfg: Config, s: State, s': State, t: nat)
    requires TagTaken(s, s', t) && PendingInv(cfg, s, {})
    ensures PendingInv(cfg, s', {})
  {
    if !s.eof {
      forall u | 0 <= u < |s'.th| && Unanswered(s'.th[u]) && s'.th[u].pc != Sending
        ensures InFlight(s', Msg(cfg.mintag + s'.th[u].slot, s'.th[u].req), {})
      {
        var m := Msg(cfg.mintag + s.th[u].slot, s.th[u].req);
        assert InFlight(s, m, {});
        if Held(s, m, {}) {
          var v :| 0 <= v < |s.th| && v !in {} && s.th[v].pc == Holding(m);
          assert s'.th[v].pc == Holding(m);
        }
      }
    }
  }

  lemma TagTakenCalls(s: State, s': State, t: nat)
    requires TagTaken(s, s', t) && CallInv(s)
    ensures CallInv(s')
  {
    forall q: nat | q < s'.nextReq ensures Running(s'.th, q) || Returned(s'.log, q) {
      if Running(s.th, q) {
        var u :| 0 <= u < |s.th| && s.th[u].pc != Idle && s.th[u].req == q;
        assert s'.th[u].pc != Idle;
      }
    }
  }

  /** Running the loop of gettag from a state where t has entered muxrpc and has no tag. */
  lemma GetTagKeeps(cfg: Config, s: State, t: nat)
    requires InvBut(cfg, s, {}) && t < |s.th| && s.th[t].pc == TagWoken
    ensures Inv(cfg, GetTag(cfg, s, t))
  {
    TT.TakeTagCorrect(s.tab, cfg.range, t);
    if TT.TakeTag(s.tab, cfg.range, t).MustSleep? {
      GetTagWaits(cfg, s, t);
    } else {
      GetTagTakes(cfg, s, t);
    }
  }

  lemma GetTagWaits(cfg: Config, s: State, t: nat)
    requires InvBut(cfg, s, {}) && t < |s.th| && s.th[t].pc == TagWoken && TT.TakeTag(s.tab, cfg.range, t).MustSleep?
    ensures Inv(cfg, GetTag(cfg, s, t))
  {
    TT.TakeTagCorrect(s.tab, cfg.range, t);
    TT.OccupiedBounds(s.tab.wait);
    var s' := GetTag(cfg, s, t);
    SumUpdate(s.th, WokenForTag, t, s'.th[t]);
    TagWaitKeeps(cfg, s, s', t);
  }

  lemma GetTagTakes(cfg: Config, s: State, t: nat)
    requires InvBut(cfg, s, {}) && t < |s.th| && s.th[t].pc == TagWoken && TT.TakeTag(s.tab, cfg.range, t).Taken?
    ensures Inv(cfg, GetTag(cfg, s, t))
  {
    TT.TakeTagCorrect(s.tab, cfg.range, t);
    var s' := GetTag(cfg, s, t);
    SumUpdate(s.th, WokenForTag, t, s'.th[t]);
    TagTakenInv(cfg, s, s', t);
  }

  lemma TagTakenInv(cfg: Config, s: State, s': State, t: nat)
    requires Inv(cfg, s) && TagTaken(s, s', t) && TT.Valid(s'.tab, cfg.range) && s'.tab.nwait == s.tab.nwait + 1
    requires cfg.range <= |s.tab.wait| ==> |s'.tab.wait| == |s.tab.wait|
    requires Sum(s'.th, WokenForTag) + WokenForTag(s.th[t]) == Sum(s.th, WokenForTag)
    ensures Inv(cfg, s')
  {
    TagTakenTable(cfg, s, s', t);
    TagTakenQueue(s, s', t);
    TagTakenMessages(cfg, s, s', t);
    TagTakenPending(cfg, s, s', t);
    TagTakenCalls(s, s', t);
    assert WaiterInv(cfg, s') by {
      if u :| 0 <= u < |s'.th| && s'.th[u].pc == TagAsleep {
        assert s.th[u].pc == TagAsleep;
      }
    }
  }

  /** The state in which a thread that enters muxrpc stands at the head of gettag's loop, like a
      thread just woken from tagrend. */
  function Entered(s: State, t: nat): State
    requires t < |s.th|
  {
    s.(th := s.th[t := s.th[t].(pc := TagWoken, req := s.nextReq, p := None)], nextReq := s.nextReq + 1)
  }

  lemma EnteredCalls(s: State, t: nat)
    requires CallInv(s) && LogInv(s) && t < |s.th| && s.th[t].pc == Idle
    ensures CallInv(Entered(s, t)) && LogInv(Entered(s, t))
  {
    var s' := Entered(s, t);
    forall q: nat | q < s'.nextReq ensures Running(s'.th, q) || Returned(s'.log, q) {
      if q == s.nextReq {
        assert s'.th[t].pc != Idle && s'.th[t].req == q;
      } else if Running(s.th, q) {
        var u :| 0 <= u < |s.th| && s.th[u].pc != Idle && s.th[u].req == q;
        assert s'.th[u].pc != Idle && s'.th[u].req == q;
      }
    }
  }

  lemma EnteredTable(cfg: Config, s: State, t: nat)
    requires t < |s.th| && s.th[t].pc == Idle
    requires TableInv(cfg, s) && QueueInv(s, {}) && MuxerInv(s, {}) && ReplyInv(s, {})
    ensures TableInv(cfg, Entered(s, t)) && QueueInv(Entered(s, t), {})
    ensures MuxerInv(Entered(s, t), {}) && ReplyInv(Entered(s, t), {})
  {}

  lemma EnteredMessages(cfg: Config, s: State, t: nat)
    requires t < |s.th| && s.th[t].pc == Idle && QueueInv(s, {}) && MsgInv(cfg, s, {})
    ensures MsgInv(cfg, Entered(s, t), {})
  {
    assert t !in s.queue;
    forall m | Owned(cfg, s, m) ensures Owned(cfg, Entered(s, t), m) {}
  }

  lemma EnteredPending(cfg: Config, s: State, t: nat)
    requires t < |s.th| && s.th[t].pc == Idle && PendingInv(cfg, s, {})
    ensures PendingInv(cfg, Entered(s, t), {})
  {
    var s' := Entered(s, t);
    if !s.eof {
      forall u | 0 <= u < |s'.th| && Unanswered(s'.th[u]) && s'.th[u].pc != Sending
        ensures InFlight(s', Msg(cfg.mintag + s'.th[u].slot, s'.th[u].req), {})
      {
        var m := Msg(cfg.mintag + s.th[u].slot, s.th[u].req);
        assert InFlight(s, m, {});
        if Held(s, m, {}) {
          var v :| 0 <= v < |s.th| && v !in {} && s.th[v].pc == Holding(m);
          assert s'.th[v].pc == Holding(m);
        }
      }
    }
  }

  lemma EnteredWaiters(cfg: Config, s: State, t: nat)
    requires t < |s.th| && s.th[t].pc == Idle && WaiterInv(cfg, s)
    ensures WaiterInv(cfg, Entered(s, t))
  {
    var s' := Entered(s, t);
    SumUpdate(s.th, WokenForTag, t, s'.th[t]);
    if u :| 0 <= u < |s'.th| && s'.th[u].pc == TagAsleep {
      assert s.th[u].pc == TagAsleep;
    }
  }

  lemma UpdateTwice<T>(q: seq<T>, i: nat, x: T, y: T)
    requires i < |q|
    ensures q[i := x][i := y] == q[i := y]
  {}

  /** Coming from outside or from tagrend, gettag's loop does the same. */
  lemma EnteredGetTag(cfg: Config, s: State, t: nat)
    requires Enabled(s, Call(t)) && TT.Valid(s.tab, cfg.range)
    ensures Apply(cfg, s, Call(t)) == GetTag(cfg, Entered(s, t), t)
  {
    var x := s.th[t].(req := s.nextReq, p := None);
    TT.TakeTagCorrect(s.tab, cfg.range, t);
    match TT.TakeTag(s.tab, cfg.range, t)
    case Taken(tb, i) =>
      UpdateTwice(s.th, t, x, x.(pc := Sending, slot := i));
      UpdateTwice(s.th, t, x.(pc := TagWoken), x.(pc := Sending, slot := i));
    case MustSleep =>
      UpdateTwice(s.th, t, x, x.(pc := TagAsleep));
      UpdateTwice(s.th, t, x.(pc := TagWoken), x.(pc := TagAsleep));
    case Abort => assert false;
  }

  lemma CallKeeps(cfg: Config, s: State, t: nat)
    requires Inv(cfg, s) && Enabled(s, Call(t))
    ensures Inv(cfg, Apply(cfg, s, Call(t)))
  {
    EnteredCalls(s, t);
    EnteredTable(cfg, s, t);
    EnteredMessages(cfg, s, t);
    EnteredPending(cfg, s, t);
    EnteredWaiters(cfg, s, t);
    EnteredGetTag(cfg, s, t);
    GetTagKeeps(cfg, Entered(s, t), t);
  }

  // ---------- sending, receiving, answering ----------

  lemma SendKeeps(cfg: Config, s: State, t: nat)
    requires Inv(cfg, s) && Enabled(s, Send(t))
    ensures Inv(cfg, Apply(cfg, s, Send(t)))
  {
    var s' := Apply(cfg, s, Send(t));
    MovedCalls(s, s', t);
    MovedTable(cfg, s, s', t);
    SendMessages(cfg, s, t);
    SendPending(cfg, s, t);
    SendMuxer(cfg, s, t);
  }

  lemma SendMuxer(cfg: Config, s: State, t: nat)
    requires MuxerInv(s, {}) && ReplyInv(s, {}) && Enabled(s, Send(t))
    ensures MuxerInv(Apply(cfg, s, Send(t)), {}) && ReplyInv(Apply(cfg, s, Send(t)), {})
  {}

  lemma SendMessages(cfg: Config, s: State, t: nat)
    requires TableInv(cfg, s) && QueueInv(s, {}) && ReplyInv(s, {}) && MsgInv(cfg, s, {}) && Enabled(s, Send(t))
    ensures MsgInv(cfg, Apply(cfg, s, Send(t)), {})
  {
    var s' := Apply(cfg, s, Send(t));
    var m := Msg(cfg.mintag + s.th[t].slot, s.th[t].req);
    assert t in s.queue;
    assert !Owned(cfg, s, m);
    assert Owned(cfg, s', m);
    forall n | Owned(cfg, s, n) ensures Owned(cfg, s', n) {}
  }

  lemma SendPending(cfg: Config, s: State, t: nat)
    requires PendingInv(cfg, s, {}) && Enabled(s, Send(t))
    ensures PendingInv(cfg, Apply(cfg, s, Send(t)), {})
  {
    var s' := Apply(cfg, s, Send(t));
    if !s.eof {
      forall u | 0 <= u < |s'.th| && Unanswered(s'.th[u]) && s'.th[u].pc != Sending
        ensures InFlight(s', Msg(cfg.mintag + s'.th[u].slot, s'.th[u].req), {})
      {
        if u != t {
          MovedPending(cfg, s, s', t, Msg(cfg.mintag + s.th[u].slot, s.th[u].req));
        }
      }
    }
  }

  lemma ReceiveKeeps(cfg: Config, s: State, t: nat, m: Msg)
    requires Inv(cfg, s) && Enabled(s, Receive(t, m))
    ensures Inv(cfg, Apply(cfg, s, Receive(t, m)))
  {
    var s' := Apply(cfg, s, Receive(t, m));
    MovedCalls(s, s', t);
    MovedTable(cfg, s, s', t);
    ReceiveMessages(cfg, s, t, m);
    ReceivePending(cfg, s, t, m);
    ReceiveMuxer(cfg, s, t, m);
  }

  lemma ReceiveMuxer(cfg: Config, s: State, t: nat, m: Msg)
    requires MuxerInv(s, {}) && ReplyInv(s, {}) && Enabled(s, Receive(t, m))
    ensures MuxerInv(Apply(cfg, s, Receive(t, m)), {}) && ReplyInv(Apply(cfg, s, Receive(t, m)), {})
  {}

  lemma ReceiveMessages(cfg: Config, s: State, t: nat, m: Msg)
    requires MuxerInv(s, {}) && MsgInv(cfg, s, {}) && Enabled(s, Receive(t, m))
    ensures MsgInv(cfg, Apply(cfg, s, Receive(t, m)), {})
  {
    var s' := Apply(cfg, s, Receive(t, m));
    forall n | Owned(cfg, s, n) ensures Owned(cfg, s', n) {}
  }

  lemma ReceivePending(cfg: Config, s: State, t: nat, m: Msg)
    requires PendingInv(cfg, s, {}) && Enabled(s, Receive(t, m))
    ensures PendingInv(cfg, Apply(cfg, s, Receive(t, m)), {})
  {
    var s' := Apply(cfg, s, Receive(t, m));
    forall u | 0 <= u < |s'.th| && Unanswered(s'.th[u]) && s'.th[u].pc != Sending
      ensures InFlight(s', Msg(cfg.mintag + s'.th[u].slot, s'.th[u].req), {})
    {
      MovedPending(cfg, s, s', t, Msg(cfg.mintag + s.th[u].slot, s.th[u].req));
    }
  }

  lemma AnswerMessages(cfg: Config, s: State, m: Msg)
    requires MsgInv(cfg, s, {}) && Enabled(s, Answer(m))
    ensures MsgInv(cfg, Apply(cfg, s, Answer(m)), {})
  {
    var s' := Apply(cfg, s, Answer(m));
    forall n | Owned(cfg, s, n) ensures Owned(cfg, s', n) {}
  }

  lemma AnswerPending(cfg: Config, s: State, m: Msg)
    requires PendingInv(cfg, s, {}) && Enabled(s, Answer(m))
    ensures PendingInv(cfg, Apply(cfg, s, Answer(m)), {})
  {
    var s' := Apply(cfg, s, Answer(m));
    forall n | InFlight(s, n, {}) ensures InFlight(s', n, {}) {
      if Held(s, n, {}) {
        var v :| 0 <= v < |s.th| && v !in {} && s.th[v].pc == Holding(n);
        assert s'.th[v].pc == Holding(n);
      }
    }
  }

  lemma AnswerKeeps(cfg: Config, s: State, m: Msg)
    requires Inv(cfg, s) && Enabled(s, Answer(m))
    ensures Inv(cfg, Apply(cfg, s, Answer(m)))
  {
    AnswerMessages(cfg, s, m);
    AnswerPending(cfg, s, m);
    AnswerElse(cfg, s, Apply(cfg, s, Answer(m)));
  }

  lemma AnswerElse(cfg: Config, s: State, s': State)
    requires s' == s.(asked := s'.asked, answered := s'.answered)
    requires TableInv(cfg, s) && QueueInv(s, {}) && MuxerInv(s, {}) && ReplyInv(s, {})
    requires WaiterInv(cfg, s) && LogInv(s) && CallInv(s)
    ensures TableInv(cfg, s') && QueueInv(s', {}) && MuxerInv(s', {}) && ReplyInv(s', {})
    ensures WaiterInv(cfg, s') && LogInv(s') && CallInv(s')
  {}

  // ---------- leaving the sleep queue ----------

  /** The rpc t is taken out of the sleep queue; flags may be raised, nothing else changes. */
  ghost predicate Dequeued(s: State, s': State, t: nat) {
    && t < |s.th| && s'.th == s.th && s'.tab == s.tab && s'.queue == Without(s.queue, t) && s'.muxer == s.muxer
    && s'.asked == s.asked && s'.answered == s.answered && (s.eof ==> s'.eof) && s'.crashed == s.crashed
    && s'.nextReq == s.nextReq && s'.log == s.log && (s.failed ==> s'.failed)
  }

  lemma DequeuedQueue(s: State, s': State, t: nat)
    requires Dequeued(s, s', t) && QueueInv(s, {}) && ReplyInv(s, {}) && LogInv(s)
    ensures QueueInv(s', {t}) && ReplyInv(s', {t}) && LogInv(s') && t !in s'.queue
    ensures forall u :: u in s'.queue <==> u in s.queue && u != t
  {
    WithoutMembers(s.queue, t);
  }

  lemma DequeuedMessages(cfg: Config, s: State, s': State, t: nat)
    requires Dequeued(s, s', t) && MsgInv(cfg, s, {})
    requires forall u :: u in s'.queue <==> u in s.queue && u != t
    requires s'.eof || s.th[t].pc == Sending
    requires s'.eof ==> forall u :: 0 <= u < |s.th| && u != t ==> !s.th[u].pc.Holding?
    ensures MsgInv(cfg, s', {t})
  {
    forall m | Owned(cfg, s, m) && s.th[t].pc == Sending ensures Owned(cfg, s', m) {}
  }

  lemma DequeuedPending(cfg: Config, s: State, s': State, t: nat)
    requires Dequeued(s, s', t) && PendingInv(cfg, s, {}) && !s.th[t].pc.Holding?
    ensures PendingInv(cfg, s', {t})
  {
    if !s'.eof {
      forall m | InFlight(s, m, {}) ensures InFlight(s', m, {t}) {
        if Held(s, m, {}) {
          var v :| 0 <= v < |s.th| && v !in {} && s.th[v].pc == Holding(m);
          assert v !in {t} && s'.th[v].pc == Holding(m);
        }
      }
    }
  }

  lemma SendFailKeeps(cfg: Config, s: State, t: nat, w: Option<nat>)
    requires Inv(cfg, s) && Enabled(s, SendFail(t, w))
    ensures Inv(cfg, FailSend(s, t, w))
  {
    var s1 := s.(queue := Without(s.queue, t), failed := true);
    DequeuedQueue(s, s1, t);
    SendFailMessages(cfg, s, t);
    DequeuedPending(cfg, s, s1, t);
    LeaveKeeps(cfg, s1, t, w, None);
  }

  lemma SendFailMessages(cfg: Config, s: State, t: nat)
    requires Inv(cfg, s) && t < |s.th| && s.th[t].pc == Sending && s.muxer != Some(t)
    ensures MsgInv(cfg, s.(queue := Without(s.queue, t), failed := true), {t})
    ensures MuxerInv(s.(queue := Without(s.queue, t), failed := true), {t})
  {
    WithoutMembers(s.queue, t);
    DequeuedMessages(cfg, s, s.(queue := Without(s.queue, t), failed := true), t);
  }

  // ---------- handing on the role of muxer ----------

  /** The muxer t has its reply, or gave up, and is out of the queue; the role is still its own. */
  ghost predicate RoleHeld(s: State, t: nat) {
    && t < |s.th| && s.muxer == Some(t) && InRecv(s.th[t].pc)
    && (forall u :: 0 <= u < |s.th| && u != t ==> !InRecv(s.th[u].pc))
    && (forall u :: 0 <= u < |s.th| && s.th[u].pc == Asleep ==> s.th[u].p.None?)
  }

  /** electmuxer leaves no sleeper without an awake muxer. */
  lemma ElectMuxer(s: State, t: nat)
    requires RoleHeld(s, t) && QueueInv(s, {t}) && ReplyInv(s, {t})
    ensures MuxerInv(Elect(s), {t}) && QueueInv(Elect(s), {t}) && ReplyInv(Elect(s), {t})
    ensures Elect(s).crashed == s.crashed && Elect(s).th[t] == s.th[t]
  {
    if s.queue == [] {
      forall u | 0 <= u < |s.th| && Unanswered(s.th[u]) ensures u == t {
        assert u in s.queue || u == t;
      }
    } else {
      assert s.queue[0] in s.queue;
    }
  }

  /** electmuxer moves at most one thread, from asleep to woken. */
  ghost predicate Elected(s: State, s': State) {
    && |s'.th| == |s.th|
    && (forall u :: 0 <= u < |s.th| ==>
          s'.th[u] == s.th[u] || (s.th[u].pc == Asleep && s'.th[u] == s.th[u].(pc := Woken)))
    && s'.tab == s.tab && s'.queue == s.queue && s'.asked == s.asked && s'.answered == s.answered
    && s'.eof == s.eof && s'.failed == s.failed && s'.nextReq == s.nextReq && s'.log == s.log
  }

  lemma ElectIsElected(s: State)
    ensures Elected(s, Elect(s))
  {}

  lemma ElectedTable(cfg: Config, s: State, s': State)
    requires Elected(s, s') && TableInv(cfg, s)
    ensures TableInv(cfg, s')
  {}

  lemma ElectedMessages(cfg: Config, s: State, s': State, t: nat)
    requires Elected(s, s') && MsgInv(cfg, s, {t})
    ensures MsgInv(cfg, s', {t})
  {
    forall m | Owned(cfg, s, m) ensures Owned(cfg, s', m) {}
  }

  lemma ElectedPending(cfg: Config, s: State, s': State, t: nat)
    requires Elected(s, s') && PendingInv(cfg, s, {t})
    ensures PendingInv(cfg, s', {t})
  {
    if !s.eof {
      forall u | 0 <= u < |s'.th| && u !in {t} && Unanswered(s'.th[u]) && s'.th[u].pc != Sending
        ensures InFlight(s', Msg(cfg.mintag + s'.th[u].slot, s'.th[u].req), {t})
      {
        var m := Msg(cfg.mintag + s.th[u].slot, s.th[u].req);
        assert InFlight(s, m, {t});
        if Held(s, m, {t}) {
          var v :| 0 <= v < |s.th| && v !in {t} && s.th[v].pc == Holding(m);
          assert s'.th[v].pc == Holding(m);
        }
      }
    }
  }

  lemma ElectedCalls(s: State, s': State)
    requires Elected(s, s') && CallInv(s)
    ensures CallInv(s')
  {
    forall q: nat | q < s'.nextReq ensures Running(s'.th, q) || Returned(s'.log, q) {
      if Running(s.th, q) {
        var u :| 0 <= u < |s.th| && s.th[u].pc != Idle && s.th[u].req == q;
        assert s'.th[u].pc != Idle;
      }
    }
  }

  lemma ElectWaiters(cfg: Config, s: State)
    requires WaiterInv(cfg, s)
    ensures WaiterInv(cfg, Elect(s))
  {
    if s.queue != [] && s.queue[0] < |s.th| {
      SumUpdate(s.th, WokenForTag, s.queue[0], Elect(s).th[s.queue[0]]);
      assert s.th[s.queue[0] := s.th[s.queue[0]]] == s.th;
    }
    if u :| 0 <= u < |s.th| && Elect(s).th[u].pc == TagAsleep {
      assert s.th[u].pc == TagAsleep;
    }
  }

  lemma ElectKeeps(cfg: Config, s: State, t: nat)
    requires !s.crashed && RoleHeld(s, t)
    requires TableInv(cfg, s) && QueueInv(s, {t}) && ReplyInv(s, {t}) && MsgInv(cfg, s, {t})
    requires PendingInv(cfg, s, {t}) && WaiterInv(cfg, s) && LogInv(s) && CallInv(s)
    ensures InvBut(cfg, Elect(s), {t}) && Elect(s).th[t] == s.th[t]
    ensures Elect(s).eof == s.eof && Elect(s).failed == s.failed
  {
    var s' := Elect(s);
    ElectMuxer(s, t);
    ElectIsElected(s);
    ElectedTable(cfg, s, s');
    ElectedMessages(cfg, s, s', t);
    ElectedPending(cfg, s, s', t);
    ElectedCalls(s, s');
    ElectWaiters(cfg, s);
  }

  lemma ReceiveEofRole(cfg: Config, s: State, t: nat)
    requires QueueInv(s, {}) && MuxerInv(s, {}) && ReplyInv(s, {}) && MsgInv(cfg, s, {}) && PendingInv(cfg, s, {})
    requires LogInv(s) && t < |s.th| && s.th[t].pc == Receiving
    ensures var s1 := s.(queue := Without(s.queue, t), eof := true);
            && RoleHeld(s1, t) && QueueInv(s1, {t}) && ReplyInv(s1, {t}) && MsgInv(cfg, s1, {t})
            && PendingInv(cfg, s1, {t}) && LogInv(s1) && s1.th[t].p.None?
  {
    var s1 := s.(queue := Without(s.queue, t), eof := true);
    DequeuedQueue(s, s1, t);
    DequeuedMessages(cfg, s, s1, t);
    DequeuedPending(cfg, s, s1, t);
  }

  lemma ReceiveEofKeeps(cfg: Config, s: State, t: nat, w: Option<nat>)
    requires Inv(cfg, s) && Enabled(s, ReceiveEof(t, w))
    ensures Inv(cfg, Apply(cfg, s, ReceiveEof(t, w)))
  {
    var s1 := s.(queue := Without(s.queue, t), eof := true);
    ReceiveEofRole(cfg, s, t);
    ElectKeeps(cfg, s1, t);
    SignalledAfterElect(s1, w);
    LeaveKeeps(cfg, Elect(s1), t, w, None);
  }

  /** A message that answers the call of t is registered under t's tag. */
  lemma OwnMessage(cfg: Config, s: State, t: nat, m: Msg)
    requires TableInv(cfg, s) && QueueInv(s, {}) && CallInv(s) && Owned(cfg, s, m)
    requires t < |s.th| && s.th[t].pc != Idle && m.req == s.th[t].req
    ensures m == Msg(cfg.mintag + s.th[t].slot, s.th[t].req)
  {
    var u := s.tab.wait[m.tag - cfg.mintag].value;
    assert u < |s.th| && HasTag(s.th[u].pc) && s.th[u].req == m.req;
    assert u == t;
  }

  lemma GiveUpRole(s: State, s1: State, t: nat, m: Msg)
    requires QueueInv(s, {}) && MuxerInv(s, {}) && ReplyInv(s, {}) && LogInv(s) && t < |s.th| && s.th[t].pc == Receiving
    requires s1 == s.(queue := Without(s.queue, t), answered := s.answered - {m}, failed := true)
    ensures RoleHeld(s1, t) && QueueInv(s1, {t}) && ReplyInv(s1, {t}) && LogInv(s1) && s1.th[t].p.None?
    ensures forall u :: u in s1.queue <==> u in s.queue && u != t
  {
    DequeuedQueue(s.(answered := s.answered - {m}), s1, t);
  }

  lemma GiveUpMessages(cfg: Config, s: State, s1: State, t: nat, m: Msg)
    requires TableInv(cfg, s) && QueueInv(s, {}) && MsgInv(cfg, s, {}) && CallInv(s) && MuxerInv(s, {})
    requires !s.eof && m in s.answered && t < |s.th| && s.th[t].pc == Receiving && m.req == s.th[t].req
    requires s1 == s.(queue := Without(s.queue, t), answered := s.answered - {m}, failed := true)
    requires forall u :: u in s1.queue <==> u in s.queue && u != t
    ensures MsgInv(cfg, s1, {t})
  {
    OwnMessage(cfg, s, t, m);
    forall n | (n in s.asked || n in s.answered) && n != m ensures Owned(cfg, s1, n) {
      assert Owned(cfg, s, n);
      if s.tab.wait[n.tag - cfg.mintag] == Some(t) {
        OwnMessage(cfg, s, t, n);
      }
    }
  }

  lemma GiveUpPending(cfg: Config, s: State, s1: State, t: nat, m: Msg)
    requires PendingInv(cfg, s, {}) && CallInv(s) && MuxerInv(s, {})
    requires t < |s.th| && s.th[t].pc == Receiving && m.req == s.th[t].req
    requires s1 == s.(queue := Without(s.queue, t), answered := s.answered - {m}, failed := true)
    ensures PendingInv(cfg, s1, {t})
  {
    if !s.eof {
      forall u | 0 <= u < |s.th| && u !in {t} && Unanswered(s.th[u]) && s.th[u].pc != Sending
        ensures InFlight(s1, Msg(cfg.mintag + s.th[u].slot, s.th[u].req), {t})
      {
        var n := Msg(cfg.mintag + s.th[u].slot, s.th[u].req);
        assert InFlight(s, n, {});
        assert !Held(s, n, {});
        assert n.req != m.req;
      }
    }
  }

  /** Giving up on the reply to one's own call: the role passes on, the stream goes on. */
  lemma GiveUpKeeps(cfg: Config, s: State, t: nat, m: Msg, w: Option<nat>)
    requires Inv(cfg, s) && Enabled(s, GiveUp(t, m, w))
    ensures Inv(cfg, GiveUpOn(s, t, m, w))
  {
    var s1 := s.(queue := Without(s.queue, t), answered := s.answered - {m}, failed := true);
    GiveUpRole(s, s1, t, m);
    GiveUpMessages(cfg, s, s1, t, m);
    GiveUpPending(cfg, s, s1, t, m);
    ElectKeeps(cfg, s1, t);
    SignalledAfterElect(s1, w);
    LeaveKeeps(cfg, Elect(s1), t, w, None);
  }

  lemma SignalledAfterElect(s: State, w: Option<nat>)
    requires Signalled(s, w)
    ensures Signalled(Elect(s), w)
  {}

  // ---------- dispatching a reply ----------

  /** The reply f, held by the muxer t, goes to r2; t goes on to pc. */
  ghost predicate HandedOut(cfg: Config, s: State, s': State, t: nat, r2: nat, pc: Pc) {
    && t < |s.th| == |s'.th| && r2 < |s.th| && s.th[t].pc.Holding? && HasTag(pc)
    && (forall u :: 0 <= u < |s.th| && u != t && u != r2 ==> s'.th[u] == s.th[u])
    && s'.th[r2].p == Some(s.th[t].pc.f) && s'.th[r2].slot == s.th[r2].slot && s'.th[r2].req == s.th[r2].req
    && s'.th[t].pc == pc && s'.th[t].slot == s.th[t].slot && s'.th[t].req == s.th[t].req
    && (t != r2 ==> s'.th[t].p == s.th[t].p && s'.th[r2].pc == if s.th[r2].pc == Asleep then Woken else s.th[r2].pc)
    && s'.tab == s.tab && s'.queue == Without(s.queue, r2) && s'.muxer == s.muxer
    && s'.asked == s.asked && s'.answered == s.answered
    && s'.eof == s.eof && s'.failed == s.failed && s'.crashed == s.crashed && s'.nextReq == s.nextReq
    && s'.log == s.log
  }

  /** What dispatching relies on: r2 is the rpc registered under the held reply's tag. */
  ghost predicate Addressed(cfg: Config, s: State, t: nat, r2: nat) {
    && t < |s.th| && s.th[t].pc.Holding? && !s.eof && Owned(cfg, s, s.th[t].pc.f)
    && s.tab.wait[s.th[t].pc.f.tag - cfg.mintag] == Some(r2)
  }

  /** A held reply is owned, so it is addressed to somebody. */
  lemma HeldIsAddressed(cfg: Config, s: State, t: nat) returns (r2: nat)
    requires MsgInv(cfg, s, {}) && t < |s.th| && s.th[t].pc.Holding?
    ensures Addressed(cfg, s, t, r2)
  {
    assert Owned(cfg, s, s.th[t].pc.f);
    r2 := s.tab.wait[s.th[t].pc.f.tag - cfg.mintag].value;
  }

  lemma HandOutDelivers(cfg: Config, s: State, t: nat, r2: nat)
    requires Addressed(cfg, s, t, r2)
    ensures HandedOut(cfg, s, HandOut(cfg, s, s.th[t].pc.f), t, r2, s.th[t].pc)
  {}

  lemma AfterHandOutReceives(cfg: Config, s: State, s1: State, t: nat, r2: nat, w: Option<nat>)
    requires t < |s.th| && HandedOut(cfg, s, s1, t, r2, s.th[t].pc) && r2 != t && s.th[t].p.None? && Signalled(s1, w)
    ensures HandedOut(cfg, s, AfterHandOut(s1, t, w), t, r2, Receiving)
  {}

  /** No other message in flight is for r2. */
  lemma OnlyMessage(cfg: Config, s: State, t: nat, r2: nat, m: Msg)
    requires TableInv(cfg, s) && Addressed(cfg, s, t, r2) && Owned(cfg, s, m) && m != s.th[t].pc.f
    ensures s.tab.wait[m.tag - cfg.mintag] != Some(r2)
  {}

  lemma HandedTable(cfg: Config, s: State, s': State, t: nat, r2: nat, pc: Pc)
    requires HandedOut(cfg, s, s', t, r2, pc) && Addressed(cfg, s, t, r2)
    requires TableInv(cfg, s) && QueueInv(s, {})
    ensures TableInv(cfg, s')
  {
    assert r2 in s.queue;
  }

  lemma HandedQueue(cfg: Config, s: State, s': State, t: nat, r2: nat, pc: Pc)
    requires HandedOut(cfg, s, s', t, r2, pc) && Addressed(cfg, s, t, r2) && QueueInv(s, {})
    requires MuxerInv(s, {}) && ReplyInv(s, {})
    ensures QueueInv(s', {}) && r2 !in s'.queue
    ensures r2 == t ==> QueueInv(s', {t}) && ReplyInv(s', {t}) && (pc == s.th[t].pc ==> RoleHeld(s', t))
    ensures r2 != t && pc == Receiving ==> MuxerInv(s', {}) && ReplyInv(s', {})
  {
    WithoutMembers(s.queue, r2);
    assert r2 in s.queue;
  }

  lemma HandedMessages(cfg: Config, s: State, s': State, t: nat, r2: nat, pc: Pc)
    requires HandedOut(cfg, s, s', t, r2, pc) && Addressed(cfg, s, t, r2) && QueueInv(s, {})
    requires TableInv(cfg, s) && MsgInv(cfg, s, {}) && MuxerInv(s, {}) && pc != Sending
    ensures pc == Receiving ==> MsgInv(cfg, s', {})
    ensures r2 == t ==> MsgInv(cfg, s', {t})
  {
    WithoutMembers(s.queue, r2);
    forall m | Owned(cfg, s, m) && m != s.th[t].pc.f ensures Owned(cfg, s', m) {
      OnlyMessage(cfg, s, t, r2, m);
    }
  }

  lemma HandedPending(cfg: Config, s: State, s': State, t: nat, r2: nat, pc: Pc, gone: set<nat>)
    requires HandedOut(cfg, s, s', t, r2, pc) && Addressed(cfg, s, t, r2)
    requires TableInv(cfg, s) && QueueInv(s, {}) && MuxerInv(s, {}) && PendingInv(cfg, s, {})
    requires (r2 != t && pc == Receiving && gone == {}) || (r2 == t && gone == {t})
    ensures PendingInv(cfg, s', gone)
  {
    forall u | 0 <= u < |s'.th| && u !in gone && Unanswered(s'.th[u]) && s'.th[u].pc != Sending
      ensures InFlight(s', Msg(cfg.mintag + s'.th[u].slot, s'.th[u].req), gone)
    {
      var m := Msg(cfg.mintag + s.th[u].slot, s.th[u].req);
      assert u != r2 && HasTag(s.th[u].pc);
      assert s.tab.wait[s.th[u].slot] == Some(u);
      assert InFlight(s, m, {});
      HeldByMuxer(s, t, m);
    }
  }

  lemma HeldByMuxer(s: State, t: nat, m: Msg)
    requires MuxerInv(s, {}) && t < |s.th| && s.th[t].pc.Holding?
    ensures Held(s, m, {}) ==> m == s.th[t].pc.f
  {}

  lemma HandedCalls(cfg: Config, s: State, s': State, t: nat, r2: nat, pc: Pc)
    requires HandedOut(cfg, s, s', t, r2, pc) && Addressed(cfg, s, t, r2) && QueueInv(s, {}) && CallInv(s)
    requires pc == s.th[t].pc || t != r2
    ensures CallInv(s')
  {
    assert r2 in s.queue;
    forall q: nat | q < s'.nextReq ensures Running(s'.th, q) || Returned(s'.log, q) {
      if Running(s.th, q) {
        var u :| 0 <= u < |s.th| && s.th[u].pc != Idle && s.th[u].req == q;
        assert s'.th[u].pc != Idle;
      }
    }
  }

  lemma HandedWaiters(cfg: Config, s: State, s': State, t: nat, r2: nat, pc: Pc)
    requires HandedOut(cfg, s, s', t, r2, pc) && Addressed(cfg, s, t, r2) && QueueInv(s, {}) && WaiterInv(cfg, s)
    ensures WaiterInv(cfg, s')
  {
    assert r2 in s.queue;
    var mid := s.th[t := s'.th[t]];
    SumUpdate(s.th, WokenForTag, t, s'.th[t]);
    SumUpdate(mid, WokenForTag, r2, s'.th[r2]);
    assert s'.th == mid[r2 := s'.th[r2]];
    if u :| 0 <= u < |s'.th| && s'.th[u].pc == TagAsleep {
      assert s.th[u].pc == TagAsleep;
    }
  }

  lemma DispatchOtherKeeps(cfg: Config, s: State, s': State, t: nat, r2: nat)
    requires Inv(cfg, s) && Addressed(cfg, s, t, r2) && r2 != t && HandedOut(cfg, s, s', t, r2, Receiving)
    ensures Inv(cfg, s')
  {
    HandedTable(cfg, s, s', t, r2, Receiving);
    HandedQueue(cfg, s, s', t, r2, Receiving);
    HandedMessages(cfg, s, s', t, r2, Receiving);
    HandedPending(cfg, s, s', t, r2, Receiving, {});
    HandedCalls(cfg, s, s', t, r2, Receiving);
    HandedWaiters(cfg, s, s', t, r2, Receiving);
  }

  lemma DispatchOwnElects(cfg: Config, s: State, s1: State, t: nat)
    requires Inv(cfg, s) && Addressed(cfg, s, t, t) && HandedOut(cfg, s, s1, t, t, s.th[t].pc)
    ensures InvBut(cfg, Elect(s1), {t}) && Elect(s1).th[t] == s1.th[t]
  {
    HandedTable(cfg, s, s1, t, t, s.th[t].pc);
    HandedQueue(cfg, s, s1, t, t, s.th[t].pc);
    HandedMessages(cfg, s, s1, t, t, s.th[t].pc);
    HandedPending(cfg, s, s1, t, t, s.th[t].pc, {t});
    HandedCalls(cfg, s, s1, t, t, s.th[t].pc);
    HandedWaiters(cfg, s, s1, t, t, s.th[t].pc);
    ElectKeeps(cfg, s1, t);
  }

  lemma DispatchOwnKeeps(cfg: Config, s: State, s1: State, t: nat, w: Option<nat>)
    requires Inv(cfg, s) && Addressed(cfg, s, t, t) && HandedOut(cfg, s, s1, t, t, s.th[t].pc) && Signalled(s, w)
    ensures Inv(cfg, Leave(Elect(s1), t, w, s1.th[t].p))
  {
    DispatchOwnElects(cfg, s, s1, t);
    assert Signalled(s1, w);
    SignalledAfterElect(s1, w);
    LeaveKeeps(cfg, Elect(s1), t, w, s1.th[t].p);
  }

  lemma DispatchKeeps(cfg: Config, s: State, t: nat, w: Option<nat>)
    requires Inv(cfg, s) && Enabled(s, Dispatch(t, w))
    ensures Inv(cfg, Apply(cfg, s, Dispatch(t, w)))
  {
    var r2 := HeldIsAddressed(cfg, s, t);
    if r2 == t {
      HandOutDelivers(cfg, s, t, t);
      DispatchOwnKeeps(cfg, s, HandOut(cfg, s, s.th[t].pc.f), t, w);
    } else {
      ReceivesAgain(cfg, s, t, r2, w);
      DispatchOtherKeeps(cfg, s, Apply(cfg, s, Dispatch(t, w)), t, r2);
    }
  }

  lemma ReceivesAgain(cfg: Config, s: State, t: nat, r2: nat, w: Option<nat>)
    requires MuxerInv(s, {}) && ReplyInv(s, {}) && Enabled(s, Dispatch(t, w)) && Addressed(cfg, s, t, r2) && r2 != t
    ensures HandedOut(cfg, s, Apply(cfg, s, Dispatch(t, w)), t, r2, Receiving)
  {
    HandOutDelivers(cfg, s, t, r2);
    AfterHandOutReceives(cfg, s, HandOut(cfg, s, s.th[t].pc.f), t, r2, w);
  }

  lemma TagRunKeeps(cfg: Config, s: State, t: nat)
    requires Inv(cfg, s) && Enabled(s, TagRun(t))
    ensures Inv(cfg, Apply(cfg, s, TagRun(t)))
  {
    GetTagKeeps(cfg, s, t);
  }

  /** Every step of every thread and of the server keeps the invariant. */
  lemma StepKeeps(cfg: Config, s: State, step: Step)
    requires Inv(cfg, s) && Enabled(s, step)
    ensures Inv(cfg, Apply(cfg, s, step))
  {
    match step
    case Call(t) => CallKeeps(cfg, s, t);
    case TagSpurious(t) => TagSpuriousKeeps(cfg, s, t);
    case TagRun(t) => TagRunKeeps(cfg, s, t);
    case Send(t) => SendKeeps(cfg, s, t);
    case SendFail(t, w) => SendFailKeeps(cfg, s, t, w);
    case Enter(t, w) => EnterKeeps(cfg, s, t, w);
    case Spurious(t) => SpuriousKeeps(cfg, s, t);
    case Receive(t, m) => ReceiveKeeps(cfg, s, t, m);
    case ReceiveEof(t, w) => ReceiveEofKeeps(cfg, s, t, w);
    case GiveUp(t, m, w) => GiveUpKeeps(cfg, s, t, m, w);
    case Dispatch(t, w) => DispatchKeeps(cfg, s, t, w);
    case Answer(m) => AnswerKeeps(cfg, s, m);
  }
}
