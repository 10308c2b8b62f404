/** Two runs of three threads on which the multiplexer fails: a send that fails after its rpc was
    elected muxer, and a reply to somebody else that does not unpack. */
module MuxRuns {
  import opened Common
  import opened Mux
  import opened MuxTheorems
  import TT = TagTable

  // ---------- three threads; a failed send strands a sleeper ----------

  const CFG := Config(0, 255)
  const IDLE := Thread(Idle, 0, 0, None)

  /** A thread running the call n under the tag n. */
  function Tx(pc: Pc, n: nat): Thread { Thread(pc, n, n, None) }

  function At(th: seq<Thread>, wait: seq<Option<nat>>, queue: seq<nat>, muxer: Option<nat>, asked: set<Msg>,
              answered: set<Msg>, calls: nat): State
  {
    State(th, TT.Table(wait, calls, 0), queue, muxer, asked, answered, false, false, false, calls, [])
  }

  function S0(): State {
    At([IDLE, IDLE, IDLE], [None, None, None, None], [], None,
       {}, {}, 0)
  }

  function S1(): State {
    At([Tx(Sending, 0), IDLE, IDLE], [Some(0), None, None, None], [0], None,
       {}, {}, 1)
  }

  function S2(): State {
    At([Tx(Ready, 0), IDLE, IDLE], [Some(0), None, None, None], [0], None,
       {Msg(0, 0)}, {}, 1)
  }

  function S3(): State {
    At([Tx(Receiving, 0), IDLE, IDLE], [Some(0), None, None, None], [0], Some(0),
       {Msg(0, 0)}, {}, 1)
  }

  function S4(): State {
    At([Tx(Receiving, 0), IDLE, Tx(Sending, 1)], [Some(0), Some(2), None, None], [2, 0], Some(0),
       {Msg(0, 0)}, {}, 2)
  }

  function S5(): State {
    At([Tx(Receiving, 0), IDLE, Tx(Ready, 1)], [Some(0), Some(2), None, None], [2, 0], Some(0),
       {Msg(0, 0), Msg(1, 1)}, {}, 2)
  }

  function S6(): State {
    At([Tx(Receiving, 0), IDLE, Tx(Asleep, 1)], [Some(0), Some(2), None, None], [2, 0], Some(0),
       {Msg(0, 0), Msg(1, 1)}, {}, 2)
  }

  function S7(): State {
    At([Tx(Receiving, 0), Tx(Sending, 2), Tx(Asleep, 1)], [Some(0), Some(2), Some(1), None], [1, 2, 0], Some(0),
       {Msg(0, 0), Msg(1, 1)}, {}, 3)
  }

  function S8(): State {
    At([Tx(Receiving, 0), Tx(Sending, 2), Tx(Asleep, 1)], [Some(0), Some(2), Some(1), None], [1, 2, 0], Some(0),
       {Msg(1, 1)}, {Msg(0, 0)}, 3)
  }

  function S9(): State {
    At([Tx(Holding(Msg(0, 0)), 0), Tx(Sending, 2), Tx(Asleep, 1)], [Some(0), Some(2), Some(1), None], [1, 2, 0],
       Some(0), {Msg(1, 1)}, {}, 3)
  }

  /** Thread 0 has returned with its reply and elected thread 1, which is still sending. */
  function S10(): State {
    State([Thread(Idle, 0, 0, Some(Msg(0, 0))), Tx(Sending, 2), Tx(Asleep, 1)],
          TT.Table([None, Some(2), Some(1), None], 2, 0), [1, 2], Some(1), {Msg(1, 1)}, {},
          false, false, false, 3, [Ret(0, Some(Msg(0, 0)))])
  }

  lemma FirstThird()
    ensures Next(CFG, S0(), S1()) && Next(CFG, S1(), S2()) && Next(CFG, S2(), S3())
  {
    assert TT.Scan(S0().tab.wait, 0) == Some(0);
    assert Apply(CFG, S0(), Call(0)) == S1();
    assert Apply(CFG, S1(), Send(0)) == S2();
    assert Apply(CFG, S2(), Enter(0, None)) == S3();
  }

  lemma SecondThird()
    ensures Next(CFG, S3(), S4()) && Next(CFG, S4(), S5()) && Next(CFG, S5(), S6())
  {
    assert TT.FirstFree(S3().tab.wait, 1, 4) == 1;
    assert TT.Scan(S3().tab.wait, 0) == Some(1);
    assert Apply(CFG, S3(), Call(2)) == S4();
    assert Apply(CFG, S4(), Send(2)) == S5();
    assert Apply(CFG, S5(), Enter(2, None)) == S6();
  }

  lemma LastThird()
    ensures Next(CFG, S6(), S7()) && Next(CFG, S7(), S8()) && Next(CFG, S8(), S9())
  {
    assert TT.FirstFree(S6().tab.wait, 2, 4) == 2;
    assert TT.FirstFree(S6().tab.wait, 1, 4) == 2;
    assert TT.Scan(S6().tab.wait, 0) == Some(2);
    assert Apply(CFG, S6(), Call(1)) == S7();
    assert Apply(CFG, S7(), Answer(Msg(0, 0))) == S8();
    assert Apply(CFG, S8(), Receive(0, Msg(0, 0))) == S9();
  }

  lemma HandedToMuxer()
    ensures HandOut(CFG, S9(), Msg(0, 0)) == S9Handed()
  {
    var q: seq<nat> := [1, 2, 0];
    assert Without(q[2..], 0) == [];
    assert Without(q[1..], 0) == [2];
    assert Without(q, 0) == [1, 2];
  }

  /** S9 with the reply handed out. */
  function S9Handed(): State {
    S9().(queue := [1, 2], th := S9().th[0 := Thread(Holding(Msg(0, 0)), 0, 0, Some(Msg(0, 0)))])
  }

  lemma LeavesForOne()
    ensures Elect(S9Handed()) == S9Handed().(muxer := Some(1))
    ensures Leave(S9Handed().(muxer := Some(1)), 0, None, Some(Msg(0, 0))) == S10()
  {}

  lemma LastStep()
    ensures Next(CFG, S9(), S10())
  {
    HandedToMuxer();
    LeavesForOne();
    assert Signalled(S9(), None);
    assert Apply(CFG, S9(), Dispatch(0, None)) == AfterHandOut(S9Handed(), 0, None);
    assert AfterHandOut(S9Handed(), 0, None) == S10();
  }

  lemma StartIsInitial()
    ensures Init(CFG, S0())
  {
    assert |S0().tab.wait| == TT.Pow2(2);
    NoneOccupied(S0().tab.wait);
  }

  lemma StrandedState()
    ensures var s := FailSend(S10(), 1, None);
            && |s.th| == 3 && s.muxer == Some(1) && s.th[1].pc == Idle && s.th[2].pc == Asleep && s.th[2].p.None?
            && forall step :: Enabled(s, step) ==> Fresh(step) || step.Answer?
  {
    var s1 := S10().(queue := Without(S10().queue, 1), failed := true);
    var s := FailSend(S10(), 1, None);
    assert s.th[0] == s1.th[0] && s.th[2] == s1.th[2];
  }

  // ---------- what is reached ----------

  ghost predicate Reachable(cfg: Config, s: State) {
    exists run: seq<State> :: IsRun(cfg, run) && run[|run| - 1] == s
  }

  lemma InitReachable(cfg: Config, s: State)
    requires Init(cfg, s)
    ensures Reachable(cfg, s)
  {
    assert IsRun(cfg, [s]) && [s][|[s]| - 1] == s;
  }

  lemma NextReachable(cfg: Config, s: State, s': State)
    requires Reachable(cfg, s) && Next(cfg, s, s')
    ensures Reachable(cfg, s')
  {
    var run: seq<State> :| IsRun(cfg, run) && run[|run| - 1] == s;
    var longer := run + [s'];
    forall i | 0 <= i < |longer| - 1 ensures NextAt(cfg, longer, i) {
      if i < |run| - 1 {
        assert NextAt(cfg, run, i);
        assert longer[i] == run[i] && longer[i + 1] == run[i + 1];
      }
    }
    assert IsRun(cfg, longer) && longer[|longer| - 1] == s';
  }

  lemma S6Reachable()
    ensures Reachable(CFG, S6())
  {
    StartIsInitial();
    InitReachable(CFG, S0());
    FirstThird();
    SecondThird();
    NextReachable(CFG, S0(), S1());
    NextReachable(CFG, S1(), S2());
    NextReachable(CFG, S2(), S3());
    NextReachable(CFG, S3(), S4());
    NextReachable(CFG, S4(), S5());
    NextReachable(CFG, S5(), S6());
  }

  lemma S10Reachable()
    ensures Reachable(CFG, S10())
  {
    S6Reachable();
    LastThird();
    NextReachable(CFG, S6(), S7());
    NextReachable(CFG, S7(), S8());
    NextReachable(CFG, S8(), S9());
    LastStep();
    NextReachable(CFG, S9(), S10());
  }

  /** The send failure that is kept out of the transition system: in a reachable state thread 1 has
      been elected muxer before its own send fails; it leaves, and thread 2 sleeps behind a muxer that
      is gone. No step of any thread but a new call or a spurious wake-up is left. */
  lemma SendFailureStrands()
    ensures Reachable(CFG, S10()) && Enabled(S10(), Send(1))
    ensures var s := FailSend(S10(), 1, None);
            && |s.th| == 3 && s.muxer == Some(1) && s.th[1].pc == Idle && s.th[2].pc == Asleep && s.th[2].p.None?
            && forall step :: Enabled(s, step) ==> Fresh(step) || step.Answer?
  {
    S10Reachable();
    StrandedState();
  }

  // ---------- from S6: giving up on somebody else's reply ----------

  /** The server has answered thread 2, which sleeps; thread 0 is muxer and unanswered. */
  function U0(): State {
    At([Tx(Receiving, 0), IDLE, Tx(Asleep, 1)], [Some(0), Some(2), None, None], [2, 0], Some(0),
       {Msg(0, 0)}, {Msg(1, 1)}, 2)
  }

  /** A state after thread 0 gave up on that answer: thread 1 has the call 2 and the tag 0. */
  function Late(pc1: Pc, p1: Option<Msg>, pc2: Pc, queue: seq<nat>, asked: set<Msg>, answered: set<Msg>): State {
    State([IDLE, Thread(pc1, 0, 2, p1), Tx(pc2, 1)],
          TT.Table([Some(1), Some(2), None, None], 2, 0), queue, Some(2), asked, answered,
          false, true, false, 3, [Ret(0, None)])
  }

  function U1(): State {
    State([IDLE, IDLE, Tx(Woken, 1)], TT.Table([None, Some(2), None, None], 1, 0), [2], Some(2), {Msg(0, 0)}, {},
          false, true, false, 2, [Ret(0, None)])
  }

  function U2(): State { Late(Sending, None, Woken, [1, 2], {Msg(0, 0)}, {}) }

  function U3(): State { Late(Ready, None, Woken, [1, 2], {Msg(0, 0), Msg(0, 2)}, {}) }

  function U4(): State { Late(Ready, None, Receiving, [1, 2], {Msg(0, 0), Msg(0, 2)}, {}) }

  function U5(): State { Late(Ready, None, Receiving, [1, 2], {Msg(0, 2)}, {Msg(0, 0)}) }

  function U6(): State { Late(Ready, None, Holding(Msg(0, 0)), [1, 2], {Msg(0, 2)}, {}) }

  function U7(): State { Late(Ready, Some(Msg(0, 0)), Receiving, [2], {Msg(0, 2)}, {}) }

  /** Thread 1 has returned with the reply to call 0. */
  function Served(pc2: Pc, asked: set<Msg>, answered: set<Msg>): State {
    State([IDLE, Thread(Idle, 0, 2, Some(Msg(0, 0))), Tx(pc2, 1)],
          TT.Table([None, Some(2), None, None], 1, 0), [2], Some(2), asked, answered,
          false, true, false, 3, [Ret(0, None), Ret(2, Some(Msg(0, 0)))])
  }

  function U8(): State { Served(Receiving, {Msg(0, 2)}, {}) }

  function U9(): State { Served(Receiving, {}, {Msg(0, 2)}) }

  function U10(): State { Served(Holding(Msg(0, 2)), {}, {}) }

  function U11(): State { Served(Receiving, {}, {}) }

  lemma AnswerToSleeper()
    ensures Next(CFG, S6(), U0()) && CanGiveUp(U0(), 0, Msg(1, 1), None)
  {
    assert Apply(CFG, S6(), Answer(Msg(1, 1))) == U0();
  }

  lemma GivesUp()
    ensures GiveUpOn(U0(), 0, Msg(1, 1), None) == U1()
  {
    var q: seq<nat> := [2, 0];
    assert Without(q[1..], 0) == [];
    assert Without(q, 0) == [2];
  }

  lemma TagAgain()
    ensures Next(CFG, U1(), U2()) && Next(CFG, U2(), U3()) && Next(CFG, U3(), U4()) && Next(CFG, U4(), U5())
  {
    assert TT.Scan(U1().tab.wait, 0) == Some(0);
    assert Apply(CFG, U1(), Call(1)) == U2();
    assert Apply(CFG, U2(), Send(1)) == U3();
    assert Apply(CFG, U3(), Enter(2, None)) == U4();
    assert Apply(CFG, U4(), Answer(Msg(0, 0))) == U5();
  }

  lemma Received()
    ensures Next(CFG, U5(), U6())
  {
    assert Apply(CFG, U5(), Receive(2, Msg(0, 0))) == U6();
  }

  lemma HandedToNewcomer()
    ensures Next(CFG, U6(), U7())
  {
    HandsToOne();
    assert Signalled(U6(), None);
    assert Apply(CFG, U6(), Dispatch(2, None)) == AfterHandOut(U6Handed(), 2, None);
    assert AfterHandOut(U6Handed(), 2, None) == U7();
  }

  /** U6 with the reply handed out. */
  function U6Handed(): State { Late(Ready, Some(Msg(0, 0)), Holding(Msg(0, 0)), [2], {Msg(0, 2)}, {}) }

  lemma HandsToOne()
    ensures HandOut(CFG, U6(), Msg(0, 0)) == U6Handed()
  {
    var q: seq<nat> := [1, 2];
    assert Without(q, 1) == [2];
  }

  lemma Misrouted()
    ensures Next(CFG, U7(), U8())
  {
    assert Apply(CFG, U7(), Enter(1, None)) == U8();
  }

  lemma Dropped()
    ensures Next(CFG, U8(), U9()) && Next(CFG, U9(), U10()) && Next(CFG, U10(), U11())
  {
    assert Apply(CFG, U8(), Answer(Msg(0, 2))) == U9();
    assert Apply(CFG, U9(), Receive(2, Msg(0, 2))) == U10();
    assert Apply(CFG, U10(), Dispatch(2, None)) == U11();
  }

  /** Steps lead from s to s'. */
  ghost predicate Leads(cfg: Config, s: State, s': State) {
    exists run: seq<State> :: Steps(cfg, run) && run[0] == s && run[|run| - 1] == s'
  }

  lemma LeadsOn(cfg: Config, s: State, s': State, s'': State)
    requires Leads(cfg, s, s') && Next(cfg, s', s'')
    ensures Leads(cfg, s, s'')
  {
    var run: seq<State> :| Steps(cfg, run) && run[0] == s && run[|run| - 1] == s';
    var longer := run + [s''];
    forall i | 0 <= i < |longer| - 1 ensures NextAt(cfg, longer, i) {
      if i < |run| - 1 {
        assert NextAt(cfg, run, i);
        assert longer[i] == run[i] && longer[i + 1] == run[i + 1];
      }
    }
    assert Steps(cfg, longer) && longer[0] == s && longer[|longer| - 1] == s'';
  }

  lemma LeadsToItself(cfg: Config, s: State)
    ensures Leads(cfg, s, s)
  {
    assert Steps(cfg, [s]) && [s][0] == s && [s][|[s]| - 1] == s;
  }

  lemma ToU8()
    ensures Leads(CFG, U1(), U8())
  {
    LeadsToItself(CFG, U1());
    TagAgain();
    LeadsOn(CFG, U1(), U1(), U2());
    LeadsOn(CFG, U1(), U2(), U3());
    LeadsOn(CFG, U1(), U3(), U4());
    LeadsOn(CFG, U1(), U4(), U5());
    Received();
    LeadsOn(CFG, U1(), U5(), U6());
    HandedToNewcomer();
    LeadsOn(CFG, U1(), U6(), U7());
    Misrouted();
    LeadsOn(CFG, U1(), U7(), U8());
  }

  lemma ToU11()
    ensures Leads(CFG, U1(), U11())
  {
    ToU8();
    Dropped();
    LeadsOn(CFG, U1(), U8(), U9());
    LeadsOn(CFG, U1(), U9(), U10());
    LeadsOn(CFG, U1(), U10(), U11());
  }

  /** The failure that is kept out of the transition system: in a reachable state the muxer 0 receives
      a message that does not unpack and is the reply to thread 2. Thread 0 gives up and frees its tag,
      thread 1 takes it and returns with the reply to thread 0's call, and thread 2 receives for ever. */
  lemma GiveUpMisroutes()
    ensures Reachable(CFG, U0()) && CanGiveUp(U0(), 0, Msg(1, 1), None)
    ensures var s := GiveUpOn(U0(), 0, Msg(1, 1), None);
            && Leads(CFG, s, U8()) && U8().log[1] == Ret(2, Some(Msg(0, 0)))
            && Leads(CFG, s, U11()) && U11().th[2].pc == Receiving && !CanProgress(U11())
  {
    S6Reachable();
    AnswerToSleeper();
    NextReachable(CFG, S6(), U0());
    GivesUp();
    ToU8();
    ToU11();
    Stuck();
  }

  lemma Stuck()
    ensures !CanProgress(U11())
  {
    forall step ensures !(Productive(U11(), step) && Enabled(U11(), step)) {
      assert U11().th[2].pc == Receiving && !U11().eof;
    }
  }
}
