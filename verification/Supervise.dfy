/**
 Supervising the development stack: interrupts are forwarded, then escalated to
 a forced stop and to a kill when the stack does not end in time.
 */
module Supervise {
  import opened Collections

  /** Milliseconds. */
  const GRACE := 30_000
  const FORCE := 15_000

  datatype Exit = Alive | Exited(success: bool) | WaitFailed

  /** What one turn of the loop reads: the child, the interrupts so far, and the clock at two points. */
  datatype Tick = Tick(exit: Exit, received: nat, checkedAt: int, stampedAt: int)

  datatype Kind = Forwarded | Forced | Killed

  datatype Signal = Signal(kind: Kind, turn: nat, time: int)

  datatype Outcome = StoppedByUser | Finished | StackFailed | WaitError | InvalidProcess

  const MAX_PID := 0x7fff_ffff

  /** When the next escalation is due, if there is one. */
  function Due(escalated: nat): Option<int> {
    match escalated
    case 0 => Some(GRACE)
    case 1 => Some(GRACE + FORCE)
    case _ => None
  }

  /** What one run has seen and sent so far; `sent` lists the signals to the stack's process group. */
  datatype State = State(forwarded: nat, escalated: nat, interruptedAt: Option<int>,
                         sdkWatcher: bool, socketExports: bool, sent: seq<Signal>)

  predicate IsDue(interruptedAt: Option<int>, escalated: nat, now: int) {
    interruptedAt.Some? && Due(escalated).Some? && now - interruptedAt.value >= Due(escalated).value
  }

  /** A forced stop, then a kill, when the stack has not ended in time. */
  function Escalated(pid: nat, s: State, now: int, turn: nat): State {
    if !IsDue(s.interruptedAt, s.escalated, now) then s
    else
      s.(escalated := s.escalated + 1,
         sent := s.sent + if pid > 1 then [Signal(if s.escalated == 0 then Forced else Killed, turn, now)] else [])
  }

  /** New interrupts stop the watchers and reach the stack as one more interrupt. */
  function Interrupted(pid: nat, s: State, tick: Tick, turn: nat): State {
    if tick.received <= s.forwarded then s
    else
      State(tick.received, s.escalated,
            if s.interruptedAt.None? then Some(tick.stampedAt) else s.interruptedAt, false, false,
            s.sent + if pid > 1 then [Signal(Forwarded, turn, tick.stampedAt)] else [])
  }

  // ----- The signals of an orderly escalation -----

  /** The signals that are not plain forwards, in order. */
  function Escalations(sent: seq<Signal>): seq<Signal> {
    if sent == [] then []
    else
      var last := sent[|sent| - 1];
      Escalations(sent[..|sent| - 1]) + if last.kind != Forwarded then [last] else []
  }

  /**
   The first signal forwards the interrupt, at `since`; the escalations are one
   forced stop after the grace period and then, in a later turn, one kill after
   the force period.
   */
  ghost predicate Orderly(sent: seq<Signal>, since: int, escalated: nat, turn: nat) {
    var steps := Escalations(sent);
    && |steps| == escalated <= 2
    && (escalated > 0 ==> steps[0].kind == Forced && steps[0].time - since >= GRACE)
    && (escalated > 1 ==>
        steps[1].kind == Killed && steps[1].time - since >= GRACE + FORCE && steps[0].turn < steps[1].turn)
    && (forall i :: 0 <= i < |sent| ==> sent[i].turn < turn)
    && (sent != [] ==> sent[0].kind == Forwarded && sent[0].time == since)
  }

  /** Nothing is sent before the first interrupt; from then on the watchers are gone and the signals orderly. */
  ghost predicate Consistent(pid: nat, s: State, turn: nat) {
    && s.escalated <= 2
    && (s.interruptedAt.Some? <==> s.forwarded > 0)
    && (s.interruptedAt.None? ==> s.escalated == 0 && s.sent == [])
    && (s.interruptedAt.Some? ==> !s.sdkWatcher && !s.socketExports)
    && (s.interruptedAt.Some? ==> Orderly(s.sent, s.interruptedAt.value, if pid > 1 then s.escalated else 0, turn))
    && (pid > 1 ==> (s.sent != [] <==> s.interruptedAt.Some?))
  }

  lemma OrderlyLater(sent: seq<Signal>, since: int, escalated: nat, turn: nat)
    requires Orderly(sent, since, escalated, turn)
    ensures Orderly(sent, since, escalated, turn + 1)
  {
  }

  lemma {:induction false} EscalationsAreSent(sent: seq<Signal>)
    ensures forall s :: s in Escalations(sent) <==> s in sent && s.kind != Forwarded
  {
    if sent != [] {
      var n := |sent| - 1;
      EscalationsAreSent(sent[..n]);
      assert sent == sent[..n] + [sent[n]];
    }
  }

  lemma EscalationAdded(sent: seq<Signal>, signal: Signal, since: int, escalated: nat, turn: nat)
    requires 0 < escalated <= 2 && turn > 0 && sent != [] && Orderly(sent, since, escalated - 1, turn - 1)
    requires signal.turn == turn - 1 && signal.kind == (if escalated == 1 then Forced else Killed)
    requires signal.time - since >= Due(escalated - 1).value
    ensures Orderly(sent + [signal], since, escalated, turn)
  {
    assert (sent + [signal])[..|sent|] == sent;
    EscalationsAreSent(sent);
    if escalated == 2 {
      assert Escalations(sent)[0] in sent;
    }
  }

  lemma EscalationKeeps(pid: nat, s: State, now: int, turn: nat)
    requires Consistent(pid, s, turn)
    ensures Consistent(pid, Escalated(pid, s, now, turn), turn + 1)
  {
    if IsDue(s.interruptedAt, s.escalated, now) && pid > 1 {
      var signal := Signal(if s.escalated == 0 then Forced else Killed, turn, now);
      EscalationAdded(s.sent, signal, s.interruptedAt.value, s.escalated + 1, turn + 1);
    } else if s.interruptedAt.Some? {
      assert s.sent + [] == s.sent;
      OrderlyLater(s.sent, s.interruptedAt.value, if pid > 1 then s.escalated else 0, turn);
    }
  }

  lemma ForwardAdded(sent: seq<Signal>, signal: Signal, since: int, escalated: nat, turn: nat)
    requires Orderly(sent, since, escalated, turn) && signal.kind == Forwarded && signal.turn < turn
    requires sent == [] ==> signal.time == since
    ensures Orderly(sent + [signal], since, escalated, turn)
  {
    assert (sent + [signal])[..|sent|] == sent;
  }

  lemma InterruptKeeps(pid: nat, s: State, tick: Tick, turn: nat)
    requires Consistent(pid, s, turn + 1)
    ensures Consistent(pid, Interrupted(pid, s, tick, turn), turn + 1)
  {
    var since := if s.interruptedAt.None? then tick.stampedAt else s.interruptedAt.value;
    if tick.received > s.forwarded && pid > 1 {
      ForwardAdded(s.sent, Signal(Forwarded, turn, tick.stampedAt), since, s.escalated, turn + 1);
    } else {
      assert s.sent + [] == s.sent;
    }
  }

  // ----- One turn -----

  /** The state after a turn in which the child is alive. */
  function AfterTurn(pid: nat, s: State, tick: Tick, turn: nat): State {
    Interrupted(pid, Escalated(pid, s, tick.checkedAt, turn), tick, turn)
  }

  /** A forced stop is due thirty seconds after the first interrupt, a kill fifteen seconds later. */
  predicate EscalationDue(s: State, now: int) {
    && s.interruptedAt.Some?
    && ((s.escalated == 0 && now >= s.interruptedAt.value + 30_000)
        || (s.escalated == 1 && now >= s.interruptedAt.value + 45_000))
  }

  /**
   A turn sends exactly the escalation that is due and then one interrupt if the
   user interrupted again; it counts both, and remembers the first interrupt.
   */
  lemma TurnSends(pid: nat, s: State, tick: Tick, turn: nat)
    requires pid > 1
    ensures var next, again := AfterTurn(pid, s, tick, turn), tick.received > s.forwarded;
            && |next.sent| == |s.sent| + (if EscalationDue(s, tick.checkedAt) then 1 else 0) + (if again then 1 else 0)
            && next.sent[..|s.sent|] == s.sent
            && (EscalationDue(s, tick.checkedAt) ==>
                  next.sent[|s.sent|] == Signal(if s.escalated == 0 then Forced else Killed, turn, tick.checkedAt))
            && (again ==> next.sent[|next.sent| - 1] == Signal(Forwarded, turn, tick.stampedAt))
            && next.escalated == s.escalated + (if EscalationDue(s, tick.checkedAt) then 1 else 0)
            && next.forwarded == (if again then tick.received else s.forwarded)
            && next.interruptedAt
                == (if again && s.interruptedAt == None then Some(tick.stampedAt) else s.interruptedAt)
            && (again ==> !next.sdkWatcher && !next.socketExports)
            && (!again ==> next.sdkWatcher == s.sdkWatcher && next.socketExports == s.socketExports)
  {
    var middle := Escalated(pid, s, tick.checkedAt, turn);
    assert IsDue(s.interruptedAt, s.escalated, tick.checkedAt) <==> EscalationDue(s, tick.checkedAt);
    assert middle.sent[..|s.sent|] == s.sent;
  }

  /** Consistent now and in every later turn. */
  ghost predicate Kept(pid: nat, s: State, turn: nat) {
    forall later: nat :: turn <= later ==> Consistent(pid, s, later)
  }

  lemma ConsistentLater(pid: nat, s: State, turn: nat)
    requires Consistent(pid, s, turn)
    ensures Kept(pid, s, turn)
  {
    forall later: nat | turn <= later ensures Consistent(pid, s, later) {
    }
  }

  lemma TurnKeeps(pid: nat, s: State, tick: Tick, turn: nat)
    requires Kept(pid, s, turn)
    ensures Kept(pid, s, turn + 1)
    ensures Kept(pid, AfterTurn(pid, s, tick, turn), turn + 1)
  {
    EscalationKeeps(pid, s, tick.checkedAt, turn);
    InterruptKeeps(pid, Escalated(pid, s, tick.checkedAt, turn), tick, turn);
    ConsistentLater(pid, AfterTurn(pid, s, tick, turn), turn + 1);
  }

  class Supervisor {
    const pid: nat
    var turn: nat
    var forwarded: nat
    var escalated: nat
    var interruptedAt: Option<int>
    var sdkWatcher: bool
    var socketExports: bool
    var sent: seq<Signal>
    var stopped: bool

    constructor (pid: nat, sdkWatcher: bool, socketExports: bool)
      ensures Valid() && this.pid == pid && turn == 0 && !stopped
      ensures View() == State(0, 0, None, sdkWatcher, socketExports, [])
    {
      this.pid := pid;
      turn, forwarded, escalated, interruptedAt, stopped, sent := 0, 0, 0, None, false, [];
      this.sdkWatcher, this.socketExports := sdkWatcher, socketExports;
    }

    function View(): State
      reads this
    {
      State(forwarded, escalated, interruptedAt, sdkWatcher, socketExports, sent)
    }

    ghost predicate Valid()
      reads this
    {
      Kept(pid, View(), turn)
    }

    /** One turn of the loop: look at the child, escalate if it is time, then forward new interrupts. */
    method Turn(tick: Tick) returns (outcome: Option<Outcome>)
      requires Valid()
      modifies this
      ensures Valid() && turn == old(turn) + 1
      ensures tick.exit.Exited? && old(forwarded) > 0 ==> outcome == Some(StoppedByUser) && stopped
      ensures tick.exit.Exited? && old(forwarded) == 0 ==>
                outcome == Some(if tick.exit.success then Finished else StackFailed)
      ensures stopped <==> old(stopped) || outcome == Some(StoppedByUser)
      ensures tick.exit.WaitFailed? <==> outcome == Some(WaitError)
      ensures tick.exit.Alive? && pid <= MAX_PID ==> outcome.None?
      ensures tick.exit.Alive? && outcome.Some? ==> outcome.value.InvalidProcess?
      ensures outcome.Some? ==> View() == old(View())
      ensures outcome.None? ==>
                View() == AfterTurn(pid, old(View()), tick, old(turn))
      ensures outcome.None? && pid > 1 && tick.received > old(forwarded) ==>
                |sent| > 0 && sent[|sent| - 1] == Signal(Forwarded, old(turn), tick.stampedAt)
    {
      TurnKeeps(pid, View(), tick, turn);
      turn := turn + 1;
      if tick.exit.WaitFailed? {
        return Some(WaitError);
      }
      if tick.exit.Exited? {
        if forwarded > 0 {
          stopped := true;
          return Some(StoppedByUser);
        }
        return Some(if tick.exit.success then Finished else StackFailed);
      }
      if pid > MAX_PID && (IsDue(interruptedAt, escalated, tick.checkedAt) || tick.received > forwarded) {
        return Some(InvalidProcess);
      }
      Escalate(tick.checkedAt);
      Forward(tick);
      return None;
    }

    method Escalate(now: int)
      requires turn > 0
      modifies `escalated, `sent
      ensures View() == Escalated(pid, old(View()), now, turn - 1)
    {
      if IsDue(interruptedAt, escalated, now) {
        escalated := escalated + 1;
        if pid > 1 {
          sent := sent + [Signal(if escalated == 1 then Forced else Killed, turn - 1, now)];
        }
      }
    }

    method Forward(tick: Tick)
      requires turn > 0
      modifies `forwarded, `interruptedAt, `sdkWatcher, `socketExports, `sent
      ensures View() == Interrupted(pid, old(View()), tick, turn - 1)
    {
      if tick.received > forwarded {
        if interruptedAt.None? {
          interruptedAt := Some(tick.stampedAt);
        }
        sdkWatcher, socketExports := false, false;
        if pid > 1 {
          sent := sent + [Signal(Forwarded, turn - 1, tick.stampedAt)];
        }
        forwarded := tick.received;
      }
    }
  }

  // ----- Whole runs -----

  /** A killed child is seen to have exited at the next look. */
  function Observed(tick: Tick, killed: bool): Tick {
    if killed && tick.exit.Alive? then tick.(exit := Exited(false)) else tick
  }

  /** Only the exit of a killed child that still looked alive is replaced. */
  lemma ObservedOnly(tick: Tick, killed: bool)
    ensures var seen := Observed(tick, killed);
            && (seen.exit.Alive? <==> tick.exit.Alive? && !killed)
            && (!killed || !tick.exit.Alive? ==> seen == tick)
            && seen.received == tick.received && seen.checkedAt == tick.checkedAt && seen.stampedAt == tick.stampedAt
  {
  }

  lemma Phases(pid: nat, s: State, turn: nat)
    requires Kept(pid, s, turn)
    ensures s.escalated <= 2 && (s.interruptedAt.Some? <==> s.forwarded > 0)
              && (s.interruptedAt.None? ==> s.escalated == 0)
    ensures s.interruptedAt.Some? ==> !s.sdkWatcher && !s.socketExports
  {
    assert Consistent(pid, s, turn);
  }

  function TimeLeft(since: int, escalated: nat, now: int): nat
    requires escalated < 2
  {
    var due := since + Due(escalated).value;
    if now < due then due - now else 0
  }

  /**
   Once interrupted, the stack is gone in bounded time: with an advancing clock
   and a fatal kill the loop ends, whatever else the child does. `arrives` is a
   turn by which the user has interrupted.
   */
  method Run(pid: nat, sdkWatcher: bool, socketExports: bool, ticks: nat -> Tick, arrives: nat)
    returns (outcome: Outcome, supervisor: Supervisor)
    requires 1 < pid <= MAX_PID
    requires forall k: nat :: ticks(k).checkedAt < ticks(k + 1).checkedAt
    requires ticks(arrives).received > 0
    ensures fresh(supervisor)
    ensures supervisor.Valid()
    ensures outcome == WaitError ==> exists k: nat :: ticks(k).exit == WaitFailed
    ensures outcome != InvalidProcess
    ensures outcome == StoppedByUser <==> supervisor.forwarded > 0 && outcome != WaitError
    ensures outcome == StoppedByUser ==> supervisor.stopped
  {
    supervisor := new Supervisor(pid, sdkWatcher, socketExports);
    while true
      invariant fresh(supervisor) && supervisor.Valid() && supervisor.pid == pid
      invariant supervisor.interruptedAt.None? ==> supervisor.turn <= arrives
      decreases if supervisor.interruptedAt.None? then 3 else 2 - supervisor.escalated,
                if supervisor.interruptedAt.None? then arrives - supervisor.turn
                else if supervisor.escalated < 2
                then TimeLeft(supervisor.interruptedAt.value, supervisor.escalated, ticks(supervisor.turn).checkedAt)
                else 0
    {
      Phases(pid, supervisor.View(), supervisor.turn);
      var killed := supervisor.escalated == 2;
      var tick := Observed(ticks(supervisor.turn), killed);
      assert ticks(supervisor.turn).checkedAt < ticks(supervisor.turn + 1).checkedAt;
      var result := supervisor.Turn(tick);
      if result.Some? {
        return result.value, supervisor;
      }
    }
  }

  lemma {:induction false} EscalationCounts(sent: seq<Signal>, signal: Signal)
    requires signal.kind != Forwarded
    ensures multiset(Escalations(sent))[signal] == multiset(sent)[signal]
  {
    if sent != [] {
      var n := |sent| - 1;
      EscalationCounts(sent[..n], signal);
      assert sent == sent[..n] + [sent[n]];
    }
  }

  /** A kill is sent at most once, after the full delay, and in a later turn than the forced stop. */
  lemma KillIsLastResort(sent: seq<Signal>, since: int, escalated: nat, turn: nat, kill: Signal)
    requires Orderly(sent, since, escalated, turn) && kill in sent && kill.kind == Killed
    ensures kill.time - since >= GRACE + FORCE
    ensures exists forced :: forced in sent && forced.kind == Forced && forced.turn < kill.turn
              && forced.time - since >= GRACE
    ensures multiset(sent)[kill] == 1 && forall s :: s in sent && s.kind == Killed ==> s == kill
  {
    var steps := Escalations(sent);
    EscalationsAreSent(sent);
    assert steps[0] in sent && steps[1] == kill;
    EscalationCounts(sent, kill);
    assert steps == [steps[0], steps[1]];
  }

  /** In every turn: a kill was sent at most once, after the full delay, in a later turn than the forced stop. */
  lemma KillsAreLastResorts(pid: nat, s: State, turn: nat, kill: Signal)
    requires Kept(pid, s, turn) && kill in s.sent && kill.kind == Killed
    ensures s.interruptedAt.Some?
    ensures var since := s.interruptedAt.value;
            && s.sent[0].kind == Forwarded && s.sent[0].time == since
            && kill.time - since >= GRACE + FORCE
            && (exists forced ::
                  forced in s.sent && forced.kind == Forced && forced.turn < kill.turn && forced.time - since >= GRACE)
            && multiset(s.sent)[kill] == 1 && forall other :: other in s.sent && other.kind == Killed ==> other == kill
  {
    assert Consistent(pid, s, turn);
    KillIsLastResort(s.sent, s.interruptedAt.value, if pid > 1 then s.escalated else 0, turn, kill);
  }
}
