/** What the OpenCode loop ends with, said of the turns alone: when it settles, whether
    the run was interrupted or failed, its last text and what it recorded. */
module OpenCodeMeaning {
  import opened Prelude
  import opened AdapterEvents
  import opened AdapterContract
  import opened AdapterRun
  import opened OpenCodeAdapter
  import OpenCodeAcceptance

  // ----- the history

  ghost predicate InterruptedBy(turns: seq<Turn>, n: nat)
    requires n <= |turns|
  {
    exists i :: 0 <= i < n && turns[i].control == Some(InterruptWorker)
  }

  ghost predicate BusyBy(turns: seq<Turn>, n: nat)
    requires n <= |turns|
  {
    exists i :: 0 <= i < n && turns[i].event == Some(ServerStatus(true))
  }

  /** The grace after an interrupt is over, or the server has been busy and goes idle. */
  ghost predicate EndsAt(turns: seq<Turn>, i: nat)
    requires i < |turns|
  {
    || (InterruptedBy(turns, i + 1) && turns[i].graceExpired)
    || (turns[i].event == Some(ServerIdle) && BusyBy(turns, i))
  }

  /** A server error, unless it reports the message that an interrupt aborted. */
  ghost predicate FailsAt(turns: seq<Turn>, i: nat)
    requires i < |turns|
  {
    || turns[i].event == Some(ServerError(false))
    || (turns[i].event == Some(ServerError(true)) && !InterruptedBy(turns, i + 1))
  }

  ghost predicate FailedBy(turns: seq<Turn>, n: nat)
    requires n <= |turns|
  {
    exists i :: 0 <= i < n && FailsAt(turns, i)
  }

  ghost predicate IsOwnText(turn: Turn) {
    turn.event.Some? && turn.event.value.PartUpdated? && turn.event.value.part.TextPart?
    && !turn.event.value.part.synthetic && turn.event.value.part.text.Some?
  }

  /** The last text that is not synthetic. */
  ghost function LastText(turns: seq<Turn>, n: nat): string
    requires n <= |turns|
  {
    if n == 0 then ""
    else if IsOwnText(turns[n - 1]) then turns[n - 1].event.value.part.text.value
    else LastText(turns, n - 1)
  }

  /** The first interrupt is recorded. */
  ghost function RecordedControl(turns: seq<Turn>, i: nat): seq<Event>
    requires i < |turns|
  {
    if turns[i].control == Some(InterruptWorker) && !InterruptedBy(turns, i) then [BARE.(typ := OpenCodeInterrupt)] else []
  }

  /** Failures are recorded, and every step boundary, finished tool and ended own text. */
  ghost function RecordedEvent(turns: seq<Turn>, i: nat): seq<Event>
    requires i < |turns|
  {
    if FailsAt(turns, i) then [BARE.(typ := ErrorType)]
    else if turns[i].event == Some(PartUpdated(StepStartPart)) then [BARE.(typ := StepStart)]
    else if turns[i].event == Some(PartUpdated(StepFinishPart)) then [BARE.(typ := StepFinish)]
    else if turns[i].event == Some(PartUpdated(ToolPart(true))) then [BARE.(typ := ToolUse)]
    else if IsOwnText(turns[i]) && turns[i].event.value.part.ended then [BARE.(typ := Text)]
    else []
  }

  ghost function Recorded(turns: seq<Turn>, n: nat): seq<Event>
    requires n <= |turns|
  {
    if n == 0 then [] else Recorded(turns, n - 1) + RecordedControl(turns, n - 1) + RecordedEvent(turns, n - 1)
  }

  ghost function StateBefore(turns: seq<Turn>, n: nat): LoopState
    requires n <= |turns|
  {
    LoopState(InterruptedBy(turns, n), FailedBy(turns, n), BusyBy(turns, n), LastText(turns, n), Recorded(turns, n))
  }

  /** The state in which the loop ends in turn `n`: its control has been taken, its event has not. */
  ghost function StateAtEnd(turns: seq<Turn>, n: nat): LoopState
    requires n < |turns|
  {
    StateBefore(turns, n).(interrupted := InterruptedBy(turns, n + 1),
                           emitted := Recorded(turns, n) + RecordedControl(turns, n))
  }

  // ----- one turn

  lemma InterruptedNext(turns: seq<Turn>, n: nat)
    requires n < |turns|
    ensures InterruptedBy(turns, n + 1) <==> InterruptedBy(turns, n) || turns[n].control == Some(InterruptWorker)
  {
  }

  lemma BusyNext(turns: seq<Turn>, n: nat)
    requires n < |turns|
    ensures BusyBy(turns, n + 1) <==> BusyBy(turns, n) || turns[n].event == Some(ServerStatus(true))
  {
  }

  lemma FailedNext(turns: seq<Turn>, n: nat)
    requires n < |turns|
    ensures FailedBy(turns, n + 1) <==> FailedBy(turns, n) || FailsAt(turns, n)
  {
  }

  lemma ControlTaken(turns: seq<Turn>, n: nat)
    requires n < |turns|
    ensures OnControl(StateBefore(turns, n), turns[n].control) == StateAtEnd(turns, n)
  {
    InterruptedNext(turns, n);
    assert Recorded(turns, n) + [] == Recorded(turns, n);
  }

  lemma BreaksExactly(turns: seq<Turn>, n: nat)
    requires n < |turns|
    ensures Breaks(StateAtEnd(turns, n), turns[n]) <==> EndsAt(turns, n)
  {
  }

  lemma EventTaken(turns: seq<Turn>, n: nat)
    requires n < |turns|
    ensures (if turns[n].event.Some? then OnEvent(StateAtEnd(turns, n), turns[n].event.value) else StateAtEnd(turns, n))
         == StateBefore(turns, n + 1)
  {
    InterruptedNext(turns, n);
    BusyNext(turns, n);
    FailedNext(turns, n);
    var before := Recorded(turns, n) + RecordedControl(turns, n);
    assert before + [] == before;
  }

  lemma TurnTaken(turns: seq<Turn>, n: nat)
    requires n < |turns|
    ensures LoopFrom(StateBefore(turns, n), turns[n..]) ==
      if EndsAt(turns, n) then (StateAtEnd(turns, n), true) else LoopFrom(StateBefore(turns, n + 1), turns[n + 1..])
  {
    ControlTaken(turns, n);
    BreaksExactly(turns, n);
    EventTaken(turns, n);
    assert turns[n..][0] == turns[n] && turns[n..][1..] == turns[n + 1..];
  }

  ghost predicate NoneEnds(turns: seq<Turn>, n: nat)
    requires n <= |turns|
  {
    forall i :: 0 <= i < n ==> !EndsAt(turns, i)
  }

  lemma {:induction false} TurnsTaken(turns: seq<Turn>, n: nat)
    requires n <= |turns| && NoneEnds(turns, n)
    ensures LoopFrom(LOOP_START, turns) == LoopFrom(StateBefore(turns, n), turns[n..])
  {
    if n == 0 {
      assert turns[0..] == turns;
    } else {
      TurnsTaken(turns, n - 1);
      TurnTaken(turns, n - 1);
    }
  }

  // ----- the whole loop

  /** The loop settles in the first turn that ends it, and then was interrupted exactly when
      some turn so far brought an interrupt, and failed exactly when an earlier one
      brought an error that no interrupt explains; its text is the last own text. */
  lemma LoopSettlesExactly(turns: seq<Turn>, n: nat)
    requires n < |turns| && EndsAt(turns, n) && NoneEnds(turns, n)
    ensures LoopFrom(LOOP_START, turns) == (StateAtEnd(turns, n), true)
  {
    TurnsTaken(turns, n);
    TurnTaken(turns, n);
  }

  /** It does not settle exactly when no turn ends it. */
  lemma LoopSettlesOnlyThen(turns: seq<Turn>)
    ensures LoopFrom(LOOP_START, turns).1 <==> !NoneEnds(turns, |turns|)
  {
    if NoneEnds(turns, |turns|) {
      TurnsTaken(turns, |turns|);
      assert turns[|turns|..] == [];
    } else {
      var n := FirstEnd(turns, |turns|);
      LoopSettlesExactly(turns, n);
    }
  }

  lemma {:induction false} FirstEnd(turns: seq<Turn>, m: nat) returns (n: nat)
    requires m <= |turns| && !NoneEnds(turns, m)
    ensures n < m && EndsAt(turns, n) && NoneEnds(turns, n)
  {
    if NoneEnds(turns, m - 1) {
      n := m - 1;
    } else {
      n := FirstEnd(turns, m - 1);
    }
  }

  /** A run of the adapter is accepted exactly when it was not both interrupted and failed
      by then, its totals are u64 and, if it completed, its last own text has a summary. */
  lemma RunIsAcceptedByItsTurns(launch: Launch, turns: seq<Turn>, n: nat, messages: seq<Tokens>, summarize: string -> string,
                                expectation: Expectation)
    requires LaunchedFor(launch, expectation) && n < |turns| && EndsAt(turns, n) && NoneEnds(turns, n)
    ensures var interrupted, failed, summary := InterruptedBy(turns, n + 1), FailedBy(turns, n), summarize(LastText(turns, n));
      var trace := TraceOf(launch, LoopFrom(LOOP_START, turns).0, InputTotal(messages), OutputTotal(messages), summary);
      ValidateTrace(OpenCode, trace, expectation).Ok? <==>
        && !(interrupted && failed) && (!interrupted && !failed ==> !IsBlank(summary))
        && FitsU64(InputTotal(messages)) && FitsU64(OutputTotal(messages))
  {
    LoopSettlesExactly(turns, n);
    OpenCodeAcceptance.EveryRunIsAcceptedExactly(launch, turns, messages, summarize, expectation);
  }

  // ----- totals

  ghost function Sum(messages: seq<Tokens>, count: Tokens -> int): int {
    if messages == [] then 0
    else
      var last := messages[|messages| - 1];
      Sum(messages[..|messages| - 1], count) + if last.isAssistant then count(last) else 0
  }

  /** Input is what assistants read, cached or not; output is what they wrote, reasoning included. */
  lemma {:induction false} TotalsAreSums(messages: seq<Tokens>)
    ensures InputTotal(messages)
         == Sum(messages, (m: Tokens) => m.input) + Sum(messages, (m: Tokens) => m.cacheRead)
            + Sum(messages, (m: Tokens) => m.cacheWrite)
    ensures OutputTotal(messages) == Sum(messages, (m: Tokens) => m.output) + Sum(messages, (m: Tokens) => m.reasoning)
  {
    if messages != [] {
      TotalsAreSums(messages[..|messages| - 1]);
    }
  }
}
