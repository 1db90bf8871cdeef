/** The traced unit and its lifecycle (crates/trace-core/src/unit.rs). */
module Units {
  import opened Collections

  datatype UnitState = Born | Marked | InProcess | Held | Quarantined | Reworking | Completed | Shipped | Scrapped
  {
    predicate AcceptsWork() { Born? || Marked? || InProcess? || Reworking? }

    predicate CanTransitionTo(next: UnitState) {
      match this
      case Scrapped => false
      case Born => next.Marked? || next.InProcess? || next.Quarantined? || next.Held? || next.Scrapped?
      case Marked => next.InProcess? || next.Quarantined? || next.Held? || next.Scrapped?
      case InProcess =>
        next.InProcess? || next.Completed? || next.Quarantined? || next.Held? || next.Reworking? || next.Scrapped?
      case Reworking => next.InProcess? || next.Quarantined? || next.Held? || next.Scrapped?
      case Quarantined => next.Reworking? || next.InProcess? || next.Scrapped? || next.Held?
      case Held => next.InProcess? || next.Reworking? || next.Quarantined? || next.Scrapped?
      case Completed => next.Shipped? || next.Quarantined? || next.Reworking? || next.Scrapped?
      case Shipped => next.Quarantined? || next.Scrapped?
    }
  }

  /** The states that each state is entered from. */
  lemma EnteredFrom(state: UnitState, next: UnitState)
    ensures state.CanTransitionTo(next) <==>
      match next
      case Born => false
      case Marked => state.Born?
      case InProcess => state !in {Completed, Shipped, Scrapped}
      case Held => state in {Born, Marked, InProcess, Reworking, Quarantined}
      case Quarantined => state !in {Quarantined, Scrapped}
      case Reworking => state in {InProcess, Quarantined, Held, Completed}
      case Completed => state.InProcess?
      case Shipped => state.Completed?
      case Scrapped => !state.Scrapped?
  {
  }

  datatype TransitionError = RetiredUid(uid: string) | IllegalTransition(from: UnitState, to: UnitState)

  /** What a request to move from `state` to `next` answers; the state changes only on Pass. */
  function Requested(uid: string, state: UnitState, next: UnitState): Outcome<TransitionError> {
    if state.Scrapped? then Fail(RetiredUid(uid))
    else if !state.CanTransitionTo(next) then Fail(IllegalTransition(state, next))
    else Pass
  }

  class Unit {
    const uid: string
    const indexInJob: nat
    var state: UnitState
    var currentOperation: Option<nat>

    constructor (uid: string, indexInJob: nat, state: UnitState)
      ensures this.uid == uid && this.indexInJob == indexInJob
      ensures this.state == state && currentOperation == None
    {
      this.uid, this.indexInJob := uid, indexInJob;
      this.state, currentOperation := state, None;
    }

    method TransitionTo(next: UnitState) returns (res: Outcome<TransitionError>)
      modifies this`state
      ensures res == Requested(uid, old(state), next)
      ensures state == if res.Pass? then next else old(state)
      ensures res == Fail(RetiredUid(uid)) <==> old(state).Scrapped?
      ensures res == Fail(IllegalTransition(old(state), next)) <==>
                !old(state).Scrapped? && !old(state).CanTransitionTo(next)
    {
      if state.Scrapped? {
        return Fail(RetiredUid(uid));
      }
      if !state.CanTransitionTo(next) {
        return Fail(IllegalTransition(state, next));
      }
      state := next;
      res := Pass;
    }
  }

  /** The states a unit passes through when `requests` are made one after another. */
  function StatesAfter(uid: string, state: UnitState, requests: seq<UnitState>): (states: seq<UnitState>)
    ensures |states| == |requests| + 1 && states[0] == state
    decreases requests
  {
    if requests == [] then [state] else
      var next := if Requested(uid, state, requests[0]).Pass? then requests[0] else state;
      [state] + StatesAfter(uid, next, requests[1..])
  }

  /** Whatever is requested of it, a scrapped unit stays scrapped. */
  lemma {:induction false} ScrappedIsForever(uid: string, state: UnitState, requests: seq<UnitState>, i: nat, j: nat)
    requires i <= j <= |requests| && StatesAfter(uid, state, requests)[i].Scrapped?
    ensures StatesAfter(uid, state, requests)[j].Scrapped?
    decreases requests
  {
    if requests != [] && j > 0 {
      var next := StatesAfter(uid, state, requests)[1];
      assert StatesAfter(uid, state, requests)[1..] == StatesAfter(uid, next, requests[1..]);
      ScrappedIsForever(uid, next, requests[1..], if i == 0 then 0 else i - 1, j - 1);
    }
  }

  /** A returned unit reaches a station again only by way of quarantine. */
  lemma {:induction false} ShippedReturnsThroughQuarantine(uid: string, state: UnitState, requests: seq<UnitState>,
                                                           j: nat)
    requires (state.Shipped? || state.Scrapped?) && j <= |requests|
    requires StatesAfter(uid, state, requests)[j].AcceptsWork()
    ensures exists i :: 0 <= i < j && StatesAfter(uid, state, requests)[i].Quarantined?
    decreases requests
  {
    var states := StatesAfter(uid, state, requests);
    var next := states[1];
    assert states[1..] == StatesAfter(uid, next, requests[1..]);
    if next.Quarantined? {
      assert states[1].Quarantined?;
    } else {
      ShippedReturnsThroughQuarantine(uid, next, requests[1..], j - 1);
      var i :| 0 <= i < j - 1 && states[1..][i].Quarantined?;
      assert states[i + 1].Quarantined?;
    }
  }
}
