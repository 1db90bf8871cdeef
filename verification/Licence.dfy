/**
 Licence expiry on a box whose clock may be wound back (crates/trace-license/src/clockguard.rs and
 entitlement.rs). Instants are whole nanoseconds.
 */
module Licence {
  import opened Collections

  const SECOND := 1_000_000_000
  const DAY := 86_400 * SECOND
  const DEFAULT_TOLERANCE_SECS := 300

  datatype ClockVerdict = Trusted | WoundBack(bySeconds: int)

  datatype Entitlement = Entitlement(notBefore: int, expiresAt: int, graceDays: nat)

  datatype Enforcement = Full | Grace | Restricted

  function GraceEnd(ent: Entitlement): int {
    ent.expiresAt + ent.graceDays * DAY
  }

  function Evaluate(ent: Entitlement, now: int): Enforcement {
    if now < ent.notBefore then Restricted
    else if now <= ent.expiresAt then Full
    else if now <= GraceEnd(ent) then Grace
    else Restricted
  }

  /** The instant that a guard at `mark` answers a reported time with. */
  function Used(mark: int, toleranceSecs: int, reported: int): int {
    if reported >= mark || (mark - reported) / SECOND <= toleranceSecs then reported else mark
  }

  function Later(a: int, b: int): int {
    if a < b then b else a
  }

  class ClockGuard {
    var highWater: int
    var toleranceSecs: int

    constructor (seed: int)
      ensures highWater == seed && toleranceSecs == 300
    {
      highWater := seed;
      toleranceSecs := DEFAULT_TOLERANCE_SECS;
    }

    /**
     Observes the clock: the mark only ever rises, and the answer never lies above it. A clock that is back
     by the tolerance in whole seconds is believed, any further and the mark is answered instead.
     */
    method Observe(reported: int) returns (used: int, verdict: ClockVerdict)
      modifies `highWater
      ensures highWater == if reported > old(highWater) then reported else old(highWater)
      ensures highWater == Later(old(highWater), reported)
      ensures verdict.Trusted? <==>
                reported >= old(highWater) || reported > old(highWater) - (toleranceSecs + 1) * 1_000_000_000
      ensures used == if verdict.Trusted? then reported else old(highWater)
      ensures used == Used(old(highWater), toleranceSecs, reported) && used <= highWater
      ensures verdict.Trusted? <==>
                reported >= old(highWater) || (old(highWater) - reported) / SECOND <= toleranceSecs
      ensures verdict.WoundBack? ==>
                used == old(highWater) && verdict.bySeconds == (old(highWater) - reported) / SECOND > toleranceSecs
    {
      if reported >= highWater {
        highWater := reported;
        return reported, Trusted;
      }
      var back := (highWater - reported) / SECOND;
      if back <= toleranceSecs {
        return reported, Trusted;
      }
      return highWater, WoundBack(back);
    }

    method Bump(t: int)
      modifies `highWater
      ensures highWater == Later(old(highWater), t)
    {
      if t > highWater {
        highWater := t;
      }
    }
  }

  /** What may happen to a guard. */
  datatype Event = Observed(at: int) | Bumped(at: int)

  /** The mark after a run of events. */
  function Mark(seed: int, events: seq<Event>): int {
    if events == [] then seed else Later(Mark(seed, events[..|events| - 1]), events[|events| - 1].at)
  }

  /** How far below the mark an answer can lie: less than one second more than the tolerance. */
  function Slack(toleranceSecs: int): int {
    if toleranceSecs < 0 then 0 else (toleranceSecs + 1) * SECOND - 1
  }

  lemma WithinSlack(mark: int, toleranceSecs: int, reported: int)
    ensures Used(mark, toleranceSecs, reported) >= mark - Slack(toleranceSecs)
    ensures toleranceSecs >= 0 && reported < mark ==>
              (Used(mark, toleranceSecs, reported) == reported <==> reported >= mark - Slack(toleranceSecs))
  {
  }

  /**
   A licence is in full force from its first instant to its last, in grace for so many days of 86,400
   seconds after that, and restricted before and after.
   */
  predicate Judges(ent: Entitlement, at: int, e: Enforcement) {
    var grace := ent.graceDays * 86_400_000_000_000;
    && (e == Full <==> ent.notBefore <= at <= ent.expiresAt)
    && (e == Grace <==> ent.notBefore <= at && ent.expiresAt < at <= ent.expiresAt + grace)
  }

  /** What a guard answers with. */
  lemma UsedIs(mark: int, toleranceSecs: int, reported: int)
    ensures Used(mark, toleranceSecs, reported) ==
      if reported >= mark || mark - reported < (toleranceSecs + 1) * 1_000_000_000 then reported else mark
  {
  }

  /** One licence decision: the entitlement is judged at the instant that the guard answers with. */
  method Enforce(guard: ClockGuard, ent: Entitlement, reported: int) returns (e: Enforcement)
    modifies guard`highWater
    ensures guard.highWater == Later(old(guard.highWater), reported)
    ensures Judges(ent, Used(old(guard.highWater), guard.toleranceSecs, reported), e)
    ensures e == Evaluate(ent, Used(old(guard.highWater), guard.toleranceSecs, reported))
    ensures old(guard.highWater) > GraceEnd(ent) + Slack(guard.toleranceSecs) ==> e == Restricted
  {
    WithinSlack(guard.highWater, guard.toleranceSecs, reported);
    var used, _ := guard.Observe(reported);
    e := Evaluate(ent, used);
  }

  /** `m` is the largest instant of a run and its seed. */
  predicate IsLargest(m: int, seed: int, events: seq<Event>) {
    && seed <= m
    && (forall e :: e in events ==> e.at <= m)
    && (m == seed || exists e :: e in events && e.at == m)
  }

  /** The mark is the largest instant the box has ever seen, whatever order they came in. */
  lemma {:induction false} MarkIsLargest(seed: int, events: seq<Event>)
    ensures IsLargest(Mark(seed, events), seed, events)
  {
    if events != [] {
      var before, last := events[..|events| - 1], events[|events| - 1];
      MarkIsLargest(seed, before);
      DropLast(events);
      assert forall e :: e in events <==> e in before || e == last;
    }
  }

  lemma {:induction false} MarkRises(seed: int, events: seq<Event>)
    ensures seed <= Mark(seed, events)
  {
    if events != [] {
      MarkRises(seed, events[..|events| - 1]);
    }
  }

  /** Something the box may still see gives the licence force again. */
  ghost predicate CanRunAgain(ent: Entitlement, mark: int, toleranceSecs: int) {
    exists events, reported ::
      Evaluate(ent, Used(Mark(mark, events), toleranceSecs, reported)) != Restricted
  }

  /**
   Winding the clock back buys less than the tolerance and one second: a licence has ended for good,
   whatever the clock shows from now on, exactly when the mark has passed the end of grace by that much.
   */
  lemma EndedForGood(ent: Entitlement, mark: int, toleranceSecs: int)
    ensures CanRunAgain(ent, mark, toleranceSecs) <==>
              ent.notBefore <= GraceEnd(ent) && mark <= GraceEnd(ent) + Slack(toleranceSecs)
  {
    forall events, reported | Evaluate(ent, Used(Mark(mark, events), toleranceSecs, reported)) != Restricted
      ensures ent.notBefore <= GraceEnd(ent) && mark <= GraceEnd(ent) + Slack(toleranceSecs)
    {
      MarkRises(mark, events);
      WithinSlack(Mark(mark, events), toleranceSecs, reported);
    }
    if ent.notBefore <= GraceEnd(ent) && mark <= GraceEnd(ent) + Slack(toleranceSecs) {
      var reported := GraceEnd(ent);
      WithinSlack(mark, toleranceSecs, reported);
      assert Mark(mark, []) == mark;
      assert Evaluate(ent, Used(Mark(mark, []), toleranceSecs, reported)) != Restricted;
    }
  }
}
