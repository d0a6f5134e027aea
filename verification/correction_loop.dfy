/**
 * The correction loop behind local-time conversion, apart from any calendar: what matters of the
 * calendar is that a correction is exact while the clock reads in the target's month, and that a clock
 * that has gone astray from the month is kept astray by its next correction.
 */
module CorrectionLoop {
  const DAY := 1440

  type Zone = int -> int

  /** The wall clock as a number of minutes. */
  function Reading(zone: Zone, utc: int): int { utc + zone(utc) }

  datatype Target = Target(local: int, fix: int -> int, inMonth: int -> bool, astray: int -> bool)

  ghost predicate Lawful(t: Target) {
    && t.inMonth(t.local)
    && (forall r :: t.inMonth(r) ==> t.fix(r) == r - t.local)
    && (forall r :: -DAY < r - t.local < DAY ==> t.inMonth(r) || t.astray(r))
    && (forall r, change :: t.astray(r) && -DAY < change < DAY ==> t.astray(Corrected(t, r, change)))
    && (forall r :: t.astray(r) ==> r != t.local && !t.inMonth(r))
  }

  /** The next reading, when the offset moves by `change`. */
  function Corrected(t: Target, reading: int, change: int): int { reading - t.fix(reading) + change }

  /** `passes` corrections.  A clock that reads the target stays where it is. */
  function Loop(t: Target, zone: Zone, utc: int, passes: nat): int
    decreases passes
  {
    if passes == 0 then utc else Loop(t, zone, utc - t.fix(Reading(zone, utc)), passes - 1)
  }

  /** No two offsets of the zone are a day apart, and none is a day long. */
  ghost predicate Mild(zone: Zone) {
    && (forall u :: -DAY < zone(u) < DAY)
    && (forall u, v :: -DAY < zone(u) - zone(v) < DAY)
  }

  /** A loop that has gone astray never comes back. */
  lemma {:induction false} NeverComesBack(t: Target, zone: Zone, utc: int, passes: nat)
    requires Lawful(t) && Mild(zone) && t.astray(Reading(zone, utc))
    ensures Reading(zone, Loop(t, zone, utc, passes)) != t.local
    decreases passes
  {
    if passes > 0 {
      var next := utc - t.fix(Reading(zone, utc));
      assert Corrected(t, Reading(zone, utc), zone(next) - zone(utc)) == Reading(zone, next);
      NeverComesBack(t, zone, next, passes - 1);
    }
  }

  lemma {:induction false} Stays(t: Target, zone: Zone, utc: int, passes: nat)
    requires Lawful(t) && Reading(zone, utc) == t.local
    ensures Loop(t, zone, utc, passes) == utc
    decreases passes
  {
    if passes > 0 { Stays(t, zone, utc, passes - 1); }
  }

  // ----- at most one change of offset nearby -----

  function OneChange(at: int, before: int, after: int): Zone { u => if u < at then before else after }

  /** Within a day of a local time the zone changes its offset at most once. */
  ghost predicate OneChangeNear(zone: Zone, local: int, at: int, before: int, after: int) {
    && -DAY < before < DAY && -DAY < after < DAY
    && forall u | local - DAY < u < local + DAY :: zone(u) == if u < at then before else after
  }

  predicate MildOffsets(before: int, after: int) {
    -DAY < before < DAY && -DAY < after < DAY && -DAY < after - before < DAY
  }

  lemma OneChangeIsMild(local: int, at: int, before: int, after: int)
    requires MildOffsets(before, after)
    ensures Mild(OneChange(at, before, after)) && OneChangeNear(OneChange(at, before, after), local, at, before, after)
  {
  }

  /** No clock of the zone ever shows this local time. */
  predicate InGap(local: int, at: int, before: int, after: int) { at + before <= local < at + after }

  lemma GapMeansNeverShown(zone: Zone, local: int, at: int, before: int, after: int)
    requires Mild(zone) && OneChangeNear(zone, local, at, before, after)
    ensures InGap(local, at, before, after) <==> forall u :: Reading(zone, u) != local
  {
    if InGap(local, at, before, after) {
      forall u ensures Reading(zone, u) != local {
        assert -DAY < zone(u) < DAY;
      }
    } else {
      assert Reading(zone, local - before) == local || local - before >= at;
      assert Reading(zone, local - after) == local || local - after < at;
    }
  }

  /** Both corrections of the loop start from probes that read in the target's month. */
  predicate ProbesInMonth(t: Target, zone: Zone) {
    && t.inMonth(Reading(zone, t.local))
    && t.inMonth(Reading(zone, t.local - zone(t.local)))
  }

  /** A correction from a probe in the month leads to the target shifted by the probe's offset. */
  lemma CorrectInMonth(t: Target, zone: Zone, utc: int, passes: nat)
    requires Lawful(t) && t.inMonth(Reading(zone, utc))
    ensures Loop(t, zone, utc, passes + 1) == Loop(t, zone, t.local - zone(utc), passes)
  {
  }

  /** A loop that stays in the month twice is at the target shifted by the second probe's offset. */
  lemma CorrectTwice(t: Target, zone: Zone, passes: nat)
    requires Lawful(t) && ProbesInMonth(t, zone)
    ensures Loop(t, zone, t.local, passes + 2) == Loop(t, zone, t.local - zone(t.local - zone(t.local)), passes)
  {
    CorrectInMonth(t, zone, t.local, passes + 1);
    CorrectInMonth(t, zone, t.local - zone(t.local), passes);
  }

  lemma OutsideTheMonth(t: Target, zone: Zone, passes: nat)
    requires Lawful(t) && Mild(zone) && !ProbesInMonth(t, zone)
    ensures Reading(zone, Loop(t, zone, t.local, passes + 1)) != t.local
  {
    var second := t.local - zone(t.local);
    if t.inMonth(Reading(zone, t.local)) {
      assert -DAY < Reading(zone, second) - t.local < DAY;
      CorrectInMonth(t, zone, t.local, passes);
      NeverComesBack(t, zone, second, passes);
    } else {
      assert -DAY < Reading(zone, t.local) - t.local < DAY;
      NeverComesBack(t, zone, t.local, passes + 1);
    }
  }

  /** Where the zone shows the time, the offset found at the second probe is the right one. */
  lemma ThirdProbeReadsTarget(zone: Zone, local: int, at: int, before: int, after: int)
    requires OneChangeNear(zone, local, at, before, after) && !InGap(local, at, before, after)
    ensures Reading(zone, local - zone(local - zone(local))) == local
  {
  }

  lemma FoundByThirdPass(t: Target, zone: Zone, at: int, before: int, after: int, passes: nat)
    requires Lawful(t) && OneChangeNear(zone, t.local, at, before, after)
    requires ProbesInMonth(t, zone) && !InGap(t.local, at, before, after)
    ensures
      var end := Loop(t, zone, t.local, passes + 2);
      end == t.local - zone(t.local - zone(t.local)) && Reading(zone, end) == t.local
  {
    CorrectTwice(t, zone, passes);
    ThirdProbeReadsTarget(zone, t.local, at, before, after);
    Stays(t, zone, t.local - zone(t.local - zone(t.local)), passes);
  }

  /** The loop ends on the target precisely when the zone shows it at all and the two probes read in
      its month, and then has it by the third of its passes (two corrections). */
  lemma ExactIff(t: Target, zone: Zone, at: int, before: int, after: int, passes: nat)
    requires Lawful(t) && Mild(zone) && OneChangeNear(zone, t.local, at, before, after)
    ensures
      var end := Loop(t, zone, t.local, passes + 2);
      && (Reading(zone, end) == t.local <==> !InGap(t.local, at, before, after) && ProbesInMonth(t, zone))
      && (Reading(zone, end) == t.local ==> end == t.local - zone(t.local - zone(t.local)))
  {
    if !ProbesInMonth(t, zone) {
      OutsideTheMonth(t, zone, passes + 1);
    } else if InGap(t.local, at, before, after) {
      GapMeansNeverShown(zone, t.local, at, before, after);
    } else {
      FoundByThirdPass(t, zone, at, before, after, passes);
    }
  }

  /** In a gap the loop swings between the two offsets. */
  lemma GapSwings(t: Target, zone: Zone, at: int, before: int, after: int, passes: nat)
    requires Lawful(t) && OneChangeNear(zone, t.local, at, before, after) && InGap(t.local, at, before, after)
    requires t.inMonth(t.local + after - before) && t.inMonth(t.local + before - after)
    ensures Loop(t, zone, t.local - before, passes + 1) == Loop(t, zone, t.local - after, passes)
    ensures Loop(t, zone, t.local - after, passes + 1) == Loop(t, zone, t.local - before, passes)
  {
    assert zone(t.local - before) == after && zone(t.local - after) == before;
    CorrectInMonth(t, zone, t.local - before, passes);
    CorrectInMonth(t, zone, t.local - after, passes);
  }

  /** It swings for ever: after an even number of passes it is where it was, after an odd one it is on
      the other side, and neither side reads the target. */
  lemma {:induction false} GapOscillates(t: Target, zone: Zone, at: int, before: int, after: int, passes: nat)
    requires Lawful(t) && OneChangeNear(zone, t.local, at, before, after) && InGap(t.local, at, before, after)
    requires t.inMonth(t.local + after - before) && t.inMonth(t.local + before - after)
    ensures Loop(t, zone, t.local - before, passes) == t.local - (if passes % 2 == 0 then before else after)
    ensures Loop(t, zone, t.local - after, passes) == t.local - (if passes % 2 == 0 then after else before)
    decreases passes
  {
    if passes > 0 {
      GapSwings(t, zone, at, before, after, passes - 1);
      GapOscillates(t, zone, at, before, after, passes - 1);
    }
  }

  /** A gap time whose probes stay in the month. */
  ghost predicate Swings(t: Target, zone: Zone, at: int, before: int, after: int) {
    && Lawful(t) && OneChangeNear(zone, t.local, at, before, after) && InGap(t.local, at, before, after)
    && t.inMonth(Reading(zone, t.local))
    && t.inMonth(t.local + after - before) && t.inMonth(t.local + before - after)
  }

  /** What such a time converts to, for any number of passes. */
  lemma GapResult(t: Target, zone: Zone, at: int, before: int, after: int, passes: nat)
    requires Swings(t, zone, at, before, after)
    ensures
      var first := zone(t.local);
      Loop(t, zone, t.local, passes + 1) == t.local - (if passes % 2 == 0 then first else before + after - first)
  {
    CorrectInMonth(t, zone, t.local, passes);
    GapOscillates(t, zone, at, before, after, passes);
    assert zone(t.local) == if t.local < at then before else after;
  }

  // ----- constant offsets -----

  function Fixed(offset: int): Zone { u => offset }

  /** With a constant offset the loop is exact iff its first probe reads in the target's month, and then
      has the target after one correction. */
  lemma FixedExactIff(t: Target, offset: int, passes: nat)
    requires Lawful(t) && -DAY < offset < DAY
    ensures Reading(Fixed(offset), Loop(t, Fixed(offset), t.local, passes + 1)) == t.local
        <==> t.inMonth(t.local + offset)
    ensures t.inMonth(t.local + offset) ==> Loop(t, Fixed(offset), t.local, passes + 1) == t.local - offset
  {
    var zone := Fixed(offset);
    if t.inMonth(t.local + offset) {
      CorrectInMonth(t, zone, t.local, passes);
      Stays(t, zone, t.local - offset, passes);
    } else {
      NeverComesBack(t, zone, t.local, passes + 1);
    }
  }

  /** A probe that needs no correction is where the loop comes to rest, whatever it reads. */
  lemma {:induction false} Rests(t: Target, zone: Zone, utc: int, passes: nat)
    requires t.fix(Reading(zone, utc)) == 0
    ensures Loop(t, zone, utc, passes) == utc
    decreases passes
  {
    if passes > 0 { Rests(t, zone, utc, passes - 1); }
  }

  /** Where the zone has this offset, the corrections lead from `utc` to `first`, then to `second`, and end. */
  predicate Path(t: Target, zone: Zone, offset: int, utc: int, first: int, second: int) {
    && zone(utc) == zone(first) == zone(second) == offset
    && t.fix(utc + offset) == utc - first && t.fix(first + offset) == first - second
    && t.fix(second + offset) == 0
  }

  lemma PathEnds(t: Target, zone: Zone, offset: int, utc: int, first: int, second: int, passes: nat)
    requires Path(t, zone, offset, utc, first, second)
    ensures Loop(t, zone, utc, passes + 2) == second
  {
    Rests(t, zone, second, passes);
  }
}
