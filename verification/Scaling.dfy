/** Scaling a service by the length of its queue (scaler/queue_watermark.go). */
module Scaling {
  import opened Prelude
  import opened Deployer
  import Batching

  const VIOLATION_MAX := 10

  /** The scaler's own fields. */
  datatype Watermark = Watermark(lowMark: int, highMark: int, minimum: int, lowViolations: int, highViolations: int)

  /** What one check observes; None is a failed query. */
  datatype Seen = Seen(deploying: bool, count: Option<int>, items: Option<int>)

  datatype Verdict = Idle | Failed | ToMinimum | Down | Up

  function Check(w: Watermark, seen: Seen): (Watermark, Verdict) {
    if seen.deploying then (w, Idle)
    else if w.minimum > 0 && seen.count.None? then (w, Failed)
    else if w.minimum > 0 && seen.count.value < w.minimum then (w, ToMinimum)
    else if seen.items.None? then (w, Failed)
    else Compare(w, seen.items.value)
  }

  function Compare(w: Watermark, items: int): (Watermark, Verdict) {
    if items <= w.lowMark && w.lowViolations + 1 >= VIOLATION_MAX then (w.(lowViolations := 0), Down)
    else
      var w := if items <= w.lowMark then w.(lowViolations := w.lowViolations + 1) else w;
      if items < w.highMark then (w, Idle)
      else if w.highViolations + 1 >= VIOLATION_MAX then (w.(highViolations := 0), Up)
      else (w.(highViolations := w.highViolations + 1), Idle)
  }

  // ----- Counting breaches over any run ---------------------------------------------------------

  /** A run is a sequence of checks, whatever they observe, and of scalings to zero. */
  datatype Event = Checked(seen: Seen) | ScaledToZero

  function After(w: Watermark, run: seq<Event>): Watermark {
    if run == [] then w
    else
      var before := After(w, run[..|run| - 1]);
      match run[|run| - 1]
      case Checked(seen) => Check(before, seen).0
      case ScaledToZero => before.(minimum := 0)
  }

  /** How often a run came to a verdict. */
  function Verdicts(w: Watermark, run: seq<Event>, verdict: Verdict): nat {
    if run == [] then 0
    else
      var front, last := run[..|run| - 1], run[|run| - 1];
      Verdicts(w, front, verdict) + if last.Checked? && Check(After(w, front), last.seen).1 == verdict then 1 else 0
  }

  /** The check got as far as the length of the queue. */
  predicate Measured(w: Watermark, seen: Seen) {
    && !seen.deploying && seen.items.Some?
    && (w.minimum > 0 ==> seen.count.Some? && seen.count.value >= w.minimum)
  }

  function LowBreaches(w: Watermark, run: seq<Event>): nat {
    if run == [] then 0
    else
      var front, last := run[..|run| - 1], run[|run| - 1];
      LowBreaches(w, front)
      + if last.Checked? && Measured(After(w, front), last.seen) && last.seen.items.value <= w.lowMark then 1 else 0
  }

  function HighBreaches(w: Watermark, run: seq<Event>): nat {
    if run == [] then 0
    else
      var front, last := run[..|run| - 1], run[|run| - 1];
      HighBreaches(w, front)
      + if last.Checked? && Measured(After(w, front), last.seen) && last.seen.items.value >= w.highMark then 1 else 0
  }

  predicate Fresh(w: Watermark) {
    w.lowViolations == 0 && w.highViolations == 0
  }

  /** Marks never change, and both counters stay below the maximum. */
  lemma {:induction false} CountersStayLow(w: Watermark, run: seq<Event>)
    requires Fresh(w)
    ensures var now := After(w, run);
            && now.lowMark == w.lowMark && now.highMark == w.highMark
            && 0 <= now.lowViolations < 10 && 0 <= now.highViolations < 10
  {
    if run != [] {
      CountersStayLow(w, run[..|run| - 1]);
    }
  }

  /** Every tenth low breach, and nothing else, makes the scaler try to scale down. */
  lemma {:induction false} LowBreachesAreCounted(w: Watermark, run: seq<Event>)
    requires Fresh(w)
    ensures LowBreaches(w, run) == 10 * Verdicts(w, run, Down) + After(w, run).lowViolations
  {
    if run != [] {
      var front := run[..|run| - 1];
      CountersStayLow(w, front);
      LowBreachesAreCounted(w, front);
    }
  }

  ghost predicate HighLaw(w: Watermark, run: seq<Event>) {
    HighBreaches(w, run) == 10 * Verdicts(w, run, Up) + After(w, run).highViolations
  }

  lemma {:induction false} HighBreachesAreCounted(w: Watermark, run: seq<Event>)
    requires Fresh(w) && w.lowMark < w.highMark
    ensures HighLaw(w, run)
  {
    if run != [] {
      var front := run[..|run| - 1];
      CountersStayLow(w, front);
      HighBreachesAreCounted(w, front);
    }
  }

  /** `n` checks that all find the minimum running and `items` in the queue. */
  function Steady(w: Watermark, items: int, n: nat): seq<Event> {
    seq(n, i => Checked(Seen(false, Some(w.minimum), Some(items))))
  }

  lemma {:induction false} SteadyBreachesBoth(w: Watermark, n: nat)
    requires Fresh(w) && w.highMark <= w.lowMark && n < 10
    ensures var run := Steady(w, w.lowMark, n);
            && After(w, run) == w.(lowViolations := n, highViolations := n)
            && HighBreaches(w, run) == n && Verdicts(w, run, Up) == 0
  {
    if n > 0 {
      SteadyBreachesBoth(w, n - 1);
      assert Steady(w, w.lowMark, n)[..n - 1] == Steady(w, w.lowMark, n - 1);
    }
  }

  /** The same holds of high breaches and scaling up, over every run, exactly when the marks are in order. */
  lemma {:induction false} HighLawIff(w: Watermark)
    requires Fresh(w)
    ensures (forall run :: HighLaw(w, run)) <==> w.lowMark < w.highMark
  {
    if w.lowMark < w.highMark {
      forall run
        ensures HighLaw(w, run)
      {
        HighBreachesAreCounted(w, run);
      }
    } else {
      SteadyBreachesBoth(w, VIOLATION_MAX - 1);
      var run := Steady(w, w.lowMark, VIOLATION_MAX);
      assert run[..VIOLATION_MAX - 1] == Steady(w, w.lowMark, VIOLATION_MAX - 1);
      assert !HighLaw(w, run);
    }
  }

  // ----- A low mark of zero ---------------------------------------------------------------------

  /** No check finds fewer than zero items. */
  predicate CountsItems(run: seq<Event>) {
    forall i :: 0 <= i < |run| && run[i].Checked? && run[i].seen.items.Some? ==> run[i].seen.items.value >= 0
  }

  lemma {:induction false} NothingBelowNegativeMark(w: Watermark, run: seq<Event>)
    requires w.lowMark < 0 && CountsItems(run)
    ensures LowBreaches(w, run) == 0
  {
    if run != [] {
      NothingBelowNegativeMark(w, run[..|run| - 1]);
    }
  }

  lemma {:induction false} EmptyQueueBreaches(w: Watermark, n: nat)
    requires w.lowMark >= 0
    ensures LowBreaches(w, Steady(w, 0, n)) == n && After(w, Steady(w, 0, n)).minimum == w.minimum
  {
    if n > 0 {
      EmptyQueueBreaches(w, n - 1);
      assert Steady(w, 0, n)[..n - 1] == Steady(w, 0, n - 1);
    }
  }

  /** A scaler never tries to scale down exactly when its low mark is negative; zero does not stop it. */
  lemma {:induction false} NeverScalesDownIff(w: Watermark)
    requires Fresh(w)
    ensures (forall run :: CountsItems(run) ==> Verdicts(w, run, Down) == 0) <==> w.lowMark < 0
  {
    if w.lowMark < 0 {
      forall run | CountsItems(run)
        ensures Verdicts(w, run, Down) == 0
      {
        NothingBelowNegativeMark(w, run);
        LowBreachesAreCounted(w, run);
        CountersStayLow(w, run);
      }
    } else {
      var run := Steady(w, 0, VIOLATION_MAX);
      EmptyQueueBreaches(w, VIOLATION_MAX);
      LowBreachesAreCounted(w, run);
      CountersStayLow(w, run);
      assert CountsItems(run) && Verdicts(w, run, Down) != 0;
    }
  }

  // ----- A scaler over a Docker deployer --------------------------------------------------------

  /** One service: its scaler, the count its deployer asked for, and the count that runs. */
  datatype Service = Service(watermark: Watermark, requested: int, running: nat) {
    predicate InStep() { running == requested }
  }

  /** One check: the length of the queue if it can be told, and what the daemon is good for meanwhile. */
  datatype Round = Round(items: Option<int>, listing: bool, changes: nat)

  function Observed(s: Service, round: Round): Seen {
    Seen(round.listing && !s.InStep(), if round.listing then Some(s.running) else None, round.items)
  }

  /** By how much a verdict changes what is requested. */
  function Request(verdict: Verdict, s: Service, listing: bool): (wanted: int)
    ensures s.running + wanted >= 0
  {
    match verdict
    case ToMinimum => 1
    case Up => 1
    case Down => if !listing || s.running == 0 || s.running - 1 < s.watermark.minimum then 0 else -1
    case _ => 0
  }

  /** What is requested changes in any case, what runs only if the daemon goes along. */
  function Shift(s: Service, wanted: int, changes: nat): Service
    requires s.running + wanted >= 0
  {
    Service(s.watermark, s.requested + wanted, s.running + if changes > 0 then wanted else 0)
  }

  /** What follows from a verdict and the counters it leaves. */
  function Act(s: Service, checked: (Watermark, Verdict), listing: bool, changes: nat): Service {
    var counted := s.(watermark := checked.0);
    Shift(counted, Request(checked.1, counted, listing), changes)
  }

  function Tick(s: Service, round: Round): Service {
    Act(s, Check(s.watermark, Observed(s, round)), round.listing, round.changes)
  }

  function Wanted(s: Service, round: Round): (wanted: int)
    ensures s.running + wanted >= 0
  {
    var (w, verdict) := Check(s.watermark, Observed(s, round));
    Request(verdict, s.(watermark := w), round.listing)
  }

  // ----- Runs of checks and exits ---------------------------------------------------------------

  /** The container of one instance exits. */
  function Dies(s: Service): Service
    requires s.running > 0
  {
    s.(running := s.running - 1)
  }

  /** What happens to a service: a check, or an exit if anything runs. */
  datatype Turn = Checks(round: Round) | Exits

  function Take(s: Service, turn: Turn): Service {
    match turn
    case Checks(round) => Tick(s, round)
    case Exits => if s.running > 0 then Dies(s) else s
  }

  function Run(s: Service, turns: seq<Turn>): Service {
    if turns == [] then s else Take(Run(s, turns[..|turns| - 1]), turns[|turns| - 1])
  }

  /** What was requested and not carried out in one turn, and the instance that went without being asked. */
  function Unmet(s: Service, turn: Turn): int {
    match turn
    case Checks(round) => if round.changes == 0 then Wanted(s, round) else 0
    case Exits => if s.running > 0 then 1 else 0
  }

  function RunUnmet(s: Service, turns: seq<Turn>): int {
    if turns == [] then 0
    else
      var front, last := turns[..|turns| - 1], turns[|turns| - 1];
      RunUnmet(s, front) + Unmet(Run(s, front), last)
  }

  predicate OnlyChecks(turns: seq<Turn>) {
    forall i :: 0 <= i < |turns| ==> turns[i].Checks?
  }

  predicate Listing(turns: seq<Turn>) {
    forall i :: 0 <= i < |turns| ==> turns[i].Checks? && turns[i].round.listing
  }

  /** Nothing exits, and the daemon lists and carries out what it is asked. */
  predicate Works(turns: seq<Turn>) {
    forall i :: 0 <= i < |turns| ==> turns[i].Checks? && turns[i].round.listing && turns[i].round.changes > 0
  }

  lemma {:induction false} NoTurns(s: Service)
    ensures Run(s, []) == s && RunUnmet(s, []) == 0
  {
  }

  lemma {:induction false} RunSnoc(s: Service, turns: seq<Turn>, last: Turn)
    ensures Run(s, turns + [last]) == Take(Run(s, turns), last)
    ensures RunUnmet(s, turns + [last]) == RunUnmet(s, turns) + Unmet(Run(s, turns), last)
  {
    assert (turns + [last])[..|turns|] == turns;
  }

  lemma {:induction false} RunCompose(s: Service, first: seq<Turn>, second: seq<Turn>)
    ensures Run(s, first + second) == Run(Run(s, first), second)
  {
    hide Take, Run;
    if second == [] {
      NoTurns(Run(s, first));
      assert first + second == first;
    } else {
      var front, last := second[..|second| - 1], second[|second| - 1];
      RunCompose(s, first, front);
      RunSnoc(s, first + front, last);
      RunSnoc(Run(s, first), front, last);
      assert first + second == (first + front) + [last] && second == front + [last];
    }
  }

  lemma {:induction false} OneTurn(s: Service, turn: Turn)
    ensures Run(s, [turn]) == Take(s, turn)
  {
    NoTurns(s);
    RunSnoc(s, [], turn);
    assert [] + [turn] == [turn];
  }

  /** Whatever fails or exits: requested and running differ by just that, and the minimum stays. */
  lemma {:induction false} GapIsUnmet(s: Service, turns: seq<Turn>)
    ensures var now := Run(s, turns);
            && now.requested - now.running == s.requested - s.running + RunUnmet(s, turns)
            && now.watermark.minimum == s.watermark.minimum
  {
    if turns != [] {
      hide Wanted;
      GapIsUnmet(s, turns[..|turns| - 1]);
    }
  }

  /** So a service that starts in step is in step exactly when refusals and exits cancel out. */
  lemma {:induction false} InStepIff(s: Service, turns: seq<Turn>)
    requires s.InStep()
    ensures Run(s, turns).InStep() <==> RunUnmet(s, turns) == 0
  {
    GapIsUnmet(s, turns);
  }

  /** With a daemon that works, requested equals running after every check. */
  lemma {:induction false} StaysInStep(s: Service, turns: seq<Turn>)
    requires s.InStep() && Works(turns)
    ensures Run(s, turns).InStep() && Run(s, turns).watermark.minimum == s.watermark.minimum
  {
    if turns != [] {
      hide Wanted;
      StaysInStep(s, turns[..|turns| - 1]);
    }
  }

  // ----- What verdicts do -----------------------------------------------------------------------

  /** How often a run came to a verdict to grow, for want of the minimum or because of the queue. */
  function GrowVerdicts(s: Service, turns: seq<Turn>): nat {
    if turns == [] then 0
    else
      var now := Run(s, turns[..|turns| - 1]);
      GrowVerdicts(s, turns[..|turns| - 1])
      + match turns[|turns| - 1]
        case Checks(round) =>
          var verdict := Check(now.watermark, Observed(now, round)).1;
          if verdict == ToMinimum || verdict == Up then 1 else 0
        case Exits => 0
  }

  /** How often it came to one to shrink while it could tell that more ran than nothing and the minimum. */
  function ShrinkVerdicts(s: Service, turns: seq<Turn>): nat {
    if turns == [] then 0
    else
      var now := Run(s, turns[..|turns| - 1]);
      ShrinkVerdicts(s, turns[..|turns| - 1])
      + match turns[|turns| - 1]
        case Checks(round) =>
          var verdict := Check(now.watermark, Observed(now, round)).1;
          if verdict == Down && round.listing && now.running > 0 && now.running > now.watermark.minimum then 1 else 0
        case Exits => 0
  }

  /** Over any run, whatever fails or exits, what is requested changes by exactly these verdicts. */
  lemma {:induction false} VerdictsAreRequested(s: Service, turns: seq<Turn>)
    ensures Run(s, turns).requested - s.requested == GrowVerdicts(s, turns) - ShrinkVerdicts(s, turns)
  {
    if turns != [] {
      var front := turns[..|turns| - 1];
      VerdictsAreRequested(s, front);
      hide Run, Check;
      assert Run(s, turns) == Take(Run(s, front), turns[|turns| - 1]) by {
        RunSnoc(s, front, turns[|turns| - 1]);
        assert turns == front + [turns[|turns| - 1]];
      }
      TakeRequests(Run(s, front), turns[|turns| - 1]);
    }
  }

  lemma {:induction false} TakeRequests(s: Service, turn: Turn)
    ensures turn.Exits? ==> Take(s, turn).requested == s.requested
    ensures turn.Checks? ==>
              var verdict := Check(s.watermark, Observed(s, turn.round)).1;
              var shrinks := verdict == Down && turn.round.listing && s.running > 0 && s.running > s.watermark.minimum;
              Take(s, turn).requested
              == s.requested + (if verdict == ToMinimum || verdict == Up then 1 else if shrinks then -1 else 0)
  {
    if turn.Checks? {
      CheckKeepsMinimum(s.watermark, Observed(s, turn.round));
      hide Check;
    }
  }

  lemma {:induction false} CheckKeepsMinimum(w: Watermark, seen: Seen)
    ensures Check(w, seen).0.minimum == w.minimum
  {
  }

  /** With a working daemon and a service in step so does what runs. */
  lemma {:induction false} VerdictsAreCarriedOut(s: Service, turns: seq<Turn>)
    requires s.InStep() && Works(turns)
    ensures Run(s, turns).running - s.running == GrowVerdicts(s, turns) - ShrinkVerdicts(s, turns)
  {
    VerdictsAreRequested(s, turns);
    StaysInStep(s, turns);
  }

  /** The direction reported is the one in which what is requested moves; a scale-down may find nothing to stop. */
  lemma {:induction false} ReportsAreTrue(s: Service, round: Round, direction: string, scaled: bool, ok: bool)
    requires Reports(s, Check(s.watermark, Observed(s, round)), round.listing, round.changes, direction, scaled, ok)
    ensures direction == "up" <==> Tick(s, round).requested == s.requested + 1
    ensures direction == "down" ==> Tick(s, round).requested <= s.requested
    ensures Tick(s, round).requested < s.requested ==> direction == "down"
    ensures direction == "none" <==> !scaled
    ensures direction == "up" && ok ==> Tick(s, round).running == s.running + 1
  {
  }

  // ----- Out of step ----------------------------------------------------------------------------

  /** Out of step, a check does nothing as long as it can list, or must because there is a minimum. */
  lemma {:induction false} OutOfStepIsStuck(s: Service, turns: seq<Turn>)
    requires !s.InStep() && OnlyChecks(turns) && (Listing(turns) || s.watermark.minimum > 0)
    ensures Run(s, turns) == s
  {
    if turns != [] {
      OutOfStepIsStuck(s, turns[..|turns| - 1]);
    }
  }

  /** A check that finds the queue at the low mark. */
  function LowCheck(s: Service, listing: bool): Turn {
    Checks(Round(Some(s.watermark.lowMark), listing, 1))
  }

  lemma {:induction false} LowCheckMoves(s: Service, listing: bool)
    requires s.InStep() || (!listing && s.watermark.minimum <= 0)
    requires s.watermark.minimum > 0 ==> listing
    ensures var now := Run(s, [LowCheck(s, listing)]);
            now.watermark != s.watermark || now.requested != s.requested
  {
    OneTurn(s, LowCheck(s, listing));
  }

  /** No run of checks that can list changes the service or its counters exactly when it is out of step. */
  lemma {:induction false} StuckWhileListingIff(s: Service)
    ensures (forall turns :: Listing(turns) ==> Run(s, turns) == s) <==> !s.InStep()
  {
    hide Run;
    if s.InStep() {
      LowCheckMoves(s, true);
      assert Listing([LowCheck(s, true)]);
    } else {
      forall turns | Listing(turns)
        ensures Run(s, turns) == s
      {
        OutOfStepIsStuck(s, turns);
      }
    }
  }

  /** No run of checks at all does exactly when it has a minimum besides. */
  lemma {:induction false} StuckIff(s: Service)
    ensures (forall turns :: OnlyChecks(turns) ==> Run(s, turns) == s) <==> !s.InStep() && s.watermark.minimum > 0
  {
    hide Run;
    if !s.InStep() && s.watermark.minimum > 0 {
      forall turns | OnlyChecks(turns)
        ensures Run(s, turns) == s
      {
        OutOfStepIsStuck(s, turns);
      }
    } else {
      var listing := s.watermark.minimum > 0;
      LowCheckMoves(s, listing);
      assert OnlyChecks([LowCheck(s, listing)]);
    }
  }

  /** A minimum, and more requested than runs: no turn whatever makes up for what is missing. */
  predicate Short(s: Service) {
    s.watermark.minimum > 0 && (s.requested > s.running || s.requested < 0)
  }

  lemma {:induction false} ShortStaysShort(s: Service, turns: seq<Turn>)
    requires Short(s)
    ensures var now := Run(s, turns);
            now.watermark == s.watermark && now.requested == s.requested && now.running <= s.running
  {
    if turns != [] {
      ShortStaysShort(s, turns[..|turns| - 1]);
    }
  }

  lemma {:induction false} ExitsTakeDown(s: Service, n: nat)
    requires n <= s.running
    ensures Run(s, seq(n, _ => Exits)) == s.(running := s.running - n)
  {
    if n > 0 {
      ExitsTakeDown(s, n - 1);
      assert seq(n, _ => Exits) == seq(n - 1, _ => Exits) + [Exits];
      RunSnoc(s, seq(n - 1, _ => Exits), Exits);
    }
  }

  /** A service is never scaled again, whatever is refused or exits, exactly when it is short. */
  lemma {:induction false} FrozenIff(s: Service)
    ensures (forall turns :: Run(s, turns).watermark == s.watermark && Run(s, turns).requested == s.requested)
            <==> Short(s)
  {
    hide Run;
    if Short(s) {
      forall turns
        ensures Run(s, turns).watermark == s.watermark && Run(s, turns).requested == s.requested
      {
        ShortStaysShort(s, turns);
      }
    } else if s.watermark.minimum <= 0 {
      LowCheckMoves(s, false);
    } else {
      var exits := seq(s.running - s.requested, _ => Exits);
      var settled := s.(running := s.requested);
      ExitsTakeDown(s, s.running - s.requested);
      LowCheckMoves(settled, true);
      RunCompose(s, exits, [LowCheck(settled, true)]);
    }
  }

  /** A refused request to grow leaves a service with a minimum short; one to shrink, until an instance exits. */
  lemma {:induction false} RefusalUnsettles(s: Service, round: Round)
    requires s.InStep() && round.changes == 0 && Wanted(s, round) != 0
    ensures !Tick(s, round).InStep()
    ensures Wanted(s, round) > 0 && s.watermark.minimum > 0 ==> Short(Tick(s, round))
    ensures Wanted(s, round) < 0 ==> s.running > 0 && Dies(Tick(s, round)).InStep()
  {
  }

  /** A service at its minimum or below that loses an instance is below its minimum for good, whatever happens. */
  lemma {:induction false} DeathIsForGood(s: Service, turns: seq<Turn>)
    requires s.InStep() && 0 < s.running <= s.watermark.minimum
    ensures Short(Dies(s)) && Run(Dies(s), turns).running < s.watermark.minimum
  {
    ShortStaysShort(Dies(s), turns);
  }

  // ----- The minimum ----------------------------------------------------------------------------

  /** Below its minimum a service gains one instance a check, whatever the queue holds. */
  lemma {:induction false} ClimbsToMinimum(s: Service, turns: seq<Turn>)
    requires s.InStep() && Works(turns) && s.running + |turns| <= s.watermark.minimum
    ensures Run(s, turns) == s.(requested := s.requested + |turns|, running := s.running + |turns|)
  {
    if turns != [] {
      ClimbsToMinimum(s, turns[..|turns| - 1]);
    }
  }

  /** Whatever is refused, a service at or above its minimum is never scaled below it. */
  lemma {:induction false} NeverDropsBelow(s: Service, turns: seq<Turn>)
    requires s.running >= s.watermark.minimum && OnlyChecks(turns)
    ensures Run(s, turns).running >= s.watermark.minimum
  {
    if turns != [] {
      var front := turns[..|turns| - 1];
      GapIsUnmet(s, front);
      NeverDropsBelow(s, front);
    }
  }

  /** So the minimum is met after n checks exactly when the shortfall was at most n, and met for good. */
  lemma {:induction false} MinimumIsMetIff(s: Service, turns: seq<Turn>)
    requires s.InStep() && Works(turns)
    ensures Run(s, turns).running >= s.watermark.minimum <==> s.watermark.minimum - s.running <= |turns|
  {
    hide Take, Run;
    var shortfall := s.watermark.minimum - s.running;
    if shortfall <= 0 {
      NeverDropsBelow(s, turns);
    } else if |turns| <= shortfall {
      ClimbsToMinimum(s, turns);
    } else {
      ClimbsToMinimum(s, turns[..shortfall]);
      NeverDropsBelow(Run(s, turns[..shortfall]), turns[shortfall..]);
      RunCompose(s, turns[..shortfall], turns[shortfall..]);
      assert turns == turns[..shortfall] + turns[shortfall..];
    }
  }

  /** Given as many checks as it lacks instances a service is back at its minimum exactly when it is in step. */
  lemma {:induction false} RecoversIff(s: Service)
    ensures (forall turns :: Works(turns) && |turns| >= s.watermark.minimum - s.running
                             ==> Run(s, turns).running >= s.watermark.minimum)
            <==> s.InStep() || s.running >= s.watermark.minimum
  {
    hide Run;
    forall turns | Works(turns) && |turns| >= s.watermark.minimum - s.running
      ensures s.InStep() ==> Run(s, turns).running >= s.watermark.minimum
      ensures s.running >= s.watermark.minimum ==> Run(s, turns).running >= s.watermark.minimum
      ensures !s.InStep() ==> Run(s, turns) == s
    {
      if s.InStep() {
        MinimumIsMetIff(s, turns);
      } else {
        OutOfStepIsStuck(s, turns);
      }
      if s.running >= s.watermark.minimum {
        NeverDropsBelow(s, turns);
      }
    }
    var n := if s.watermark.minimum > s.running then s.watermark.minimum - s.running else 0;
    var turns := seq(n, _ => Checks(Round(None, true, 1)));
    assert Works(turns) && |turns| >= s.watermark.minimum - s.running;
  }

  // ----- The scaler itself ----------------------------------------------------------------------

  /** What the caller of a check is told. */
  predicate Reports(
      s: Service, checked: (Watermark, Verdict), listing: bool, changes: nat, direction: string, scaled: bool, ok: bool)
  {
    match checked.1
    case Idle => direction == "none" && !scaled && ok
    case Failed => direction == "none" && !scaled && !ok
    case Down =>
      && direction == "down" && scaled
      && ok == (listing && (changes > 0 || Request(Down, s.(watermark := checked.0), listing) == 0))
    case _ => direction == "up" && scaled && ok == (changes > 1)
  }

  class QueueWatermark {
    const queue: Batching.Redis
    const queueName: string
    const deployer: Docker
    const lowWaterMark: int
    const highWaterMark: int
    var minimumServiceCount: int
    var lowWatermarkViolationCount: int
    var highWatermarkViolationCount: int

    constructor (
        queue: Batching.Redis, queueName: string, deployer: Docker,
        lowWaterMark: int, highWaterMark: int, minimumServiceCount: int)
      ensures this.queue == queue && this.queueName == queueName && this.deployer == deployer
      ensures Marks() == Watermark(lowWaterMark, highWaterMark, minimumServiceCount, 0, 0)
    {
      this.queue, this.queueName, this.deployer := queue, queueName, deployer;
      this.lowWaterMark, this.highWaterMark := lowWaterMark, highWaterMark;
      this.minimumServiceCount := minimumServiceCount;
      lowWatermarkViolationCount, highWatermarkViolationCount := 0, 0;
    }

    static method New(
        queue: Batching.Redis?, queueName: string, deployer: Docker?,
        lowWaterMark: int, highWaterMark: int, minimumServiceCount: int)
      returns (r: Result<QueueWatermark>)
      ensures r.Ok? <==> queue != null && queueName != "" && deployer != null && highWaterMark != 0
      ensures r.Ok? ==> fresh(r.value) && r.value.queue == queue && r.value.queueName == queueName
      ensures r.Ok? ==> r.value.deployer == deployer
      ensures r.Ok? ==> r.value.Marks() == Watermark(lowWaterMark, highWaterMark, minimumServiceCount, 0, 0)
    {
      if queue == null {
        return Err("a queue must be provided");
      }
      if queueName == "" {
        return Err("queueName must not be blank");
      }
      if deployer == null {
        return Err("a deployer must be provided");
      }
      if highWaterMark == 0 {
        return Err("high watermarks must be larger than zero");
      }
      var scaler := new QueueWatermark(queue, queueName, deployer, lowWaterMark, highWaterMark, minimumServiceCount);
      r := Ok(scaler);
    }

    function Marks(): Watermark
      reads this
    {
      Watermark(
        lowWaterMark, highWaterMark, minimumServiceCount, lowWatermarkViolationCount, highWatermarkViolationCount)
    }

    function State(): Service
      reads this, deployer, deployer.daemon
    {
      Service(Marks(), deployer.requestedServiceCount, deployer.Running())
    }

    /** The round that a check would see now, if the queue `answers` or not. */
    function Now(answers: bool): (round: Round)
      reads queue, deployer.daemon
      ensures round.items == if answers then Some(|queue.Items(queueName)|) else None
      ensures round.listing == deployer.daemon.listing && round.changes == deployer.daemon.changes
    {
      Round(
        if answers then Some(|queue.Items(queueName)|) else None, deployer.daemon.listing, deployer.daemon.changes)
    }

    method ScaleAutomatic(answers: bool) returns (direction: string, scaled: bool, ok: bool)
      requires deployer.daemon.Valid()
      modifies this, deployer, deployer.daemon
      ensures deployer.daemon.Valid() && deployer.daemon.listing == old(deployer.daemon.listing)
      ensures State() == Tick(old(State()), old(Now(answers)))
      ensures Undisturbed(old(deployer.daemon.containers), deployer.daemon.containers, deployer.service)
      ensures var round := old(Now(answers));
              Reports(old(State()), Check(old(Marks()), Observed(old(State()), round)), round.listing, round.changes,
                      direction, scaled, ok)
    {
      UndisturbedByNothing(deployer.daemon.containers, deployer.service);
      hide Undisturbed, Services, Docker.Running, Daemon.Valid;
      if deployer.IsDeploying() {
        return "none", false, true;
      }
      if minimumServiceCount > 0 {
        var currentServiceCount := deployer.Count();
        if currentServiceCount.None? {
          return "none", false, false;
        }
        if currentServiceCount.value < minimumServiceCount {
          ok := ScaleUp();
          return "up", true, ok;
        }
      }
      if !answers {
        return "none", false, false;
      }
      direction, scaled, ok := CheckWatermarks(|queue.Items(queueName)|);
    }

    /** The second half of a check, once the length of the queue is known. */
    method CheckWatermarks(itemCount: int) returns (direction: string, scaled: bool, ok: bool)
      requires deployer.daemon.Valid() && !deployer.IsDeploying()
      requires minimumServiceCount > 0 ==> deployer.daemon.listing && deployer.Running() >= minimumServiceCount
      modifies this, deployer, deployer.daemon
      ensures deployer.daemon.Valid() && deployer.daemon.listing == old(deployer.daemon.listing)
      ensures State() == Act(old(State()), Compare(old(Marks()), itemCount),
                             old(deployer.daemon.listing), old(deployer.daemon.changes))
      ensures Reports(old(State()), Compare(old(Marks()), itemCount),
                      old(deployer.daemon.listing), old(deployer.daemon.changes), direction, scaled, ok)
      ensures Undisturbed(old(deployer.daemon.containers), deployer.daemon.containers, deployer.service)
    {
      UndisturbedByNothing(deployer.daemon.containers, deployer.service);
      hide Undisturbed, Services, Docker.Running, Daemon.Valid, Shift, Request;
      if itemCount <= lowWaterMark {
        var exceeded := CountLow();
        if exceeded {
          ok := ScaleDown();
          return "down", true, ok;
        }
      }
      if itemCount >= highWaterMark {
        var exceeded := CountHigh();
        if exceeded {
          ok := ScaleUp();
          return "up", true, ok;
        }
      }
      return "none", false, true;
    }

    method CountLow() returns (exceeded: bool)
      modifies this`lowWatermarkViolationCount
      ensures exceeded == (old(lowWatermarkViolationCount) + 1 >= 10)
      ensures lowWatermarkViolationCount == if exceeded then 0 else old(lowWatermarkViolationCount) + 1
    {
      lowWatermarkViolationCount := lowWatermarkViolationCount + 1;
      exceeded := lowWatermarkViolationCount >= VIOLATION_MAX;
      if exceeded {
        lowWatermarkViolationCount := 0;
      }
    }

    method CountHigh() returns (exceeded: bool)
      modifies this`highWatermarkViolationCount
      ensures exceeded == (old(highWatermarkViolationCount) + 1 >= 10)
      ensures highWatermarkViolationCount == if exceeded then 0 else old(highWatermarkViolationCount) + 1
    {
      highWatermarkViolationCount := highWatermarkViolationCount + 1;
      exceeded := highWatermarkViolationCount >= VIOLATION_MAX;
      if exceeded {
        highWatermarkViolationCount := 0;
      }
    }

    method ScaleUp() returns (ok: bool)
      requires deployer.daemon.Valid()
      modifies deployer, deployer.daemon
      ensures deployer.daemon.Valid() && deployer.daemon.listing == old(deployer.daemon.listing)
      ensures State() == Shift(old(State()), if old(deployer.IsDeploying()) then 0 else 1, old(deployer.daemon.changes))
      ensures ok == (!old(deployer.IsDeploying()) && old(deployer.daemon.changes) > 1)
      ensures Undisturbed(old(deployer.daemon.containers), deployer.daemon.containers, deployer.service)
    {
      ok := deployer.Increase();
    }

    method ScaleDown() returns (ok: bool)
      requires deployer.daemon.Valid()
      modifies deployer, deployer.daemon
      ensures deployer.daemon.Valid() && deployer.daemon.listing == old(deployer.daemon.listing)
      ensures old(deployer.IsDeploying()) ==> State() == old(State())
      ensures !old(deployer.IsDeploying()) ==>
                var wanted := Request(Down, old(State()), old(deployer.daemon.listing));
                && State() == Shift(old(State()), wanted, old(deployer.daemon.changes))
                && ok == (old(deployer.daemon.listing) && (old(deployer.daemon.changes) > 0 || wanted == 0))
      ensures Undisturbed(old(deployer.daemon.containers), deployer.daemon.containers, deployer.service)
    {
      UndisturbedByNothing(deployer.daemon.containers, deployer.service);
      var currentServiceCount := deployer.Count();
      if currentServiceCount.None? {
        return false;
      }
      var proposedServiceCount := currentServiceCount.value as int - 1;
      if proposedServiceCount < minimumServiceCount {
        return true;
      }
      ok := deployer.Decrease();
    }

    method ScaleToZero() returns (ok: bool)
      requires deployer.daemon.Valid()
      modifies this, deployer, deployer.daemon
      ensures deployer.daemon.Valid() && Marks() == old(Marks()).(minimum := 0)
      ensures var running := old(deployer.Running());
              var gone := if old(deployer.daemon.listing) then Min(running, old(deployer.daemon.changes)) else 0;
              && State() == Service(Marks(), 0, running - gone)
              && ok == (old(deployer.daemon.listing) && gone == running)
      ensures Undisturbed(old(deployer.daemon.containers), deployer.daemon.containers, deployer.service)
    {
      hide Undisturbed, Services, Daemon.Valid;
      minimumServiceCount := 0;
      ok := deployer.RemoveAll();
    }

    /** A container of this service exits. */
    method LosesInstance(c: Container)
      requires deployer.daemon.Valid() && c in Services(deployer.daemon.containers, deployer.service)
      modifies deployer.daemon
      ensures deployer.daemon.Valid() && old(State()).running > 0 && State() == Dies(old(State()))
      ensures Undisturbed(old(deployer.daemon.containers), deployer.daemon.containers, deployer.service)
    {
      deployer.InstanceExits(c);
    }
  }

  // ----- Several services on one daemon (manager.go) --------------------------------------------

  function Names(scalers: seq<QueueWatermark>): seq<string> {
    seq(|scalers|, i requires 0 <= i < |scalers| => scalers[i].deployer.service)
  }

  /** The scalers have deployers of their own, one daemon, and services that cannot be taken for one another. */
  ghost predicate Fleet(scalers: seq<QueueWatermark>, daemon: Daemon)
    reads daemon
  {
    && daemon.Valid() && AllApart(daemon.containers, Names(scalers))
    && (forall i :: 0 <= i < |scalers| ==> scalers[i].deployer.daemon == daemon)
    && forall i, j :: 0 <= i < |scalers| && 0 <= j < |scalers| && i != j
         ==> scalers[i] != scalers[j] && scalers[i].deployer != scalers[j].deployer
  }

  ghost predicate AllApart(containers: seq<Container>, services: seq<string>) {
    forall i, j :: 0 <= i < |services| && 0 <= j < |services| && i != j ==> Apart(containers, services[i], services[j])
  }

  lemma {:induction false} OthersApart(before: seq<Container>, after: seq<Container>, services: seq<string>, i: nat)
    requires i < |services| && AllApart(before, services) && Undisturbed(before, after, services[i])
    ensures AllApart(after, services)
    ensures forall k :: 0 <= k < |services| && k != i ==> Services(after, services[k]) == Services(before, services[k])
  {
    hide Apart, Services, Others;
    forall j, k | 0 <= j < |services| && 0 <= k < |services| && j != k
      ensures Apart(after, services[j], services[k])
    {
      ApartIsSymmetric(before, services[j], services[k]);
      ApartIsSymmetric(after, services[j], services[k]);
      if j != i {
        assert Apart(before, services[i], services[j]);
      }
      if k != i {
        assert Apart(before, services[i], services[k]);
      }
    }
    forall k | 0 <= k < |services| && k != i
      ensures Services(after, services[k]) == Services(before, services[k])
    {
      assert Apart(before, services[i], services[k]);
    }
  }

  lemma {:induction false} ApartIsSymmetric(containers: seq<Container>, a: string, b: string)
    ensures Apart(containers, a, b) <==> Apart(containers, b, a)
  {
  }

  /**
   * One round over all services. Each one checked ends as if it had been alone with what the daemon was
   * still good for, whatever the others did before or after it; a failing check ends the round, and the
   * services after it are left as they were.
   */
  method ScaleRound(scalers: seq<QueueWatermark>, daemon: Daemon, answers: seq<bool>)
    returns (ok: bool, ghost rounds: seq<Round>)
    requires Fleet(scalers, daemon) && |answers| == |scalers|
    modifies set s | s in scalers :: s, set s | s in scalers :: s.deployer, daemon
    ensures Fleet(scalers, daemon)
    ensures |rounds| <= |scalers| && (ok ==> |rounds| == |scalers|)
    ensures forall i :: 0 <= i < |rounds|
              ==> && scalers[i].State() == Tick(old(scalers[i].State()), rounds[i])
                  && rounds[i].items == old(scalers[i].Now(answers[i])).items
                  && rounds[i].listing == old(daemon.listing)
    ensures forall i :: |rounds| <= i < |scalers| ==> scalers[i].State() == old(scalers[i].State())
  {
    hide Tick, Check, Undisturbed, AllApart, Services, Daemon.Valid, Reports;
    rounds := [];
    for i := 0 to |scalers|
      invariant Fleet(scalers, daemon) && |rounds| == i && daemon.listing == old(daemon.listing)
      invariant forall k :: 0 <= k < i
                  ==> && scalers[k].State() == Tick(old(scalers[k].State()), rounds[k])
                      && rounds[k].items == old(scalers[k].Now(answers[k])).items
                      && rounds[k].listing == old(daemon.listing)
      invariant forall k :: i <= k < |scalers| ==> scalers[k].State() == old(scalers[k].State())
    {
      ghost var before := daemon.containers;
      rounds := rounds + [scalers[i].Now(answers[i])];
      assert scalers[i] in scalers;
      label Unscaled:
      var direction, shouldScale, fine := scalers[i].ScaleAutomatic(answers[i]);
      OthersApart(before, daemon.containers, Names(scalers), i);
      forall k | 0 <= k < |scalers| && k != i
        ensures scalers[k].State() == old@Unscaled(scalers[k].State())
      {
        assert scalers[k].deployer.Running() == |Services(daemon.containers, Names(scalers)[k])|;
        assert Services(daemon.containers, Names(scalers)[k]) == Services(before, Names(scalers)[k]);
      }
      if !fine {
        return false, rounds;
      }
    }
    ok := true;
  }
}
