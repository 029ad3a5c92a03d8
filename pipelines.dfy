/** The build pipelines: building one deck with an optional part
    whitelist, building every deck until one fails, and the watch mode's
    debounced event handler and watched directories.

    Parsing, the builds themselves, the clock, threads and the file system
    are outside the model: their outcomes come in as parameters. */
module Pipelines {
  import opened Common
  import Dicts
  import Paths
  import opened Decks

  /** `run` after parsing: the whitelist, when there is one, goes through
      `Deck.filter`, whose `ValueError` escapes; without one the deck is
      built whole.  `Ok` means the deck was handed to the build. */
  method Run(deck: Deck, whitelist: Option<seq<string>>) returns (r: Result<()>)
    requires deck.Valid()
    modifies deck
    ensures deck.Valid() && deck.name == old(deck.name)
    ensures whitelist.None? ==> r.Ok? && deck.parts == old(deck.parts)
    ensures whitelist.Some? ==>
      (r.Err? <==> !(Elements(whitelist.value) <= Dicts.Keys(old(deck.parts))))
    ensures whitelist.Some? && r.Ok? ==>
      deck.parts == Dicts.Restrict(old(deck.parts), Elements(whitelist.value))
    ensures r.Err? ==> deck.parts == old(deck.parts)
  {
    if whitelist.Some? {
      r := deck.Filter(whitelist.value);
      if r.Err? {
        return;
      }
    }
    r := Ok(());
  }

  /** Index of the first `false` in `outcomes`, or its length when every
      outcome is `true`. */
  function FirstFailure(outcomes: seq<bool>): (n: nat)
    ensures n <= |outcomes|
    ensures forall i :: 0 <= i < n ==> outcomes[i]
    ensures n < |outcomes| ==> !outcomes[n]
  {
    if |outcomes| == 0 then 0
    else if !outcomes[0] then 0
    else 1 + FirstFailure(outcomes[1..])
  }

  /** `run_all`: `outcomes[i]` is what building the i-th deck reports.
      Decks are built in order; the loop stops right after the first deck
      whose build reports failure, and the progress bar advances once per
      successful build.  `built` counts the builds started. */
  method RunAll(outcomes: seq<bool>) returns (built: nat, advanced: nat)
    ensures advanced == FirstFailure(outcomes)
    ensures built == if advanced < |outcomes| then advanced + 1 else |outcomes|
  {
    built, advanced := 0, 0;
    while built < |outcomes|
      invariant advanced == built <= |outcomes|
      invariant forall i :: 0 <= i < built ==> outcomes[i]
    {
      var result := outcomes[built];
      built := built + 1;
      if !result {
        FirstFailureAt(outcomes, built - 1);
        return;
      }
      advanced := advanced + 1;
    }
    FirstFailureAt(outcomes, |outcomes|);
  }

  /** The first failure is the one after a run of successes that ends at
      a failure or at the end. */
  lemma {:induction false} FirstFailureAt(outcomes: seq<bool>, n: nat)
    requires n <= |outcomes|
    requires forall i :: 0 <= i < n ==> outcomes[i]
    requires n < |outcomes| ==> !outcomes[n]
    ensures FirstFailure(outcomes) == n
  {
    if n > 0 {
      FirstFailureAt(outcomes[1..], n - 1);
    }
  }

  /** `dirs_to_avoid`: the avoided roots and every directory below them.
      `subdirs(root)` is the set of resolved directories `rglob` finds
      under `root`. */
  function AvoidedDirs(avoid: set<Paths.Path>, subdirs: Paths.Path -> set<Paths.Path>): (r: set<Paths.Path>)
    ensures forall d :: d in r <==> d in avoid || exists a :: a in avoid && d in subdirs(a)
  {
    avoid + set a, d | a in avoid && d in subdirs(a) :: d
  }

  /** `dirs_to_watch`: every watched root, even one that is also avoided,
      and every directory below a watched root that is neither an avoided
      root nor below one. */
  function WatchedDirs(watch: set<Paths.Path>, avoid: set<Paths.Path>,
                       subdirs: Paths.Path -> set<Paths.Path>): (r: set<Paths.Path>)
    ensures forall d :: d in r <==>
      d in watch ||
      ((exists w :: w in watch && d in subdirs(w)) &&
       d !in avoid && !(exists a :: a in avoid && d in subdirs(a)))
  {
    var avoided := AvoidedDirs(avoid, subdirs);
    watch + set w, d | w in watch && d in subdirs(w) && d !in avoided :: d
  }

  /** Times `accepted` are spaced by at least `delay`, the first one at
      least `delay` after time zero. */
  ghost predicate Spaced(accepted: seq<real>, delay: int) {
    (|accepted| > 0 ==> delay as real <= accepted[0]) &&
    forall i :: 0 < i < |accepted| ==> accepted[i - 1] + delay as real <= accepted[i]
  }

  /** With a non-negative delay, any two accepted dispatches are apart by
      the delay times the number of dispatches between them. */
  lemma {:induction false} SpacedApart(accepted: seq<real>, delay: int, i: nat, j: nat)
    requires Spaced(accepted, delay) && 0 <= delay
    requires i <= j < |accepted|
    ensures accepted[i] + ((j - i) * delay) as real <= accepted[j]
  {
    if i < j {
      SpacedApart(accepted, delay, i, j - 1);
      assert accepted[j - 1] + delay as real <= accepted[j];
    }
  }

  const InitialBuild := "Initial build"
  const NewBuild := "Detected changes, starting a new build"
  const BuildFinished := "Build finished"
  const StillBuilding := "Still on last build, not starting a new build"

  /** `_BaseEventHandler`.  A worker thread is named by the number of
      workers started before it, counted in `workersStarted`; whether it is still alive is reported by
      the caller of `Dispatch`.  `log` holds the messages logged at info
      level or above, and `accepted` the times of the dispatches that
      started a worker. */
  class EventHandler {
    const minimumDelay: int
    var lastCompile: real
    var worker: Option<nat>
    var firstBuild: bool
    var compiling: bool
    var log: seq<string>
    var workersStarted: nat
    ghost var accepted: seq<real>

    /** `last_compile` is the time of the last accepted dispatch (zero
        before any) and the current worker the last one started. */
    ghost predicate Valid()
      reads this
    {
      Spaced(accepted, minimumDelay) &&
      workersStarted == |accepted| &&
      (|accepted| == 0 ==> lastCompile == 0.0 && worker.None?) &&
      (|accepted| > 0 ==>
        lastCompile == accepted[|accepted| - 1] && worker == Some(|accepted| - 1))
    }

    constructor(minimumDelay: int)
      ensures Valid() && this.minimumDelay == minimumDelay
      ensures firstBuild && !compiling && log == [] && accepted == []
    {
      this.minimumDelay := minimumDelay;
      lastCompile := 0.0;
      worker := None;
      firstBuild := true;
      compiling := false;
      log := [];
      workersStarted := 0;
      accepted := [];
    }

    /** `dispatch`: an event at time `now` is ignored while the last
        accepted one is less than the minimum delay old, and while the
        current worker, if any, is `alive`; an ignored event changes
        nothing and is not kept for later.  Otherwise the event is accepted
        at `now` and exactly one new worker starts. */
    method Dispatch(now: real, alive: bool) returns (started: bool)
      requires Valid()
      modifies this
      ensures Valid()
      ensures started <==>
        old(lastCompile) + minimumDelay as real <= now && !(old(worker).Some? && alive)
      ensures !started ==>
        lastCompile == old(lastCompile) && worker == old(worker) && accepted == old(accepted)
      ensures started ==>
        lastCompile == now && accepted == old(accepted) + [now] &&
        worker == Some(|old(accepted)|) && (old(worker).None? || !alive)
      ensures log == old(log) +
        (if old(lastCompile) + minimumDelay as real <= now && old(worker).Some? && alive
         then [StillBuilding] else [])
      ensures firstBuild == old(firstBuild) && compiling == old(compiling)
    {
      if lastCompile + minimumDelay as real > now {
        return false;
      }
      if worker.Some? && alive {
        log := log + [StillBuilding];
        return false;
      }
      lastCompile := now;
      worker := Some(workersStarted);
      workersStarted := workersStarted + 1;
      accepted := accepted + [now];
      return true;
    }

    /** `__call__`: `failure` is the message of the exception the build
        raises, if any.  Only the first call logs the initial build; the
        exception is logged, never propagated, and `compiling` is down
        again on return. */
    method Call(failure: Option<string>) returns (initial: bool)
      modifies this
      ensures initial == old(firstBuild) && !firstBuild && !compiling
      ensures log == old(log) + [if initial then InitialBuild else NewBuild] +
        [if failure.None? then BuildFinished else failure.value]
      ensures lastCompile == old(lastCompile) && worker == old(worker)
      ensures workersStarted == old(workersStarted) && accepted == old(accepted)
    {
      compiling := true;
      initial := firstBuild;
      if firstBuild {
        firstBuild := false;
        log := log + [InitialBuild];
      } else {
        log := log + [NewBuild];
      }
      match failure {
        case None => log := log + [BuildFinished];
        case Some(message) => log := log + [message];
      }
      compiling := false;
    }
  }
}
