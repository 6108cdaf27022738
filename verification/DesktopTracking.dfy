/**
  Following the desktop that receives input (sign-in, lock screen, UAC prompt): an in-session
  helper polls and reports it, the service restarts capture there and relaunches the helper on
  it. Lines of a helper that has been replaced may still be delivered, late, or get lost.
 */
module DesktopTracking {
  import opened Common

  // ---- The service side ----

  /** What the service believes, and how many helper relaunches it has scheduled. */
  datatype Service = Service(
    input: Option<string>,
    helperDesktop: Option<string>,
    capture: Option<string>,
    relaunches: nat)

  /** A reported name: ignored when empty or already known, otherwise capture moves there. */
  function Report(s: Service, name: string): Service {
    if name == "" || s.input == Some(name) then s
    else s.(input := Some(name), capture := Some(name),
            relaunches := s.relaunches + if s.helperDesktop == Some(name) then 0 else 1)
  }

  function Relaunched(s: Service): Service
    requires s.relaunches > 0
  {
    s.(helperDesktop := s.input, relaunches := s.relaunches - 1)
  }

  function Recaptured(s: Service): Service {
    s.(capture := s.input)
  }

  class ShadowSession {
    var inputDesktop: Option<string>
    var helperDesktop: Option<string>
    var captureDesktop: Option<string>
    var helperGeneration: nat
    var scheduledRelaunches: nat

    constructor ()
      ensures State() == Service(None, None, None, 0) && helperGeneration == 1
    {
      inputDesktop, helperDesktop, captureDesktop := None, None, None;
      helperGeneration, scheduledRelaunches := 1, 0;
    }

    ghost function State(): Service
      reads this
    {
      Service(inputDesktop, helperDesktop, captureDesktop, scheduledRelaunches)
    }

    /** Launches ffmpeg on the desktop believed to receive input. */
    method StartCapture()
      modifies this
      ensures State() == Recaptured(old(State())) && helperGeneration == old(helperGeneration)
    {
      captureDesktop := inputDesktop;
    }

    /** A "desktop" line from some helper; the name may be missing. */
    method HandleDesktop(name: Option<string>)
      modifies this
      ensures State() == match name case None => old(State()) case Some(n) => Report(old(State()), n)
      ensures helperGeneration == old(helperGeneration)
    {
      if name == None || name.value == "" || name == inputDesktop {
        return;
      }
      inputDesktop := name;
      StartCapture();
      if helperDesktop != name {
        scheduledRelaunches := scheduledRelaunches + 1;
      }
    }

    /** One scheduled stop-and-start of the helper. */
    method RelaunchHelper()
      requires scheduledRelaunches > 0
      modifies this
      ensures State() == Relaunched(old(State())) && helperGeneration == old(helperGeneration) + 1
    {
      scheduledRelaunches := scheduledRelaunches - 1;
      helperGeneration := helperGeneration + 1;
      helperDesktop := inputDesktop;
    }
  }

  // ---- The in-session side ----

  /** What a helper that last reported `last` reports when the console shows `name`: a name once, until it changes. */
  function Noticed(last: Option<string>, name: string): Option<string> {
    if last == Some(name) then None else Some(name)
  }

  // ---- Both processes and the lines between them ----

  /** `live` holds the undelivered lines of the current helper, `stale` those of replaced ones. */
  datatype World = World(
    console: string,
    service: Service,
    reported: Option<string>,
    live: seq<string>,
    stale: seq<seq<string>>)

  datatype Step =
    | Poll                    // the current helper notices a desktop it has not reported
    | Deliver                 // the service reads a line of the current helper
    | DeliverStale(g: nat)    // ... or of a replaced one
    | LoseStale(g: nat)       // a line of a replaced helper dies with its pipe
    | Relaunch                // a scheduled relaunch runs
    | Resize                  // the browser asks for another size: capture restarts
    | Switch(name: string)    // the console moves to another desktop

  /** Steps the two processes take on their own, as opposed to what happens to them. */
  predicate Internal(step: Step) {
    !step.Resize? && !step.Switch?
  }

  predicate Enabled(w: World, step: Step) {
    match step
    case Poll => Noticed(w.reported, w.console).Some?
    case Deliver => w.live != []
    case DeliverStale(g) => g < |w.stale| && w.stale[g] != []
    case LoseStale(g) => g < |w.stale| && w.stale[g] != []
    case Relaunch => w.service.relaunches > 0
    case Resize => true
    case Switch(_) => true
  }

  function Take(w: World, step: Step): World
    requires Enabled(w, step)
  {
    match step
    case Poll =>
      var line := Noticed(w.reported, w.console).value;
      w.(reported := Some(line), live := w.live + [line])
    case Deliver => w.(service := Report(w.service, w.live[0]), live := w.live[1..])
    case DeliverStale(g) =>
      w.(service := Report(w.service, w.stale[g][0]), stale := w.stale[g := w.stale[g][1..]])
    case LoseStale(g) => w.(stale := w.stale[g := w.stale[g][1..]])
    case Relaunch => w.(service := Relaunched(w.service), reported := None, live := [], stale := w.stale + [w.live])
    case Resize => w.(service := Recaptured(w.service))
    case Switch(name) => w.(console := name)
  }

  function Start(console: string): World {
    World(console, Service(None, None, None, 0), None, [], [])
  }

  /** The in-session end: reports a name once, until it changes. */
  class SessionHelper {
    var lastDesktop: Option<string>

    constructor ()
      ensures lastDesktop == None
    {
      lastDesktop := None;
    }

    /**
      One round of polling while the world is w. Without a name nothing happens; with the
      console's name, it is the world's Poll step if that is enabled, the line sent being the
      one that joins the live lines, and nothing if it is not.
     */
    method SyncInputDesktop(ghost w: World, name: Option<string>) returns (line: Option<string>)
      requires w.reported == lastDesktop && (name == None || name == Some(w.console))
      modifies this
      ensures line.Some? <==> name.Some? && Enabled(w, Poll)
      ensures line.Some? ==> Take(w, Poll) == w.(reported := lastDesktop, live := w.live + [line.value])
      ensures line == None ==> lastDesktop == old(lastDesktop)
    {
      if name == None || name == lastDesktop {
        return None;
      }
      lastDesktop := name;
      return name;
    }
  }

  ghost predicate CanRun(w: World, steps: seq<Step>)
    decreases |steps|
  {
    steps == [] || (Enabled(w, steps[0]) && CanRun(Take(w, steps[0]), steps[1..]))
  }

  function Run(w: World, steps: seq<Step>): World
    requires CanRun(w, steps)
    decreases |steps|
  {
    if steps == [] then w else Run(Take(w, steps[0]), steps[1..])
  }

  // ---- What every run keeps ----

  /**
    Unless a relaunch is scheduled, the helper runs where input is believed to be, and what
    it last reported is either on its way or already believed - whatever stale lines say.
   */
  ghost predicate Consistent(w: World) {
    var s := w.service;
    && s.capture == s.input
    && s.input != Some("")
    && (s.relaunches == 0 ==> s.helperDesktop == s.input)
    && (s.relaunches == 0 && w.reported.Some? && w.reported != Some("") ==>
          if w.live == [] then s.input == w.reported else Some(w.live[|w.live| - 1]) == w.reported)
  }

  lemma StepKeepsConsistent(w: World, step: Step)
    requires Consistent(w) && Enabled(w, step)
    ensures Consistent(Take(w, step))
  {
  }

  lemma {:induction false} RunKeepsConsistent(w: World, steps: seq<Step>)
    requires Consistent(w) && CanRun(w, steps)
    ensures Consistent(Run(w, steps))
    decreases |steps|
  {
    if steps == [] {
    } else {
      StepKeepsConsistent(w, steps[0]);
      RunKeepsConsistent(Take(w, steps[0]), steps[1..]);
    }
  }

  // ---- No needless relaunch ----

  ghost predicate AllName(lines: seq<string>, desktop: string) {
    forall k | 0 <= k < |lines| :: lines[k] == desktop
  }

  /** Every line in flight names the desktop the helper runs on. */
  ghost predicate HelperIsThere(w: World) {
    && w.service.helperDesktop.Some?
    && AllName(w.live, w.service.helperDesktop.value)
    && forall g | 0 <= g < |w.stale| :: AllName(w.stale[g], w.service.helperDesktop.value)
  }

  /** Then no step schedules a relaunch, whatever the service believes; and one runs only if it was scheduled. */
  lemma NoNeedlessRelaunch(w: World, step: Step)
    requires Enabled(w, step) && HelperIsThere(w)
    ensures Take(w, step).service.relaunches == w.service.relaunches - if step == Relaunch then 1 else 0
  {
    if step.Deliver? {
      assert w.live[0] == w.service.helperDesktop.value;
    }
  }

  /** A line that names another desktop schedules one, exactly when the service did not know that desktop yet. */
  lemma NeededRelaunch(w: World)
    requires w.live != [] && w.live[0] != "" && w.service.helperDesktop != Some(w.live[0])
    ensures Take(w, Deliver).service.relaunches > w.service.relaunches <==> w.service.input != Some(w.live[0])
    ensures Take(w, Deliver).service.input == Some(w.live[0])
  {
  }

  // ---- Convergence ----

  function Others(lines: seq<string>, name: string): nat {
    if lines == [] then 0 else (if lines[0] == name then 0 else 1) + Others(lines[1..], name)
  }

  /** 7 for every line naming another desktop, 1 for every line naming `name`. */
  function Weight(lines: seq<string>, name: string): nat {
    6 * Others(lines, name) + |lines|
  }

  function Weights(queues: seq<seq<string>>, name: string): nat {
    if queues == [] then 0 else Weight(queues[0], name) + Weights(queues[1..], name)
  }

  /** An upper bound on the work left while the console stays on `w.console`. */
  function Work(w: World): nat {
    Weight(w.live, w.console) + Weights(w.stale, w.console)
    + (if w.service.input == Some(w.console) then 0 else 3)
    + 3 * w.service.relaunches
    + (if w.reported == Some(w.console) then 0 else 2)
  }

  lemma {:induction false} OthersAppend(lines: seq<string>, last: string, name: string)
    ensures Others(lines + [last], name) == Others(lines, name) + if last == name then 0 else 1
  {
    if lines == [] {
      assert [last][1..] == [];
    } else {
      assert (lines + [last])[1..] == lines[1..] + [last];
      OthersAppend(lines[1..], last, name);
    }
  }

  lemma {:induction false} WeightsUpdate(queues: seq<seq<string>>, g: nat, q: seq<string>, name: string)
    requires g < |queues|
    ensures Weights(queues[g := q], name) == Weights(queues, name) - Weight(queues[g], name) + Weight(q, name)
  {
    if g == 0 {
      assert queues[0 := q][1..] == queues[1..];
    } else {
      assert queues[g := q][1..] == queues[1..][g - 1 := q];
      WeightsUpdate(queues[1..], g - 1, q, name);
    }
  }

  lemma {:induction false} WeightsAppend(queues: seq<seq<string>>, q: seq<string>, name: string)
    ensures Weights(queues + [q], name) == Weights(queues, name) + Weight(q, name)
  {
    if queues == [] {
      assert [q][1..] == [];
    } else {
      assert (queues + [q])[1..] == queues[1..] + [q];
      WeightsAppend(queues[1..], q, name);
    }
  }

  /** Believing one line costs less than the line weighed. */
  lemma ReportWork(s: Service, line: string, console: string)
    ensures var t := Report(s, line);
            (if t.input == Some(console) then 0 else 3) + 3 * t.relaunches
              < (if s.input == Some(console) then 0 else 3) + 3 * s.relaunches + (if line == console then 1 else 7)
  {
  }

  lemma InternalStepWorks(w: World, step: Step)
    requires Enabled(w, step) && Internal(step)
    ensures Work(Take(w, step)) < Work(w) && Take(w, step).console == w.console
  {
    match step
    case Poll =>
      OthersAppend(w.live, w.console, w.console);
    case Deliver =>
      ReportWork(w.service, w.live[0], w.console);
    case DeliverStale(g) =>
      ReportWork(w.service, w.stale[g][0], w.console);
      WeightsUpdate(w.stale, g, w.stale[g][1..], w.console);
    case LoseStale(g) =>
      WeightsUpdate(w.stale, g, w.stale[g][1..], w.console);
    case Relaunch =>
      WeightsAppend(w.stale, w.live, w.console);
    case _ =>
  }

  ghost predicate Undisturbed(steps: seq<Step>) {
    forall s | s in steps :: Internal(s)
  }

  /** Tracking converges rather than looping: the number of steps is bounded from the outset. */
  lemma {:induction false} RunsAreShort(w: World, steps: seq<Step>)
    requires CanRun(w, steps) && Undisturbed(steps)
    ensures |steps| + Work(Run(w, steps)) <= Work(w)
    ensures Run(w, steps).console == w.console
    decreases |steps|
  {
    if steps == [] {
    } else {
      assert steps[0] in steps;
      InternalStepWorks(w, steps[0]);
      assert forall s | s in steps[1..] :: s in steps;
      RunsAreShort(Take(w, steps[0]), steps[1..]);
    }
  }

  ghost predicate Quiescent(w: World) {
    forall step | Internal(step) :: !Enabled(w, step)
  }

  lemma NoWorkLeft(w: World)
    requires Work(w) == 0
    ensures Quiescent(w)
  {
    forall step | Internal(step)
      ensures !Enabled(w, step)
    {
      if Enabled(w, step) {
        InternalStepWorks(w, step);
      }
    }
  }

  /** Service, helper and capture agree with the console. */
  ghost predicate OnTarget(w: World) {
    w.service.input == w.service.helperDesktop == w.service.capture == Some(w.console)
  }

  /** Where nothing more can happen, tracking has succeeded - exactly for nameable desktops. */
  lemma QuiescentMeansOnTarget(w: World)
    requires Consistent(w) && Quiescent(w)
    ensures OnTarget(w) <==> w.console != ""
  {
    assert !Enabled(w, Poll) && !Enabled(w, Deliver) && !Enabled(w, Relaunch);
  }

  /**
    Self-stabilisation. Whatever happened before (`history`), once the console stays put,
    every run of the two processes is at most Work(w) steps long, and when it cannot go on
    all three parties are on the desktop shown.
   */
  lemma Stabilises(first: string, history: seq<Step>, steps: seq<Step>)
    requires CanRun(Start(first), history)
    requires CanRun(Run(Start(first), history), steps) && Undisturbed(steps)
    ensures var w := Run(Start(first), history);
            var v := Run(w, steps);
            && |steps| <= Work(w)
            && v.console == w.console
            && (|steps| == Work(w) ==> Quiescent(v))
            && (Quiescent(v) ==> (OnTarget(v) <==> w.console != ""))
  {
    var w := Run(Start(first), history);
    RunKeepsConsistent(Start(first), history);
    RunsAreShort(w, steps);
    RunKeepsConsistent(w, steps);
    var v := Run(w, steps);
    if |steps| == Work(w) {
      NoWorkLeft(v);
    }
    if Quiescent(v) {
      QuiescentMeansOnTarget(v);
    }
  }
}
