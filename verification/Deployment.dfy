/**
  The life of a deployment: a forward pipeline, failure from any stage, and two kinds of
  retry. Every change of state appends a row to a history that is never rewritten.
 */
module Deployment {
  import opened Common

  datatype State = Pending | CreatingVm | Booting | InstallingOs | PostInstall | Configuring | Completed | Failed

  /** One row of the audit trail. */
  datatype Row = Row(from: State, to: State, detail: Option<string>)

  datatype Level = Info | Warn | Error

  datatype LogLine = LogLine(stage: State, message: string, level: Level)

  /** The columns of a deployment, its rows and its log. */
  datatype Record = Record(
    state: State,
    error: Option<string>,
    retries: nat,
    vm: Option<string>,
    rows: seq<Row>,
    log: seq<LogLine>)

  predicate Terminal(s: State) {
    s == Completed || s == Failed
  }

  predicate Allowed(from: State, to: State) {
    match from
    case Pending => to == CreatingVm || to == Failed
    case CreatingVm => to == Booting || to == Failed
    case Booting => to == InstallingOs || to == Failed
    case InstallingOs => to == PostInstall || to == Failed
    case PostInstall => to == Configuring || to == Failed
    case Configuring => to == Completed || to == Failed
    case _ => false
  }

  /** Python's truth value of an optional string. */
  predicate Truthy(s: Option<string>) {
    s.Some? && s.value != ""
  }

  // ---- One operation at a time ----

  predicate CanMove(r: Record, to: State) {
    !Terminal(r.state) && (to == Failed || Allowed(r.state, to))
  }

  function Moved(r: Record, to: State, detail: Option<string>): Record {
    r.(rows := r.rows + [Row(r.state, to, detail)],
       state := to,
       error := if to == Failed && Truthy(detail) then detail else r.error)
  }

  predicate CanRetry(r: Record) {
    r.state == Failed
  }

  function Retried(r: Record, detail: string): Record {
    r.(rows := r.rows + [Row(r.state, Pending, Some(detail))],
       state := Pending, error := None, retries := r.retries + 1, vm := None, log := [])
  }

  predicate CanRetryPostInstall(r: Record) {
    r.state == Failed && Truthy(r.vm)
  }

  function PostInstallRetried(r: Record, detail: string): Record {
    r.(rows := r.rows + [Row(r.state, InstallingOs, Some(detail))],
       state := InstallingOs, error := None, retries := r.retries + 1, log := [])
  }

  /** Stages in which Windows is installed and the machine is worth keeping. */
  predicate Keepable(s: State) {
    s == PostInstall || s == Configuring
  }

  /** The worker's failure handler: drop the machine unless worth keeping, then move to Failed if still possible. */
  function Abandoned(r: Record, message: string): Record {
    var kept := r.(vm := if Truthy(r.vm) && !Keepable(r.state) then None else r.vm);
    if CanMove(kept, Failed) then Moved(kept, Failed, Some(message)) else kept
  }

  datatype Status = Done | InvalidTransition

  class Deployment {
    var state: State
    var errorMessage: Option<string>
    var retryCount: nat
    var vmMoref: Option<string>
    var transitions: seq<Row>
    var logLines: seq<LogLine>

    constructor ()
      ensures Columns() == NEW
    {
      state, errorMessage, retryCount, vmMoref := Pending, None, 0, None;
      transitions, logLines := [], [];
    }

    ghost function Columns(): Record
      reads this
    {
      Record(state, errorMessage, retryCount, vmMoref, transitions, logLines)
    }

    method Transition(to: State, detail: Option<string>) returns (status: Status)
      modifies this
      ensures status == Done <==> CanMove(old(Columns()), to)
      ensures old(state) != Completed && old(state) != Failed && to == Failed ==> status == Done && state == Failed
      ensures Columns() == if status == Done then Moved(old(Columns()), to, detail) else old(Columns())
    {
      if state == Completed || state == Failed {
        return InvalidTransition;
      }
      if to != Failed && !Allowed(state, to) {
        return InvalidTransition;
      }
      transitions := transitions + [Row(state, to, detail)];
      state := to;
      if to == Failed && detail.Some? && detail.value != "" {
        errorMessage := detail;
      }
      return Done;
    }

    method Log(stage: State, message: string, level: Level)
      modifies this`logLines
      ensures logLines == old(logLines) + [LogLine(stage, message, level)]
    {
      logLines := logLines + [LogLine(stage, message, level)];
    }

    method RetryDeployment(detail: string) returns (status: Status)
      modifies this
      ensures status == Done <==> old(state) == Failed
      ensures Columns() == if status == Done then Retried(old(Columns()), detail) else old(Columns())
    {
      if state != Failed {
        return InvalidTransition;
      }
      logLines := [];
      transitions := transitions + [Row(state, Pending, Some(detail))];
      state := Pending;
      errorMessage := None;
      retryCount := retryCount + 1;
      vmMoref := None;
      return Done;
    }

    method RetryPostInstall(detail: string) returns (status: Status)
      modifies this
      ensures status == Done <==> old(state) == Failed && old(vmMoref).Some? && old(vmMoref).value != ""
      ensures Columns() == if status == Done then PostInstallRetried(old(Columns()), detail) else old(Columns())
    {
      if state != Failed || vmMoref == None || vmMoref.value == "" {
        return InvalidTransition;
      }
      logLines := [];
      transitions := transitions + [Row(state, InstallingOs, Some(detail))];
      state := InstallingOs;
      errorMessage := None;
      retryCount := retryCount + 1;
      return Done;
    }

    /** The worker's `_fail`, as far as it touches the deployment; log lines aside. */
    method Fail(message: string)
      modifies this
      ensures var before := old(Columns());
              Columns() == Abandoned(before, message).(log := logLines) && before.log <= logLines
    {
      ghost var before := Columns();
      Log(state, message, Error);
      if vmMoref.Some? && vmMoref.value != "" && (state == PostInstall || state == Configuring) {
        Log(state, "Windows was already installed when this failed - the VM was kept", Info);
      } else if vmMoref.Some? && vmMoref.value != "" {
        vmMoref := None;
      }
      ghost var kept := Columns();
      assert kept == before.(
        vm := if Truthy(before.vm) && !Keepable(before.state) then None else before.vm,
        log := logLines);
      var _ := Transition(Failed, Some(message));
    }

    /** The worker records the machine it has created. */
    method AttachVm(vm: string)
      requires state == CreatingVm
      modifies this`vmMoref
      ensures vmMoref == Some(vm)
    {
      vmMoref := Some(vm);
    }
  }

  // ---- Runs ----

  const NEW := Record(Pending, None, 0, None, [], [])

  datatype Event =
    | Advance(to: State, note: Option<string>)   // a pipeline stage is reached; never Failed
    | Attach(vm: string)                         // the machine exists
    | Fail(message: string)                      // the worker gives up
    | Retry(reason: string)
    | RetryPost(reason: string)

  predicate Possible(r: Record, e: Event) {
    match e
    case Advance(to, _) => to != Failed && CanMove(r, to)
    case Attach(_) => r.state == CreatingVm
    case Fail(_) => true
    case Retry(_) => CanRetry(r)
    case RetryPost(_) => CanRetryPostInstall(r)
  }

  function After(r: Record, e: Event): Record {
    match e
    case Advance(to, note) => Moved(r, to, note)
    case Attach(vm) => r.(vm := Some(vm))
    case Fail(message) => Abandoned(r, message)
    case Retry(reason) => Retried(r, reason)
    case RetryPost(reason) => PostInstallRetried(r, reason)
  }

  /** An event that cannot happen is refused and changes nothing. */
  function Step(r: Record, e: Event): Record {
    if Possible(r, e) then After(r, e) else r
  }

  /** A new deployment after the first n events. */
  function Run(events: seq<Event>, n: nat): Record
    requires n <= |events|
  {
    if n == 0 then NEW else Step(Run(events, n - 1), events[n - 1])
  }

  // ---- The history agrees with the columns ----

  function Last(rows: seq<Row>): State {
    if rows == [] then Pending else rows[|rows| - 1].to
  }

  /** Rows hang together, starting at Pending. */
  ghost predicate Chain(rows: seq<Row>) {
    && (rows != [] ==> rows[0].from == Pending)
    && (forall i, j | 0 <= i && i + 1 == j < |rows| :: rows[i].to == rows[j].from)
  }

  function Leaving(rows: seq<Row>, s: State): nat {
    if rows == [] then 0 else Leaving(rows[..|rows| - 1], s) + if rows[|rows| - 1].from == s then 1 else 0
  }

  lemma LeavingAppend(rows: seq<Row>, row: Row, s: State)
    ensures Leaving(rows + [row], s) == Leaving(rows, s) + if row.from == s then 1 else 0
  {
    assert (rows + [row])[..|rows|] == rows;
  }

  /** The most rows a state can still add without a retry. */
  function StagesLeft(s: State): nat {
    match s
    case Pending => 6
    case CreatingVm => 5
    case Booting => 4
    case InstallingOs => 3
    case PostInstall => 2
    case Configuring => 1
    case _ => 0
  }

  /** The message the last row asks for, as `error_message` shows it. */
  function Shown(rows: seq<Row>): Option<string> {
    if Last(rows) == Failed && Truthy(rows[|rows| - 1].detail) then rows[|rows| - 1].detail else None
  }

  ghost predicate Audited(r: Record) {
    && Chain(r.rows) && Last(r.rows) == r.state
    && Leaving(r.rows, Completed) == 0
    && Leaving(r.rows, Failed) == r.retries
    && |r.rows| + StagesLeft(r.state) <= 7 * r.retries + 6
    && r.error == Shown(r.rows)
  }

  lemma AppendKeepsChain(rows: seq<Row>, row: Row)
    requires Chain(rows) && row.from == Last(rows)
    ensures Chain(rows + [row]) && Last(rows + [row]) == row.to
  {
  }

  /** What one more row does to an audited record. */
  lemma RowKeepsAudited(r: Record, row: Row, s: Record)
    requires Audited(r) && row.from == r.state != Completed
    requires s.rows == r.rows + [row] && s.state == row.to
    requires s.retries == r.retries + (if r.state == Failed then 1 else 0)
    requires StagesLeft(s.state) < StagesLeft(r.state) + if r.state == Failed then 7 else 0
    requires s.error == if row.to == Failed && Truthy(row.detail) then row.detail else None
    ensures Audited(s)
  {
    AppendKeepsChain(r.rows, row);
    LeavingAppend(r.rows, row, Completed);
    LeavingAppend(r.rows, row, Failed);
  }

  lemma EventKeepsAudited(r: Record, e: Event)
    requires Audited(r) && Possible(r, e)
    ensures Audited(After(r, e)) && r.rows <= After(r, e).rows
  {
    hide Chain, Leaving;
    var s := After(r, e);
    assert r.state != Failed ==> r.error == None;
    match e
    case Advance(to, note) => RowKeepsAudited(r, Row(r.state, to, note), s);
    case Attach(_) =>
    case Fail(message) =>
      if !Terminal(r.state) {
        RowKeepsAudited(r, Row(r.state, Failed, Some(message)), s);
      }
    case Retry(reason) => RowKeepsAudited(r, Row(Failed, Pending, Some(reason)), s);
    case RetryPost(reason) => RowKeepsAudited(r, Row(Failed, InstallingOs, Some(reason)), s);
  }

  /**
    Over every run: the rows are only ever added to and form one chain from Pending to the
    current state, none leaves Completed, the retry count is the number of rows leaving
    Failed, at most 7 rows come with each retry, and the error shown is that of the last row.
   */
  lemma {:induction false} HistoryAgrees(events: seq<Event>, n: nat)
    requires n <= |events|
    ensures Audited(Run(events, n))
    ensures n > 0 ==> Run(events, n - 1).rows <= Run(events, n).rows
  {
    if n == 0 {
      assert Audited(NEW);
    } else {
      hide Audited;
      HistoryAgrees(events, n - 1);
      if Possible(Run(events, n - 1), events[n - 1]) {
        EventKeepsAudited(Run(events, n - 1), events[n - 1]);
      }
    }
  }

  // ---- What a completed deployment has been through ----

  const STAGES: seq<State> := [CreatingVm, Booting, InstallingOs, PostInstall, Configuring]

  /** The states entered since the deployment was last (re)started from Pending. */
  function Entered(rows: seq<Row>): seq<State> {
    if rows == [] || rows[|rows| - 1].to == Pending then []
    else Entered(rows[..|rows| - 1]) + [rows[|rows| - 1].to]
  }

  lemma EnteredAppend(rows: seq<Row>, row: Row)
    ensures Entered(rows + [row]) == if row.to == Pending then [] else Entered(rows) + [row.to]
  {
    assert (rows + [row])[..|rows|] == rows;
  }

  /** `want` occurs in `have`, in order, possibly with other elements between. */
  predicate InOrder(want: seq<State>, have: seq<State>) {
    if want == [] then true
    else if have == [] then false
    else if want[|want| - 1] == have[|have| - 1] then InOrder(want[..|want| - 1], have[..|have| - 1])
    else InOrder(want, have[..|have| - 1])
  }

  lemma {:induction false} InOrderSkips(want: seq<State>, have: seq<State>, x: State)
    requires InOrder(want, have)
    ensures InOrder(want, have + [x])
    decreases |have|, 1
  {
    assert (have + [x])[..|have|] == have;
    if want != [] && want[|want| - 1] == x {
      InOrderPrefix(want, have);
    }
  }

  lemma {:induction false} InOrderPrefix(want: seq<State>, have: seq<State>)
    requires want != [] && InOrder(want, have)
    ensures InOrder(want[..|want| - 1], have)
    decreases |have|, 0
  {
    var w, h := want[..|want| - 1], have[..|have| - 1];
    assert have == h + [have[|have| - 1]];
    if want[|want| - 1] == have[|have| - 1] {
      InOrderSkips(w, h, have[|have| - 1]);
    } else {
      InOrderPrefix(want, h);
      InOrderSkips(w, h, have[|have| - 1]);
    }
  }

  lemma {:induction false} InOrderPrefixes(want: seq<State>, have: seq<State>, n: nat)
    requires n <= |want| && InOrder(want, have)
    ensures InOrder(want[..n], have)
    decreases |want|
  {
    if n < |want| {
      InOrderPrefix(want, have);
      InOrderPrefixes(want[..|want| - 1], have, n);
      assert want[..|want| - 1][..n] == want[..n];
    } else {
      assert want[..n] == want;
    }
  }

  lemma InOrderExtends(want: seq<State>, have: seq<State>, x: State)
    requires InOrder(want, have)
    ensures InOrder(want + [x], have + [x])
  {
    assert (want + [x])[..|want|] == want && (have + [x])[..|have|] == have;
  }

  /** How many of the five stages a state - or a failure that kept its machine - vouches for. */
  function Vouched(r: Record): nat {
    match r.state
    case Pending => 0
    case CreatingVm => 1
    case Booting => 2
    case InstallingOs => 3
    case PostInstall => 4
    case Configuring => 5
    case Completed => 5
    case Failed => if Truthy(r.vm) then 4 else 0
  }

  ghost predicate Travelled(r: Record) {
    && InOrder(STAGES[..Vouched(r)], Entered(r.rows))
    && (r.state == Pending ==> r.vm == None)
  }

  lemma StagesStep(n: nat)
    requires n < 5
    ensures STAGES[..n + 1] == STAGES[..n] + [STAGES[n]]
  {
  }

  /** Entering the next stage, or entering anything while vouching for no more than before. */
  lemma TravelOn(r: Record, row: Row, v: nat)
    requires Travelled(r) && row.to != Pending
    requires v <= Vouched(r) || (v == Vouched(r) + 1 <= 5 && row.to == STAGES[v - 1])
    ensures InOrder(STAGES[..v], Entered(r.rows + [row]))
  {
    EnteredAppend(r.rows, row);
    var have := Entered(r.rows);
    if v <= Vouched(r) {
      InOrderPrefixes(STAGES[..Vouched(r)], have, v);
      assert STAGES[..Vouched(r)][..v] == STAGES[..v];
      InOrderSkips(STAGES[..v], have, row.to);
    } else {
      StagesStep(v - 1);
      InOrderExtends(STAGES[..v - 1], have, row.to);
    }
  }

  lemma EventKeepsTravelled(r: Record, e: Event)
    requires Travelled(r) && Possible(r, e)
    ensures Travelled(After(r, e))
  {
    var s := After(r, e);
    if |s.rows| > |r.rows| {
      var row := s.rows[|r.rows|];
      if row.to == Pending {
        EnteredAppend(r.rows, row);
      } else {
        TravelOn(r, row, Vouched(s));
      }
    } else {
      SameRowsTravelled(r, s);
    }
  }

  lemma SameRowsTravelled(r: Record, s: Record)
    requires Travelled(r) && s.rows == r.rows && Vouched(s) <= Vouched(r) && (s.state == Pending ==> s.vm == None)
    ensures Travelled(s)
  {
    InOrderPrefixes(STAGES[..Vouched(r)], Entered(r.rows), Vouched(s));
    assert STAGES[..Vouched(r)][..Vouched(s)] == STAGES[..Vouched(s)];
  }

  lemma {:induction false} RunsTravel(events: seq<Event>, n: nat)
    requires n <= |events|
    ensures Travelled(Run(events, n))
  {
    if n == 0 {
      assert STAGES[..0] == [];
    } else {
      RunsTravel(events, n - 1);
      if Possible(Run(events, n - 1), events[n - 1]) {
        EventKeepsTravelled(Run(events, n - 1), events[n - 1]);
      }
    }
  }

  /**
    A completed deployment has entered all five stages in order since it was last started
    from Pending, whatever mix of full and post-install retries led there.
   */
  lemma CompletedWentThroughAllStages(events: seq<Event>, n: nat)
    requires n <= |events| && Run(events, n).state == Completed
    ensures InOrder(STAGES, Entered(Run(events, n).rows))
  {
    RunsTravel(events, n);
    assert STAGES[..5] == STAGES;
  }

  /** Windows has been installed since the last start from Pending. */
  predicate Installed(r: Record) {
    InOrder([CreatingVm, Booting, InstallingOs, PostInstall], Entered(r.rows))
  }

  /**
    A post-install retry is possible only where Windows has been installed since the last start
    from Pending - the machine it goes back to has been through the first four stages - and a
    full retry always starts without a machine.
   */
  lemma RetriesFindTheRightMachine(events: seq<Event>, n: nat)
    requires n <= |events|
    ensures var r := Run(events, n);
            (CanRetryPostInstall(r) ==> Installed(r)) && (r.state == Pending ==> r.vm == None)
  {
    RunsTravel(events, n);
    assert STAGES[..4] == [CreatingVm, Booting, InstallingOs, PostInstall];
  }

  // ---- How long an installed machine is kept ----

  /** Before Windows is installed, the states entered are few. */
  ghost predicate Early(r: Record) {
    var have := Entered(r.rows);
    && (r.state == Pending ==> have == [])
    && (r.state == CreatingVm ==> have == [CreatingVm])
    && (r.state == Booting ==> have == [CreatingVm, Booting])
    && (r.state == InstallingOs ==> |have| == 3 || (r.rows != [] && r.rows[|r.rows| - 1].from == Failed))
  }

  lemma EventKeepsEarly(r: Record, e: Event)
    requires Early(r) && Possible(r, e)
    ensures Early(After(r, e))
  {
    hide Entered;
    var s := After(r, e);
    if |s.rows| > |r.rows| {
      EnteredAppend(r.rows, s.rows[|r.rows|]);
    }
  }

  lemma {:induction false} RunsEarly(events: seq<Event>, n: nat)
    requires n <= |events|
    ensures Early(Run(events, n))
  {
    if n == 0 {
      assert Entered([]) == [];
    } else {
      RunsEarly(events, n - 1);
      if Possible(Run(events, n - 1), events[n - 1]) {
        EventKeepsEarly(Run(events, n - 1), events[n - 1]);
      }
    }
  }

  lemma {:induction false} InOrderLength(want: seq<State>, have: seq<State>)
    requires InOrder(want, have)
    ensures |want| <= |have|
    decreases |have|
  {
    if want == [] {
    } else if want[|want| - 1] == have[|have| - 1] {
      InOrderLength(want[..|want| - 1], have[..|have| - 1]);
    } else {
      InOrderLength(want, have[..|have| - 1]);
    }
  }

  /** Where an installed machine can be; back in InstallingOs it is only by a post-install retry. */
  lemma InstalledStates(r: Record)
    requires Early(r) && Installed(r)
    ensures r.state !in {Pending, CreatingVm, Booting}
    ensures r.state == InstallingOs ==> r.rows != [] && r.rows[|r.rows| - 1].from == Failed
  {
    InOrderLength([CreatingVm, Booting, InstallingOs, PostInstall], Entered(r.rows));
  }

  /**
    The events that part a deployment from its installed machine: a full retry, and a failure
    handled when the deployment is over, or before a post-install retry is past InstallingOs.
   */
  predicate Loses(r: Record, e: Event) {
    Possible(r, e) && (e.Retry? || (e.Fail? && (Terminal(r.state) || r.state == InstallingOs)))
  }

  lemma KeptOrLost(r: Record, e: Event)
    requires Early(r) && Installed(r) && Truthy(r.vm)
    ensures if Loses(r, e) then Step(r, e).vm == None else Step(r, e).vm == r.vm && Installed(Step(r, e))
  {
    hide Entered, InOrder;
    InstalledStates(r);
    var s := Step(r, e);
    if !Loses(r, e) && |s.rows| > |r.rows| {
      var row := s.rows[|r.rows|];
      EnteredAppend(r.rows, row);
      InOrderSkips([CreatingVm, Booting, InstallingOs, PostInstall], Entered(r.rows), row.to);
    }
  }

  lemma {:induction false} KeptWhileNotLost(events: seq<Event>, i: nat, n: nat)
    requires i <= n <= |events| && Installed(Run(events, i)) && Truthy(Run(events, i).vm)
    requires forall j | i <= j < n :: !Loses(Run(events, j), events[j])
    ensures Run(events, n).vm == Run(events, i).vm && Installed(Run(events, n))
    decreases n
  {
    hide Installed, Loses, Early;
    if n == i {
    } else {
      KeptWhileNotLost(events, i, n - 1);
      RunsEarly(events, n - 1);
      KeptOrLost(Run(events, n - 1), events[n - 1]);
    }
  }

  /**
    Over every run, a machine on which Windows has been installed is kept all the way from
    event i to event n if and only if none of the losing events happens in between.
   */
  lemma {:induction false} MachineKeptExactly(events: seq<Event>, i: nat, n: nat)
    requires i <= n <= |events| && Installed(Run(events, i)) && Truthy(Run(events, i).vm)
    ensures (forall j | i <= j <= n :: Run(events, j).vm == Run(events, i).vm)
       <==> (forall j | i <= j < n :: !Loses(Run(events, j), events[j]))
    decreases n
  {
    hide Installed, Loses, Early, Run;
    if n == i {
    } else {
      MachineKeptExactly(events, i, n - 1);
      if forall j | i <= j < n - 1 :: !Loses(Run(events, j), events[j]) {
        KeptWhileNotLost(events, i, n - 1);
        RunsEarly(events, n - 1);
        KeptOrLost(Run(events, n - 1), events[n - 1]);
        Unfold(events, n);
      }
    }
  }

  lemma Unfold(events: seq<Event>, n: nat)
    requires 0 < n <= |events|
    ensures Run(events, n) == Step(Run(events, n - 1), events[n - 1])
  {
  }

  // ---- Nothing is refused that should happen ----

  /** A failed deployment, with a machine or without, can be started over: with everything cleared but its history. */
  lemma FailedCanStartOver(r: Record, why: string)
    requires r.state == Failed
    ensures Step(r, Retry(why))
              == Record(Pending, None, r.retries + 1, None, r.rows + [Row(Failed, Pending, Some(why))], [])
  {
  }

  /** One with a machine can also go back to it, with error and log cleared. */
  lemma FailedCanGoBack(r: Record, vm: string, why: string)
    requires r.state == Failed && r.vm == Some(vm) && vm != ""
    ensures Step(r, RetryPost(why))
              == Record(InstallingOs, None, r.retries + 1, Some(vm),
                        r.rows + [Row(Failed, InstallingOs, Some(why))], [])
  {
  }

  /** A deployment that is not over can always fail, and shows why. */
  lemma RunningCanFail(r: Record, message: string)
    requires r.state != Failed && r.state != Completed
    ensures var s := Step(r, Fail(message));
            && s.state == Failed && (message != "" ==> s.error == Some(message))
            && s.rows == r.rows + [Row(r.state, Failed, Some(message))]
  {
  }

  /** The way from a fresh start to the end. */
  function WayThrough(vm: string): seq<Event> {
    SetUp(vm) + [Advance(Configuring, None), Advance(Completed, None)]
  }

  lemma PendingCanComplete(events: seq<Event>, n: nat, vm: string)
    requires n + 7 == |events| && events[n..] == WayThrough(vm) && Run(events, n).state == Pending
    ensures Run(events, n + 7).state == Completed && Run(events, n + 7).vm == Some(vm)
  {
    hide Retried, PostInstallRetried, Abandoned, CanRetry, CanRetryPostInstall;
    assert forall k | 0 <= k < 7 :: events[n + k] == events[n..][k];
    assert Run(events, n + 1).state == CreatingVm;
    assert Run(events, n + 2).state == CreatingVm && Run(events, n + 2).vm == Some(vm);
    assert Run(events, n + 3).state == Booting && Run(events, n + 3).vm == Some(vm);
    assert Run(events, n + 4).state == InstallingOs && Run(events, n + 4).vm == Some(vm);
    assert Run(events, n + 5).state == PostInstall && Run(events, n + 5).vm == Some(vm);
    assert Run(events, n + 6).state == Configuring && Run(events, n + 6).vm == Some(vm);
  }

  lemma {:induction false} SameRun(events: seq<Event>, more: seq<Event>, n: nat)
    requires n <= |events|
    ensures Run(events + more, n) == Run(events, n)
  {
    if n == 0 {
    } else {
      SameRun(events, more, n - 1);
    }
  }

  /** What brings a deployment that is not completed back to its start. */
  function WayBack(s: State): seq<Event> {
    if s == Pending then []
    else if s == Failed then [Retry("again")]
    else [Fail("given up"), Retry("again")]
  }

  /**
    Progress: from every state a run can reach, short of Completed, the run can be continued to
    Pending, there without a machine, and from there to Completed, there with one.
   */
  lemma CanAlwaysComplete(events: seq<Event>, vm: string) returns (all: seq<Event>, start: nat)
    requires Run(events, |events|).state != Completed
    ensures |events| <= start <= |all| && all[..|events|] == events
    ensures Run(all, start).state == Pending && Run(all, start).vm == None
    ensures Run(all, |all|).state == Completed && Run(all, |all|).vm == Some(vm)
  {
    var n, r := |events|, Run(events, |events|);
    var back := WayBack(r.state);
    start := n + |back|;
    all := events + back + WayThrough(vm);
    assert all == events + (back + WayThrough(vm));
    SameRun(events, back + WayThrough(vm), n);
    GoingBack(all, n, back);
    RunsTravel(all, start);
    assert all[start..] == WayThrough(vm);
    PendingCanComplete(all, start, vm);
  }

  lemma GoingBack(all: seq<Event>, n: nat, back: seq<Event>)
    requires n + |back| <= |all| && all[n..n + |back|] == back
    requires Run(all, n).state != Completed && back == WayBack(Run(all, n).state)
    ensures Run(all, n + |back|).state == Pending
  {
    if |back| == 2 {
      assert all[n] == back[0] && all[n + 1] == back[1];
      RunningCanFail(Run(all, n), "given up");
      FailedCanStartOver(Run(all, n + 1), "again");
    } else if |back| == 1 {
      assert all[n] == back[0];
      FailedCanStartOver(Run(all, n), "again");
    }
  }

  // ---- Each losing failure happens ----

  /** A deployment brought to the point where Windows is installed. */
  function SetUp(vm: string): seq<Event> {
    [ Advance(CreatingVm, None), Attach(vm), Advance(Booting, None),
      Advance(InstallingOs, None), Advance(PostInstall, None) ]
  }

  lemma SetUpInstalls(vm: string, tail: seq<Event>)
    requires vm != ""
    ensures var r := Run(SetUp(vm) + tail, 5);
            r.state == PostInstall && r.vm == Some(vm) && Installed(r)
  {
    hide Entered, InOrder;
    var events := SetUp(vm) + tail;
    assert Run(events, 1).state == CreatingVm;
    assert Run(events, 2).state == CreatingVm && Run(events, 2).vm == Some(vm);
    assert Run(events, 3).state == Booting && Run(events, 3).vm == Some(vm);
    assert Run(events, 4).state == InstallingOs && Run(events, 4).vm == Some(vm);
    assert Run(events, 5).state == PostInstall && Run(events, 5).vm == Some(vm);
    RunsTravel(events, 5);
    assert STAGES[..4] == [CreatingVm, Booting, InstallingOs, PostInstall];
  }

  /** A failure handled after completion - a notification that raises is enough - takes the machine away. */
  lemma CompletedDeploymentLosesMachine(vm: string, why: string)
    requires vm != ""
    ensures var events := SetUp(vm) + [Advance(Configuring, None), Advance(Completed, None), Fail(why)];
            && Run(events, 7).state == Completed && Run(events, 7).vm == Some(vm)
            && Run(events, 8) == Run(events, 7).(vm := None)
  {
    var events := SetUp(vm) + [Advance(Configuring, None), Advance(Completed, None), Fail(why)];
    SetUpInstalls(vm, [Advance(Configuring, None), Advance(Completed, None), Fail(why)]);
    assert Run(events, 6).state == Configuring && Run(events, 6).vm == Some(vm);
    assert Run(events, 7).state == Completed;
  }

  /** A second failure takes the machine the first one kept, and with it the post-install retry. */
  lemma SecondFailureLosesMachine(vm: string, first: string, second: string)
    requires vm != ""
    ensures var events := SetUp(vm) + [Fail(first), Fail(second)];
            && CanRetryPostInstall(Run(events, 6)) && Run(events, 6).vm == Some(vm)
            && Run(events, 7) == Run(events, 6).(vm := None) && !CanRetryPostInstall(Run(events, 7))
  {
    SetUpInstalls(vm, [Fail(first), Fail(second)]);
  }

  /** A post-install retry that fails before it is past InstallingOs loses the installed machine it went back to. */
  lemma FailedRetryLosesMachine(vm: string, first: string, why: string, second: string)
    requires vm != ""
    ensures var events := SetUp(vm) + [Fail(first), RetryPost(why), Fail(second)];
            && Run(events, 7).state == InstallingOs && Run(events, 7).vm == Some(vm) && Installed(Run(events, 7))
            && Run(events, 8).state == Failed && Run(events, 8).vm == None
  {
    hide Entered, InOrder;
    var events := SetUp(vm) + [Fail(first), RetryPost(why), Fail(second)];
    SetUpInstalls(vm, [Fail(first), RetryPost(why), Fail(second)]);
    assert Run(events, 6).state == Failed && Run(events, 6).vm == Some(vm);
    KeptWhileNotLost(events, 5, 7);
  }

  // ---- A remark on the failure handler ----

  lemma {:induction false} NotInOrder(have: seq<State>)
    requires Booting !in have
    ensures !InOrder(STAGES, have)
  {
    if InOrder(STAGES, have) {
      InOrderPrefixes(STAGES, have, 2);
      assert STAGES[..2] == [CreatingVm, Booting];
      LastOccurs(STAGES[..2], have);
    }
  }

  lemma {:induction false} LastOccurs(want: seq<State>, have: seq<State>)
    requires want != [] && InOrder(want, have)
    ensures want[|want| - 1] in have
    decreases |have|
  {
    if want[|want| - 1] != have[|have| - 1] {
      LastOccurs(want, have[..|have| - 1]);
    }
  }

  /** A post-install retry that goes well. */
  function RetriedToTheEnd(r: Record, why: string): Record {
    var installed := Step(Step(r, RetryPost(why)), Advance(PostInstall, None));
    Step(Step(installed, Advance(Configuring, None)), Advance(Completed, None))
  }

  /** It adds these stages, whatever went before. */
  lemma PostInstallRetryCompletes(r: Record, why: string)
    requires CanRetryPostInstall(r)
    ensures var done := RetriedToTheEnd(r, why);
            && done.state == Completed
            && Entered(done.rows) == Entered(r.rows) + [InstallingOs] + [PostInstall] + [Configuring] + [Completed]
  {
    hide Entered;
    var r1 := After(r, RetryPost(why));
    var r2 := After(r1, Advance(PostInstall, None));
    var r3 := After(r2, Advance(Configuring, None));
    EnteredAppend(r.rows, Row(r.state, InstallingOs, Some(why)));
    EnteredAppend(r1.rows, Row(r1.state, PostInstall, None));
    EnteredAppend(r2.rows, Row(r2.state, Configuring, None));
    EnteredAppend(r3.rows, Row(r3.state, Completed, None));
  }

  /**
    `CompletedWentThroughAllStages` rests on the failure handler, not on the transitions alone: after a
    bare move to Failed, which would keep the machine, a deployment that never booted could be completed.
   */
  lemma BareFailureSkipsStages(why: string)
    ensures var machine := Step(Step(NEW, Advance(CreatingVm, None)), Attach("vm-1"));
            && CanMove(machine, Failed)
            && var done := RetriedToTheEnd(Moved(machine, Failed, None), why);
            done.state == Completed && !InOrder(STAGES, Entered(done.rows))
  {
    hide Entered, InOrder;
    var r2 := After(After(NEW, Advance(CreatingVm, None)), Attach("vm-1"));
    var r3 := Moved(r2, Failed, None);
    PostInstallRetryCompletes(r3, why);
    EnteredNothing();
    EnteredAppend([], Row(Pending, CreatingVm, None));
    EnteredAppend(r2.rows, Row(CreatingVm, Failed, None));
    NotInOrder(Entered(r3.rows) + [InstallingOs] + [PostInstall] + [Configuring] + [Completed]);
  }

  lemma EnteredNothing()
    ensures Entered([]) == []
  {
  }
}
