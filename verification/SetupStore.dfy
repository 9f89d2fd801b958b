/**
 * The setup store under interleaved asynchronous work (src/store/setupRealtimeStore.ts).
 * A request to the daemon is split into its start and its end; anything may happen in between.
 */
module SetupStore {
  import opened JsString

  datatype Completion = Sponsor | Joiner(redeem: string)

  datatype Flow =
    | Loading
    | Entry
    | InvitationPending(code: string, expiresAtMs: int)
    | Completed(deviceName: Option<string>, completion: Option<Completion>)

  datatype Invitation = Invitation(code: string, expiresAtMs: int)

  /** The answer to `GET /v2/setup/state`. */
  datatype ServerState = ServerState(currentInvitation: Option<Invitation>, hasCompleted: bool,
                                     deviceName: Option<string>)

  /** What `refreshFromServer` remembers while it waits for the answer. */
  datatype Refresh = Refresh(generation: nat, revision: nat, completion: Option<Completion>)

  datatype Phase = Idle | Starting | Running

  datatype Store = Store(
    flow: Flow,
    hydrated: bool,
    completionRevision: nat,
    syncGeneration: nat,
    syncPhase: Phase,
    start: Option<nat>,            // the generation of the start in flight
    refreshes: map<nat, Refresh>,  // the refreshes in flight
    nextRefresh: nat)

  const INITIAL := Store(Loading, false, 0, 0, Idle, None, map[], 0)

  datatype Step =
    | InvitationIssued(code: string, expiresAtMs: int)
    | InvitationRevoked
    | PairingCompleted(success: bool)
    | RefreshRequested
    | RefreshFinished(id: nat, response: Option<ServerState>)   // `None`: the request failed
    | ServerStateApplied(state: ServerState, completion: Option<Completion>)
    | Acknowledged
    | SyncRequested
    | SyncInitialState(initial: ServerState)
    | SyncSubscribed
    | SyncFailed

  function FlowFromState(state: ServerState, completion: Option<Completion>): Flow {
    match state.currentInvitation
    case Some(i) => InvitationPending(i.code, i.expiresAtMs)
    case None => if state.hasCompleted then Completed(state.deviceName, completion) else Entry
  }

  function CompletionOf(flow: Flow): Option<Completion> {
    if flow.Completed? then flow.completion else None
  }

  function Update(s: Store, flow: Flow): Store {
    s.(flow := flow, hydrated := true)
  }

  function StartRefresh(s: Store, completion: Option<Completion>): Store {
    s.(refreshes := s.refreshes[s.nextRefresh := Refresh(s.syncGeneration, s.completionRevision, completion)],
       nextRefresh := s.nextRefresh + 1)
  }

  /** The completion a refresh shows when it is answered. */
  function LatestCompletion(s: Store, r: Refresh): Option<Completion> {
    if s.completionRevision != r.revision then CompletionOf(s.flow)
    else if CompletionOf(s.flow).Some? then CompletionOf(s.flow)
    else r.completion
  }

  function FinishRefresh(s: Store, id: nat, response: Option<ServerState>): Store
    requires id in s.refreshes
  {
    var r := s.refreshes[id];
    var s' := s.(refreshes := s.refreshes - {id});
    match response
    case None => s'
    case Some(next) =>
      if r.generation != s.syncGeneration then s' else Update(s', FlowFromState(next, LatestCompletion(s, r)))
  }

  predicate Enabled(s: Store, step: Step) {
    match step
    case RefreshFinished(id, _) => id in s.refreshes
    case SyncInitialState(_) => s.start.Some?
    case SyncSubscribed => s.start.Some?
    case SyncFailed => s.start.Some?
    case _ => true
  }

  function Next(s: Store, step: Step): Store
    requires Enabled(s, step)
  {
    match step
    case InvitationIssued(code, expiresAtMs) =>
      Update(s.(completionRevision := s.completionRevision + 1), InvitationPending(code, expiresAtMs))
    case InvitationRevoked => StartRefresh(s, None)
    case PairingCompleted(success) =>
      if !success then s
      else StartRefresh(s, if CompletionOf(s.flow).Some? then CompletionOf(s.flow) else Some(Sponsor))
    case RefreshRequested => StartRefresh(s, None)
    case RefreshFinished(id, response) => FinishRefresh(s, id, response)
    case ServerStateApplied(state, completion) =>
      Update(s.(completionRevision := s.completionRevision + 1), FlowFromState(state, completion))
    case Acknowledged =>
      if CompletionOf(s.flow).None? then s
      else Update(s.(completionRevision := s.completionRevision + 1), s.flow.(completion := None))
    case SyncRequested =>
      if s.syncPhase == Running || s.start.Some? then s
      else s.(syncPhase := Starting, syncGeneration := s.syncGeneration + 1, start := Some(s.syncGeneration + 1))
    case SyncInitialState(initial) =>
      if s.start.value != s.syncGeneration then s.(start := None)
      else Update(s, FlowFromState(initial, None))
    case SyncSubscribed =>
      if s.start.value != s.syncGeneration then s.(start := None)
      else s.(syncPhase := Running, start := None)
    case SyncFailed =>
      if s.start.value != s.syncGeneration then s.(start := None)
      else s.(syncPhase := Idle, start := None)
  }

  /** The module variables of the source, and the requests in flight. */
  class SetupRealtimeStore {
    var flow: Flow
    var hydrated: bool
    var completionRevision: nat
    var syncGeneration: nat
    var syncPhase: Phase
    var start: Option<nat>
    var refreshes: map<nat, Refresh>
    var nextRefresh: nat

    constructor ()
      ensures Current() == INITIAL
    {
      flow, hydrated, completionRevision, syncGeneration := Loading, false, 0, 0;
      syncPhase, start, refreshes, nextRefresh := Idle, None, map[], 0;
    }

    function Current(): Store
      reads this
    {
      Store(flow, hydrated, completionRevision, syncGeneration, syncPhase, start, refreshes, nextRefresh)
    }

    method Show(newFlow: Flow)
      modifies this
      ensures Current() == Update(old(Current()), newFlow)
    {
      flow, hydrated := newFlow, true;
    }

    method ApplyInvitationIssued(code: string, expiresAtMs: int)
      modifies this
      ensures Current() == Next(old(Current()), InvitationIssued(code, expiresAtMs))
    {
      completionRevision := completionRevision + 1;
      Show(InvitationPending(code, expiresAtMs));
    }

    method ApplyInvitationRevoked()
      modifies this
      ensures Current() == Next(old(Current()), InvitationRevoked)
    {
      RefreshFromServer(None);
    }

    method ApplyPairingCompleted(success: bool)
      modifies this
      ensures Current() == Next(old(Current()), PairingCompleted(success))
    {
      if !success {
        return;
      }
      var completion := Sponsor;
      if flow.Completed? && flow.completion.Some? {
        completion := flow.completion.value;
      }
      RefreshFromServer(Some(completion));
    }

    /** `refreshFromServer` up to its `await`. */
    method RefreshFromServer(completion: Option<Completion>)
      modifies this
      ensures Current() == StartRefresh(old(Current()), completion)
    {
      refreshes := refreshes[nextRefresh := Refresh(syncGeneration, completionRevision, completion)];
      nextRefresh := nextRefresh + 1;
    }

    /** `refreshFromServer` from its `await` on. */
    method RefreshAnswered(id: nat, response: Option<ServerState>)
      requires id in refreshes
      modifies this
      ensures Current() == Next(old(Current()), RefreshFinished(id, response))
    {
      var r := refreshes[id];
      refreshes := refreshes - {id};
      if response.None? || r.generation != syncGeneration {
        return;
      }
      var latest := r.completion;
      if completionRevision != r.revision {
        latest := if flow.Completed? then flow.completion else None;
      } else if flow.Completed? && flow.completion.Some? {
        latest := flow.completion;
      }
      Show(FlowFromState(response.value, latest));
    }

    method ApplyServerSetupState(state: ServerState, completion: Option<Completion>)
      modifies this
      ensures Current() == Next(old(Current()), ServerStateApplied(state, completion))
    {
      completionRevision := completionRevision + 1;
      Show(FlowFromState(state, completion));
    }

    method AcknowledgeSetupCompletion()
      modifies this
      ensures Current() == Next(old(Current()), Acknowledged)
    {
      if !flow.Completed? || flow.completion.None? {
        return;
      }
      completionRevision := completionRevision + 1;
      Show(flow.(completion := None));
    }

    method EnsureSetupRealtimeSync()
      modifies this
      ensures Current() == Next(old(Current()), SyncRequested)
    {
      if syncPhase == Running || start.Some? {
        return;
      }
      syncPhase := Starting;
      syncGeneration := syncGeneration + 1;
      start := Some(syncGeneration);
    }

    method InitialStateArrived(initial: ServerState)
      requires start.Some?
      modifies this
      ensures Current() == Next(old(Current()), SyncInitialState(initial))
    {
      if start.value != syncGeneration {
        start := None;
        return;
      }
      Show(FlowFromState(initial, None));
    }

    method Subscribed()
      requires start.Some?
      modifies this
      ensures Current() == Next(old(Current()), SyncSubscribed)
    {
      if start.value == syncGeneration {
        syncPhase := Running;
      }
      start := None;
    }

    method StartFailed()
      requires start.Some?
      modifies this
      ensures Current() == Next(old(Current()), SyncFailed)
    {
      if start.value == syncGeneration {
        syncPhase := Idle;
      }
      start := None;
    }
  }

  // ---------- runs ----------

  ghost predicate IsRun(s: Store, run: seq<Step>)
    decreases |run|
  {
    run == [] || (Enabled(s, run[0]) && IsRun(Next(s, run[0]), run[1..]))
  }

  ghost function After(s: Store, run: seq<Step>): Store
    requires IsRun(s, run)
    decreases |run|
  {
    if run == [] then s else After(Next(s, run[0]), run[1..])
  }

  /** Holds in every reachable state: nothing in flight comes from the future, and one start at most is
      in flight, of the current generation. */
  ghost predicate Inv(s: Store) {
    && (forall id :: id in s.refreshes ==>
          id < s.nextRefresh && s.refreshes[id].revision <= s.completionRevision
          && s.refreshes[id].generation <= s.syncGeneration)
    && (s.start.Some? <==> s.syncPhase == Starting)
    && (s.start.Some? ==> s.start.value == s.syncGeneration)
    && (!s.hydrated ==> s.flow == Loading)
  }

  lemma StepKeepsInv(s: Store, step: Step)
    requires Inv(s) && Enabled(s, step)
    ensures Inv(Next(s, step))
    ensures Next(s, step).completionRevision >= s.completionRevision && Next(s, step).nextRefresh >= s.nextRefresh
    ensures Next(s, step).syncGeneration >= s.syncGeneration
    ensures forall id :: id in Next(s, step).refreshes && id < s.nextRefresh ==>
              id in s.refreshes && Next(s, step).refreshes[id] == s.refreshes[id]
  {
  }

  lemma {:induction false} RunKeepsInv(s: Store, run: seq<Step>)
    requires Inv(s) && IsRun(s, run)
    ensures Inv(After(s, run)) && After(s, run).completionRevision >= s.completionRevision
    ensures After(s, run).nextRefresh >= s.nextRefresh && After(s, run).syncGeneration >= s.syncGeneration
    decreases |run|
  {
    if run != [] {
      hide Next, Inv;
      StepKeepsInv(s, run[0]);
      RunKeepsInv(Next(s, run[0]), run[1..]);
    }
  }

  // ---------- dismissed summaries stay dismissed ----------

  /** A step that dismisses whatever summary was shown: the acknowledgement of one, or a new invitation. */
  predicate Dismisses(s: Store, step: Step) {
    step.InvitationIssued? || (step.Acknowledged? && CompletionOf(s.flow).Some?)
  }

  lemma {:induction false} OldRefreshesStayTheSame(s: Store, run: seq<Step>, id: nat)
    requires Inv(s) && IsRun(s, run) && id in After(s, run).refreshes && id < s.nextRefresh
    ensures id in s.refreshes && After(s, run).refreshes[id] == s.refreshes[id]
    decreases |run|
  {
    if run != [] {
      hide Next, Inv;
      StepKeepsInv(s, run[0]);
      OldRefreshesStayTheSame(Next(s, run[0]), run[1..], id);
    }
  }

  /**
   * Whatever happens after a dismissal, a refresh that was in flight at the time brings no summary
   * back: when it is answered, the summary shown is the one shown just before, or none.
   */
  lemma DismissedStaysDismissed(s: Store, step: Step, run: seq<Step>, id: nat, response: Option<ServerState>)
    requires Inv(s) && Enabled(s, step) && Dismisses(s, step) && IsRun(Next(s, step), run)
    requires id in s.refreshes && id in After(Next(s, step), run).refreshes
    ensures var before := After(Next(s, step), run);
      var after := Next(before, RefreshFinished(id, response));
      CompletionOf(after.flow) == CompletionOf(before.flow) || CompletionOf(after.flow) == None
  {
    RunKeepsInv(Next(s, step), run);
    OldRefreshesStayTheSame(Next(s, step), run, id);
  }

  /** The steps that may legitimately put up a summary. */
  predicate Announces(step: Step) {
    (step.PairingCompleted? && step.success) || (step.ServerStateApplied? && step.completion.Some?)
  }

  ghost predicate NoSummaryComing(s: Store) {
    && CompletionOf(s.flow).None?
    && forall id :: id in s.refreshes && s.refreshes[id].revision == s.completionRevision ==>
        s.refreshes[id].completion.None?
  }

  lemma StepAnnouncesNothing(s: Store, step: Step)
    requires Inv(s) && NoSummaryComing(s) && Enabled(s, step) && !Announces(step)
    ensures NoSummaryComing(Next(s, step))
  {
  }

  lemma NothingShown(s: Store)
    requires NoSummaryComing(s)
    ensures CompletionOf(s.flow) == None
  {
  }

  lemma {:induction false} NoSummaryWithoutAnnouncement(s: Store, run: seq<Step>)
    requires Inv(s) && NoSummaryComing(s) && IsRun(s, run)
    requires forall i :: 0 <= i < |run| ==> !Announces(run[i])
    ensures CompletionOf(After(s, run).flow) == None
    decreases |run|
  {
    NothingShown(s);
    if run != [] {
      hide Next, Inv, NoSummaryComing;
      StepKeepsInv(s, run[0]);
      StepAnnouncesNothing(s, run[0]);
      NoSummaryWithoutAnnouncement(Next(s, run[0]), run[1..]);
    }
  }

  /** After a dismissal no summary appears until a later pairing or merge announces one. */
  lemma NoSummaryAfterDismissal(s: Store, step: Step, run: seq<Step>)
    requires Inv(s) && Enabled(s, step) && Dismisses(s, step) && IsRun(Next(s, step), run)
    requires forall i :: 0 <= i < |run| ==> !Announces(run[i])
    ensures CompletionOf(After(Next(s, step), run).flow) == None
  {
    assert Inv(Next(s, step)) && NoSummaryComing(Next(s, step));
    NoSummaryWithoutAnnouncement(Next(s, step), run);
  }

  // ---------- what is shown, and how a summary comes up ----------

  /** The flow shows what the daemon's state says: an invitation before anything else, then completion with its
      device and the given summary, and otherwise the entry screen. */
  predicate Shows(flow: Flow, state: ServerState, summary: Option<Completion>) {
    && (state.currentInvitation.Some? ==>
          flow == InvitationPending(state.currentInvitation.value.code, state.currentInvitation.value.expiresAtMs))
    && (state.currentInvitation.None? && state.hasCompleted ==> flow == Completed(state.deviceName, summary))
    && (state.currentInvitation.None? && !state.hasCompleted ==> flow == Entry)
  }

  /** A merge shows the state and the summary it is given, an issued invitation is shown at once, and the initial
      answer is shown without a summary to the synchronisation that asked for it, and to no other. */
  lemma MergesAndIssuesAreShown(s: Store, state: ServerState, summary: Option<Completion>, code: string,
                                expiresAtMs: int)
    ensures var t := Next(s, ServerStateApplied(state, summary)); t.hydrated && Shows(t.flow, state, summary)
    ensures var t := Next(s, InvitationIssued(code, expiresAtMs));
      t.hydrated && t.flow == InvitationPending(code, expiresAtMs)
    ensures s.start.Some? ==>
              var t := Next(s, SyncInitialState(state));
              if s.start.value == s.syncGeneration then t.hydrated && Shows(t.flow, state, None) else t.flow == s.flow
  {
  }

  /** An answer to a refresh is shown unless it failed or the synchronisation was started anew: with the summary that
      is up, if there is one; else with the one the refresh was started with, unless an invitation was issued, a state
      merged or a summary acknowledged in the meantime. */
  lemma AnswerShownExactly(s: Store, id: nat, response: Option<ServerState>)
    requires Inv(s) && id in s.refreshes
    ensures var t := Next(s, RefreshFinished(id, response));
      var used := response.Some? && s.refreshes[id].generation == s.syncGeneration;
      var up := if s.flow.Completed? then s.flow.completion else None;
      && (!used ==> t.flow == s.flow && t.hydrated == s.hydrated)
      && (used && up.Some? ==> Shows(t.flow, response.value, up))
      && (used && up.None? && s.refreshes[id].revision == s.completionRevision ==>
            Shows(t.flow, response.value, s.refreshes[id].completion))
      && (used && up.None? && s.refreshes[id].revision < s.completionRevision ==>
            Shows(t.flow, response.value, None))
  {
  }

  /** No step of the run issues an invitation, merges a state, takes down a summary or starts a synchronisation. */
  ghost predicate Undisturbed(s: Store, run: seq<Step>)
    requires IsRun(s, run)
    decreases |run|
  {
    run == [] ||
    (&& !run[0].InvitationIssued? && !run[0].ServerStateApplied?
     && (run[0].Acknowledged? ==> CompletionOf(s.flow).None?)
     && (run[0].SyncRequested? ==> s.syncPhase == Running || s.start.Some?)
     && Undisturbed(Next(s, run[0]), run[1..]))
  }

  lemma {:induction false} UndisturbedKeepsCounters(s: Store, run: seq<Step>)
    requires IsRun(s, run) && Undisturbed(s, run)
    ensures After(s, run).completionRevision == s.completionRevision
    ensures After(s, run).syncGeneration == s.syncGeneration
    decreases |run|
  {
    if run != [] {
      UndisturbedKeepsCounters(Next(s, run[0]), run[1..]);
    }
  }

  lemma PairingStarts(s: Store)
    requires Inv(s) && CompletionOf(s.flow).None?
    ensures var t := Next(s, PairingCompleted(true));
      && Inv(t) && t.flow == s.flow && t.nextRefresh == s.nextRefresh + 1 && s.nextRefresh in t.refreshes
      && t.refreshes[s.nextRefresh] == Refresh(s.syncGeneration, s.completionRevision, Some(Sponsor))
      && t.completionRevision == s.completionRevision && t.syncGeneration == s.syncGeneration
  {
  }

  /**
   * After a successful pairing the summary comes up: whatever undisturbed run follows, when the refresh that the
   * pairing started is answered with completion, a summary is up; the sponsor's, if no other was put up meanwhile.
   */
  lemma PairingShowsSummary(s: Store, run: seq<Step>, answer: ServerState)
    requires Inv(s) && CompletionOf(s.flow).None? && answer.hasCompleted && answer.currentInvitation.None?
    requires var t := Next(s, PairingCompleted(true));
      IsRun(t, run) && Undisturbed(t, run) && s.nextRefresh in After(t, run).refreshes
    ensures var before := After(Next(s, PairingCompleted(true)), run);
      var after := Next(before, RefreshFinished(s.nextRefresh, Some(answer)));
      after.flow == Completed(answer.deviceName, if CompletionOf(before.flow).Some? then CompletionOf(before.flow)
                                                 else Some(Sponsor))
  {
    var t := Next(s, PairingCompleted(true));
    PairingStarts(s);
    UndisturbedKeepsCounters(t, run);
    RunKeepsInv(t, run);
    OldRefreshesStayTheSame(t, run, s.nextRefresh);
    hide Inv, IsRun, After, Undisturbed;
  }

  lemma RevocationStarts(s: Store, step: Step)
    requires Inv(s) && (step == InvitationRevoked || step == RefreshRequested)
    ensures var t := Next(s, step);
      && Inv(t) && t.flow == s.flow && t.nextRefresh == s.nextRefresh + 1 && s.nextRefresh in t.refreshes
      && t.refreshes[s.nextRefresh] == Refresh(s.syncGeneration, s.completionRevision, None)
      && t.completionRevision == s.completionRevision && t.syncGeneration == s.syncGeneration
  {
  }

  /** After a revocation, or a refresh that a page asks for, the screen is what the daemon answers. */
  lemma RevocationShowsAnswer(s: Store, step: Step, run: seq<Step>, answer: ServerState)
    requires Inv(s) && (step == InvitationRevoked || step == RefreshRequested)
    requires IsRun(Next(s, step), run) && Undisturbed(Next(s, step), run)
    requires s.nextRefresh in After(Next(s, step), run).refreshes
    ensures var before := After(Next(s, step), run);
      Shows(Next(before, RefreshFinished(s.nextRefresh, Some(answer))).flow, answer, CompletionOf(before.flow))
  {
    var t := Next(s, step);
    RevocationStarts(s, step);
    UndisturbedKeepsCounters(t, run);
    RunKeepsInv(t, run);
    OldRefreshesStayTheSame(t, run, s.nextRefresh);
    hide Inv, IsRun, After, Undisturbed;
  }

  /** A refresh in flight when the synchronisation is started anew changes nothing, whenever it is answered. */
  lemma OlderGenerationIgnored(s: Store, run: seq<Step>, id: nat, response: Option<ServerState>)
    requires Inv(s) && s.syncPhase == Idle && id in s.refreshes && IsRun(Next(s, SyncRequested), run)
    requires id in After(Next(s, SyncRequested), run).refreshes
    ensures var before := After(Next(s, SyncRequested), run);
      Next(before, RefreshFinished(id, response)).flow == before.flow
  {
    var t := Next(s, SyncRequested);
    assert Inv(t) && t.refreshes == s.refreshes && t.syncGeneration == s.syncGeneration + 1;
    RunKeepsInv(t, run);
    OldRefreshesStayTheSame(t, run, id);
    hide IsRun, After;
  }

  /** A synchronisation can be started exactly while none is running or starting; one that fails can be started again.
      */
  lemma SyncStartsExactly(s: Store)
    requires Inv(s)
    ensures var t := Next(s, SyncRequested);
      if s.syncPhase == Idle then t.start == Some(s.syncGeneration + 1) && t.syncPhase == Starting else t == s
    ensures s.start.Some? ==>
              Next(s, SyncFailed).syncPhase == Idle && Next(s, SyncFailed).start.None?
              && Next(s, SyncSubscribed).syncPhase == Running && Next(s, SyncSubscribed).start.None?
  {
  }

  // ---------- a summary that is up stays up ----------

  predicate StillCompleted(state: ServerState) {
    state.hasCompleted && state.currentInvitation.None?
  }

  /** Exactly the steps that leave summary `c` up. */
  predicate Keeps(s: Store, step: Step, c: Completion) {
    match step
    case InvitationIssued(_, _) => false
    case RefreshFinished(id, response) =>
      id in s.refreshes && s.refreshes[id].generation == s.syncGeneration && response.Some? ==>
          StillCompleted(response.value)
    case ServerStateApplied(state, completion) => StillCompleted(state) && completion == Some(c)
    case Acknowledged => false
    case SyncInitialState(_) => s.start != Some(s.syncGeneration)
    case _ => true
  }

  /** A refresh never takes a summary down as long as the daemon reports completion, whichever revision
      it was started under; the complete list of what takes it down is `Keeps`. */
  lemma SummaryKeptExactly(s: Store, step: Step, c: Completion)
    requires Enabled(s, step) && CompletionOf(s.flow) == Some(c)
    ensures CompletionOf(Next(s, step).flow) == Some(c) <==> Keeps(s, step, c)
  {
  }

  /** Pairing events, refresh starts and ends, and merges of the same summary, while the daemon reports completion. */
  predicate Routine(step: Step, c: Completion) {
    match step
    case PairingCompleted(_) => true
    case InvitationRevoked => true
    case RefreshRequested => true
    case RefreshFinished(_, response) => response.Some? ==> StillCompleted(response.value)
    case ServerStateApplied(state, completion) => StillCompleted(state) && completion == Some(c)
    case _ => false
  }

  /** The joiner's summary survives every order of those steps, whatever was in flight when it was merged. */
  lemma {:induction false} SummarySurvives(s: Store, run: seq<Step>, c: Completion)
    requires CompletionOf(s.flow) == Some(c) && IsRun(s, run)
    requires forall i :: 0 <= i < |run| ==> Routine(run[i], c)
    ensures CompletionOf(After(s, run).flow) == Some(c)
    decreases |run|
  {
    if run != [] {
      SummaryKeptExactly(s, run[0], c);
      SummarySurvives(Next(s, run[0]), run[1..], c);
    }
  }

  lemma MergedSummarySurvives(s: Store, state: ServerState, redeem: string, run: seq<Step>)
    requires StillCompleted(state)
    requires IsRun(Next(s, ServerStateApplied(state, Some(Joiner(redeem)))), run)
    requires forall i :: 0 <= i < |run| ==> Routine(run[i], Joiner(redeem))
    ensures CompletionOf(After(Next(s, ServerStateApplied(state, Some(Joiner(redeem)))), run).flow) ==
            Some(Joiner(redeem))
  {
    SummarySurvives(Next(s, ServerStateApplied(state, Some(Joiner(redeem)))), run, Joiner(redeem));
  }

  // ---------- what the revision counter does not protect ----------

  /** The answer to the initial request is shown without a look at the revision: it takes down a summary merged
      meanwhile. */
  lemma InitialLoadForgetsSummary(state: ServerState, redeem: string)
    requires StillCompleted(state)
    ensures var run := [SyncRequested, ServerStateApplied(state, Some(Joiner(redeem))), SyncInitialState(state)];
      IsRun(INITIAL, run) && CompletionOf(After(INITIAL, run).flow) == None
  {
    var a := Next(INITIAL, SyncRequested);
    var b := Next(a, ServerStateApplied(state, Some(Joiner(redeem))));
    var c := Next(b, SyncInitialState(state));
    var run := [SyncRequested, ServerStateApplied(state, Some(Joiner(redeem))), SyncInitialState(state)];
    assert run[1..][1..][1..] == [];
    assert IsRun(c, []) && IsRun(b, run[1..][1..]) && IsRun(a, run[1..]);
    assert After(b, run[1..][1..]) == c;
  }

  /** An invitation on screen survives the answer to a refresh exactly if that answer is not used or names it. */
  lemma InvitationKeptExactly(s: Store, id: nat, response: Option<ServerState>)
    requires id in s.refreshes && s.flow.InvitationPending?
    ensures Next(s, RefreshFinished(id, response)).flow == s.flow <==>
            || response.None?
            || s.refreshes[id].generation != s.syncGeneration
            || response.value.currentInvitation == Some(Invitation(s.flow.code, s.flow.expiresAtMs))
  {
  }

  /** Exactly the steps that leave an invitation on screen as it is. */
  predicate KeepsInvitation(s: Store, step: Step, i: Invitation) {
    match step
    case InvitationIssued(code, expiresAtMs) => Invitation(code, expiresAtMs) == i
    case RefreshFinished(id, response) =>
      id in s.refreshes && s.refreshes[id].generation == s.syncGeneration && response.Some? ==>
        response.value.currentInvitation == Some(i)
    case ServerStateApplied(state, _) => state.currentInvitation == Some(i)
    case SyncInitialState(initial) => s.start == Some(s.syncGeneration) ==> initial.currentInvitation == Some(i)
    case _ => true
  }

  lemma InvitationStepExactly(s: Store, step: Step, i: Invitation)
    requires Enabled(s, step) && s.flow == InvitationPending(i.code, i.expiresAtMs)
    ensures Next(s, step).flow == s.flow <==> KeepsInvitation(s, step, i)
  {
  }

  /** Whether all steps of a run leave the invitation on screen. */
  ghost predicate RunKeepsInvitation(s: Store, run: seq<Step>, i: Invitation)
    requires IsRun(s, run)
    decreases |run|
  {
    run == [] || (KeepsInvitation(s, run[0], i) && RunKeepsInvitation(Next(s, run[0]), run[1..], i))
  }

  /** The invitation is on screen throughout a run. */
  ghost predicate ShownThroughout(s: Store, run: seq<Step>, i: Invitation)
    requires IsRun(s, run)
    decreases |run|
  {
    && s.flow == InvitationPending(i.code, i.expiresAtMs)
    && (run == [] || ShownThroughout(Next(s, run[0]), run[1..], i))
  }

  /** An invitation stays up throughout a run exactly if no used answer, merge, initial answer or issue in it
      names anything else, whatever refreshes, pairings, revocations and acknowledgements there are. */
  lemma {:induction false} InvitationShownExactly(s: Store, run: seq<Step>, i: Invitation)
    requires s.flow == InvitationPending(i.code, i.expiresAtMs) && IsRun(s, run)
    ensures ShownThroughout(s, run, i) <==> RunKeepsInvitation(s, run, i)
    decreases |run|
  {
    if run != [] {
      InvitationStepExactly(s, run[0], i);
      hide Next, KeepsInvitation;
      if KeepsInvitation(s, run[0], i) {
        InvitationShownExactly(Next(s, run[0]), run[1..], i);
      }
    }
  }

  predicate NamesOnly(step: Step, i: Invitation) {
    match step
    case InvitationIssued(code, expiresAtMs) => Invitation(code, expiresAtMs) == i
    case RefreshFinished(_, response) => response.Some? ==> response.value.currentInvitation == Some(i)
    case ServerStateApplied(state, _) => state.currentInvitation == Some(i)
    case SyncInitialState(initial) => initial.currentInvitation == Some(i)
    case _ => true
  }

  /** So it stays up while the daemon names it and nobody issues or merges another one. */
  lemma {:induction false} InvitationSurvives(s: Store, run: seq<Step>, i: Invitation)
    requires s.flow == InvitationPending(i.code, i.expiresAtMs) && IsRun(s, run)
    requires forall k :: 0 <= k < |run| ==> NamesOnly(run[k], i)
    ensures After(s, run).flow == s.flow
    decreases |run|
  {
    if run != [] {
      InvitationStepExactly(s, run[0], i);
      hide Next;
      InvitationSurvives(Next(s, run[0]), run[1..], i);
    }
  }

  lemma OneThen(s: Store, run: seq<Step>, n: nat)
    requires n < |run| && Enabled(s, run[n]) && IsRun(Next(s, run[n]), run[n + 1..])
    ensures IsRun(s, run[n..]) && After(s, run[n..]) == After(Next(s, run[n]), run[n + 1..])
  {
    assert run[n..][1..] == run[n + 1..] && run[n..][0] == run[n];
  }

  lemma {:induction false} RunConcat(s: Store, first: seq<Step>, second: seq<Step>)
    requires IsRun(s, first) && IsRun(After(s, first), second)
    ensures IsRun(s, first + second) && After(s, first + second) == After(After(s, first), second)
    decreases |first|
  {
    hide Next;
    if first == [] {
      assert first + second == second;
    } else {
      assert (first + second)[1..] == first[1..] + second;
      RunConcat(Next(s, first[0]), first[1..], second);
    }
  }

  /** The synchronisation starts, is answered and follows the daemon's events. */
  lemma SyncStarts(first: ServerState)
    ensures var run := [SyncRequested, SyncInitialState(first), SyncSubscribed];
      IsRun(INITIAL, run) && After(INITIAL, run).syncPhase == Running && After(INITIAL, run).nextRefresh == 0
  {
    var run := [SyncRequested, SyncInitialState(first), SyncSubscribed];
    var a := Next(INITIAL, run[0]);
    var b := Next(a, run[1]);
    var c := Next(b, run[2]);
    assert run[3..] == [] && IsRun(c, []);
    hide Next;
    OneThen(b, run, 2);
    OneThen(a, run, 1);
    OneThen(INITIAL, run, 0);
    assert run[0..] == run;
  }

  lemma RefreshAfterIssue(s: Store, newer: Invitation, answer: ServerState)
    requires s.nextRefresh == 0 && answer.currentInvitation.Some?
    ensures var run := [RefreshRequested, InvitationIssued(newer.code, newer.expiresAtMs),
                        RefreshFinished(0, Some(answer))];
      IsRun(s, run) && After(s, run).flow == FlowFromState(answer, None)
  {
    var run := [RefreshRequested, InvitationIssued(newer.code, newer.expiresAtMs), RefreshFinished(0, Some(answer))];
    var a := Next(s, run[0]);
    var b := Next(a, run[1]);
    assert 0 in b.refreshes;
    var c := Next(b, run[2]);
    assert run[3..] == [] && IsRun(c, []);
    hide Next;
    OneThen(b, run, 2);
    OneThen(a, run, 1);
    OneThen(s, run, 0);
    assert run[0..] == run;
  }

  /** So a refresh that was answered before a new invitation was issued puts the old one back, as soon as
      the store follows the daemon's events. */
  lemma OlderInvitationReturns(first: ServerState, older: Invitation, newer: Invitation)
    ensures var answer := ServerState(Some(older), true, None);
      var run := [SyncRequested, SyncInitialState(first), SyncSubscribed,
                  RefreshRequested, InvitationIssued(newer.code, newer.expiresAtMs), RefreshFinished(0, Some(answer))];
      IsRun(INITIAL, run) && After(INITIAL, run).flow == InvitationPending(older.code, older.expiresAtMs)
  {
    var answer := ServerState(Some(older), true, None);
    var start := [SyncRequested, SyncInitialState(first), SyncSubscribed];
    var rest := [RefreshRequested, InvitationIssued(newer.code, newer.expiresAtMs), RefreshFinished(0, Some(answer))];
    SyncStarts(first);
    var s := After(INITIAL, start);
    RefreshAfterIssue(s, newer, answer);
    hide IsRun, After, Next;
    RunConcat(INITIAL, start, rest);
    assert start + rest == [SyncRequested, SyncInitialState(first), SyncSubscribed, RefreshRequested,
                            InvitationIssued(newer.code, newer.expiresAtMs), RefreshFinished(0, Some(answer))];
  }
}
