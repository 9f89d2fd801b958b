/**
 * The serialised settings queue and the three-way merge of shortcut edits
 * (src/contexts/SettingContext.tsx).  A task is split into its start and its end.
 */
module SettingQueue {
  import opened JsString

  datatype Binding = OneKey(key: string) | Keys(keys: seq<string>)

  type Overrides = map<string, Binding>

  datatype Settings = Settings(sections: map<string, map<string, string>>, keyboardShortcuts: Overrides)

  // ---------- the three-way merge ----------

  function Lookup(m: Overrides, id: string): Option<Binding> {
    if id in m then Some(m[id]) else None
  }

  /** The ids an edit changes: those whose binding differs between its two snapshots. */
  function Touched(previous: Overrides, next: Overrides): set<string> {
    set id | id in previous.Keys + next.Keys && Lookup(previous, id) != Lookup(next, id)
  }

  function Merge(current: Overrides, previous: Overrides, next: Overrides): Overrides {
    var touched := Touched(previous, next);
    map id | id in current.Keys + next.Keys && (if id in touched then id in next else id in current) ::
      if id in touched then next[id] else current[id]
  }

  /** The state of the loop: the ids in `todo` are still as they are in `current`. */
  ghost predicate MergedExcept(current: Overrides, previous: Overrides, next: Overrides, todo: set<string>,
                               desired: Overrides)
  {
    forall id :: Lookup(desired, id) ==
                 if id in Touched(previous, next) && id !in todo then Lookup(next, id) else Lookup(current, id)
  }

  lemma OneIdMerged(current: Overrides, previous: Overrides, next: Overrides, todo: set<string>, id: string,
                    was: Overrides, now: Overrides)
    requires MergedExcept(current, previous, next, todo, was) && id in previous.Keys + next.Keys
    requires now == if Lookup(previous, id) == Lookup(next, id) then was
                    else if id in next then was[id := next[id]]
                    else was - {id}
    ensures MergedExcept(current, previous, next, todo - {id}, now)
  {
    forall x
      ensures Lookup(now, x) ==
              if x in Touched(previous, next) && x !in todo - {id} then Lookup(next, x) else Lookup(current, x)
    {
      assert x != id ==> Lookup(now, x) == Lookup(was, x);
      assert Lookup(was, x) ==
             if x in Touched(previous, next) && x !in todo then Lookup(next, x) else Lookup(current, x);
    }
  }

  lemma SameLookups(a: Overrides, b: Overrides)
    requires forall id :: Lookup(a, id) == Lookup(b, id)
    ensures a == b
  {
    assert forall id :: id in a <==> Lookup(a, id).Some?;
    assert forall id :: id in b <==> Lookup(b, id).Some?;
    assert forall id :: id in a ==> Lookup(a, id) == Some(a[id]);
  }

  lemma AllMerged(current: Overrides, previous: Overrides, next: Overrides, desired: Overrides)
    requires MergedExcept(current, previous, next, {}, desired)
    ensures desired == Merge(current, previous, next)
  {
    SameLookups(desired, Merge(current, previous, next));
  }

  /** The loop of `updateKeyboardShortcuts` over the ids of both snapshots. */
  method MergeOverrides(current: Overrides, previous: Overrides, next: Overrides) returns (desired: Overrides)
    ensures desired == Merge(current, previous, next)
  {
    hide Merge;
    desired := current;
    var ids := previous.Keys + next.Keys;
    var todo := ids;
    while todo != {}
      invariant todo <= ids
      invariant MergedExcept(current, previous, next, todo, desired)
      decreases |todo|
    {
      var id :| id in todo;
      ghost var was := desired;
      if Lookup(previous, id) != Lookup(next, id) {
        if id in next {
          desired := desired[id := next[id]];
        } else {
          desired := desired - {id};
        }
      }
      OneIdMerged(current, previous, next, todo, id, was, desired);
      todo := todo - {id};
    }
    AllMerged(current, previous, next, desired);
  }

  /** An edit changes exactly the ids it touches, whatever else has changed since its snapshot. */
  lemma MergeChangesTouched(current: Overrides, previous: Overrides, next: Overrides, id: string)
    ensures Lookup(Merge(current, previous, next), id) ==
            if id in Touched(previous, next) then Lookup(next, id) else Lookup(current, id)
  {
  }

  /** An edit that was made from the current settings is taken over as it is. */
  lemma FreshEditWins(current: Overrides, next: Overrides)
    ensures Merge(current, current, next) == next
  {
    forall id
      ensures Lookup(Merge(current, current, next), id) == Lookup(next, id)
    {
      MergeChangesTouched(current, current, next, id);
    }
    SameLookups(Merge(current, current, next), next);
  }

  /** Two edits agree on every id both touch. */
  ghost predicate Compatible(p: Overrides, n: Overrides, q: Overrides, m: Overrides) {
    forall id :: id in Touched(p, n) && id in Touched(q, m) ==> Lookup(n, id) == Lookup(m, id)
  }

  /** The order of two edits does not matter exactly if they agree wherever both have a say: always if
      they touch disjoint ids, however stale their snapshots are. */
  lemma EditsCommuteExactly(current: Overrides, p: Overrides, n: Overrides, q: Overrides, m: Overrides)
    ensures Merge(Merge(current, p, n), q, m) == Merge(Merge(current, q, m), p, n) <==> Compatible(p, n, q, m)
  {
    var a, b := Merge(Merge(current, p, n), q, m), Merge(Merge(current, q, m), p, n);
    forall id
      ensures Lookup(a, id) == Lookup(b, id) <==>
              !(id in Touched(p, n) && id in Touched(q, m)) || Lookup(n, id) == Lookup(m, id)
    {
      MergeChangesTouched(current, p, n, id);
      MergeChangesTouched(current, q, m, id);
      MergeChangesTouched(Merge(current, p, n), q, m, id);
      MergeChangesTouched(Merge(current, q, m), p, n, id);
    }
    if Compatible(p, n, q, m) {
      SameLookups(a, b);
    }
  }

  // ---------- tasks ----------

  datatype Task =
    | Load
    | Replace(settings: Settings)
    | PatchSection(name: string, defaults: map<string, string>, fields: map<string, string>)
    | EditShortcuts(previous: Overrides, next: Overrides)

  /** What the daemon made of a task; it stores what it is given. */
  datatype Outcome = Failed | Loaded(settings: Settings) | Saved

  /** The settings a successful task leaves behind. */
  function Apply(task: Task, current: Settings): Settings {
    match task
    case Load => current
    case Replace(settings) => settings
    case PatchSection(name, defaults, fields) =>
      var base := if name in current.sections then current.sections[name] else defaults;
      current.(sections := current.sections[name := base + fields])
    case EditShortcuts(previous, next) =>
      current.(keyboardShortcuts := Merge(current.keyboardShortcuts, previous, next))
  }

  /** The value of one setting. */
  function Field(s: Settings, name: string, field: string): Option<string> {
    if name in s.sections && field in s.sections[name] then Some(s.sections[name][field]) else None
  }

  /** A section patch sets the fields it names and nothing else; a section that did not exist starts from
      its defaults. */
  lemma PatchSetsItsFields(s: Settings, name: string, defaults: map<string, string>, fields: map<string, string>,
                           other: string, field: string)
    ensures var t := Apply(PatchSection(name, defaults, fields), s);
      && t.keyboardShortcuts == s.keyboardShortcuts
      && Field(t, other, field) ==
         if other == name && field in fields then Some(fields[field])
         else if other == name && name !in s.sections then (if field in defaults then Some(defaults[field]) else None)
         else Field(s, other, field)
  {
  }

  /** Patches of different sections, or of different fields of one section, can be served in either order. */
  lemma PatchesCommute(s: Settings, name: string, defaults: map<string, string>, f: map<string, string>,
                       name': string, defaults': map<string, string>, g: map<string, string>)
    requires name != name' || (f.Keys !! g.Keys && defaults == defaults')
    ensures Apply(PatchSection(name', defaults', g), Apply(PatchSection(name, defaults, f), s)) ==
            Apply(PatchSection(name, defaults, f), Apply(PatchSection(name', defaults', g), s))
  {
    var x := if name in s.sections then s.sections[name] else defaults;
    var y := if name' in s.sections then s.sections[name'] else defaults';
    if name == name' {
      assert x + f + g == x + g + f;
      assert s.sections[name := x + f][name := x + f + g] == s.sections[name := x + g][name := x + g + f];
    } else {
      assert s.sections[name := x + f][name' := y + g] == s.sections[name' := y + g][name := x + f];
    }
  }

  /** Whether an outcome can be reported for a task: a change needs settings that have been loaded. */
  predicate Possible(task: Task, latest: Option<Settings>, outcome: Outcome) {
    match outcome
    case Failed => true
    case Loaded(_) => task.Load?
    case Saved => !task.Load? && latest.Some?
  }

  datatype Status = Waiting | Started(current: Option<Settings>) | Settled(outcome: Outcome)

  /** One `operation` of `enqueueTask`: it starts when the operation it is chained to has settled. */
  datatype Operation = Operation(task: Task, after: Option<nat>, status: Status)

  /** All operations so far, the one `mutationQueueRef` holds, and `latestSettingRef`. */
  datatype Provider = Provider(operations: seq<Operation>, tail: Option<nat>, latest: Option<Settings>)

  const INITIAL := Provider([], None, None)

  datatype Step = Enqueue(task: Task) | Start(i: nat) | Finish(i: nat, outcome: Outcome)

  predicate Enabled(p: Provider, step: Step) {
    match step
    case Enqueue(_) => true
    case Start(i) =>
      && i < |p.operations| && p.operations[i].status.Waiting?
      && (p.operations[i].after.Some? ==>
            p.operations[i].after.value < |p.operations| && p.operations[p.operations[i].after.value].status.Settled?)
    case Finish(i, outcome) =>
      && i < |p.operations| && p.operations[i].status.Started?
      && Possible(p.operations[i].task, p.operations[i].status.current, outcome)
  }

  function Result(latest: Option<Settings>, current: Option<Settings>, task: Task, outcome: Outcome): Option<Settings> {
    match outcome
    case Failed => latest
    case Loaded(settings) => Some(settings)
    case Saved => if current.Some? then Some(Apply(task, current.value)) else latest
  }

  function WithStatus(operations: seq<Operation>, i: nat, status: Status): seq<Operation>
    requires i < |operations|
  {
    operations[i := operations[i].(status := status)]
  }

  function Next(p: Provider, step: Step): Provider
    requires Enabled(p, step)
  {
    match step
    case Enqueue(task) =>
      p.(operations := p.operations + [Operation(task, p.tail, Waiting)], tail := Some(|p.operations|))
    case Start(i) => p.(operations := WithStatus(p.operations, i, Started(p.latest)))
    case Finish(i, outcome) =>
      p.(operations := WithStatus(p.operations, i, Settled(outcome)),
         latest := Result(p.latest, p.operations[i].status.current, p.operations[i].task, outcome))
  }

  /** `mutationQueueRef` and `latestSettingRef`, with the operations they have chained. */
  class SettingProvider {
    var operations: seq<Operation>
    var tail: Option<nat>
    var latest: Option<Settings>

    constructor ()
      ensures Current() == INITIAL
    {
      operations, tail, latest := [], None, None;
    }

    function Current(): Provider
      reads this
    {
      Provider(operations, tail, latest)
    }

    method EnqueueTask(task: Task)
      modifies this
      ensures Current() == Next(old(Current()), Enqueue(task))
    {
      var operation := |operations|;
      operations := operations + [Operation(task, tail, Waiting)];
      tail := Some(operation);
    }

    /** The promise the operation is chained to has settled. */
    method StartOperation(i: nat)
      requires Enabled(Current(), Start(i))
      modifies this
      ensures Current() == Next(old(Current()), Start(i))
    {
      operations := operations[i := operations[i].(status := Started(latest))];
    }

    method Settle(i: nat, outcome: Outcome)
      requires Enabled(Current(), Finish(i, outcome))
      modifies this
      ensures Current() == Next(old(Current()), Finish(i, outcome))
    {
      var task, current := operations[i].task, operations[i].status.current;
      match outcome {
        case Failed =>
        case Loaded(settings) => latest := Some(settings);
        case Saved =>
          if task.EditShortcuts? {
            var merged := MergeOverrides(current.value.keyboardShortcuts, task.previous, task.next);
            latest := Some(current.value.(keyboardShortcuts := merged));
          } else {
            latest := Some(Apply(task, current.value));
          }
      }
      operations := operations[i := operations[i].(status := Settled(outcome))];
    }
  }

  // ---------- runs ----------

  ghost predicate IsRun(run: seq<Step>)
    decreases |run|, 0
  {
    run == [] || (IsRun(run[..|run| - 1]) && Enabled(After(run[..|run| - 1]), run[|run| - 1]))
  }

  ghost function After(run: seq<Step>): Provider
    requires IsRun(run)
    decreases |run|, 1
  {
    if run == [] then INITIAL else Next(After(run[..|run| - 1]), run[|run| - 1])
  }

  /** The tasks of a run, in the order they were enqueued. */
  ghost function Tasks(run: seq<Step>): seq<Task> {
    if run == [] then []
    else Tasks(run[..|run| - 1]) + if run[|run| - 1].Enqueue? then [run[|run| - 1].task] else []
  }

  /** The last settings loaded, with the changes that have succeeded since folded in, in order. */
  ghost function Fold(operations: seq<Operation>): Option<Settings> {
    if operations == [] then None
    else
      var n := |operations| - 1;
      var before := Fold(operations[..n]);
      if operations[n].status.Settled?
      then Result(before, before, operations[n].task, operations[n].status.outcome)
      else before
  }

  ghost predicate Chained(operations: seq<Operation>) {
    forall i :: 0 <= i < |operations| ==> operations[i].after == if i == 0 then None else Some(i - 1)
  }

  ghost predicate InOrder(operations: seq<Operation>) {
    forall i, j :: 0 <= i < j < |operations| && !operations[j].status.Waiting? ==> operations[i].status.Settled?
  }

  ghost predicate ReadLatest(operations: seq<Operation>, latest: Option<Settings>) {
    forall i :: 0 <= i < |operations| && operations[i].status.Started? ==> operations[i].status.current == latest
  }

  /** The operations form one chain, and settle in its order: an operation that has started finds all
      earlier ones settled, and has read the current settings. */
  ghost predicate Inv(p: Provider) {
    && p.tail == (if p.operations == [] then None else Some(|p.operations| - 1))
    && Chained(p.operations) && InOrder(p.operations)
    && p.latest == Fold(p.operations) && ReadLatest(p.operations, p.latest)
  }

  lemma {:induction false} FoldUpTo(operations: seq<Operation>, k: nat)
    requires k <= |operations| && forall i :: k <= i < |operations| ==> !operations[i].status.Settled?
    ensures Fold(operations) == Fold(operations[..k])
  {
    if k < |operations| {
      var n := |operations| - 1;
      FoldUpTo(operations[..n], k);
      assert operations[..n][..k] == operations[..k];
    } else {
      assert operations[..k] == operations;
    }
  }

  lemma StatusKeepsChain(operations: seq<Operation>, i: nat, status: Status)
    requires i < |operations| && Chained(operations)
    ensures Chained(WithStatus(operations, i, status))
  {
  }

  /** While nothing from `i` on has settled, the fold is that of the operations before `i`. */
  lemma FoldStaysAt(operations: seq<Operation>, q: seq<Operation>, i: nat)
    requires i <= |operations| == |q| && q[..i] == operations[..i]
    requires forall k :: i <= k < |q| ==> !operations[k].status.Settled? && !q[k].status.Settled?
    ensures Fold(q) == Fold(operations)
  {
    FoldUpTo(operations, i);
    FoldUpTo(q, i);
  }

  lemma StartKeepsInv(p: Provider, i: nat)
    requires Inv(p) && Enabled(p, Start(i))
    ensures Inv(Next(p, Start(i)))
  {
    var q := WithStatus(p.operations, i, Started(p.latest));
    assert i > 0 ==> p.operations[i - 1].status.Settled?;
    StatusKeepsChain(p.operations, i, Started(p.latest));
    FoldStaysAt(p.operations, q, i);
    hide Fold, Chained;
  }

  lemma FoldMovesAt(operations: seq<Operation>, i: nat, outcome: Outcome)
    requires i < |operations| && forall k :: i <= k < |operations| ==> !operations[k].status.Settled?
    ensures var before := Fold(operations);
      Fold(WithStatus(operations, i, Settled(outcome))) == Result(before, before, operations[i].task, outcome)
  {
    hide Result;
    var q := WithStatus(operations, i, Settled(outcome));
    FoldUpTo(operations, i);
    FoldUpTo(q, i + 1);
    assert q[..i + 1][..i] == operations[..i];
  }

  /** An operation that runs comes after all that have settled, and before all that have not started. */
  lemma OthersWait(operations: seq<Operation>, i: nat)
    requires InOrder(operations) && i < |operations| && operations[i].status.Started?
    ensures forall k :: i < k < |operations| ==> operations[k].status.Waiting?
  {
  }

  lemma FinishKeepsOrder(operations: seq<Operation>, i: nat, outcome: Outcome, latest: Option<Settings>)
    requires InOrder(operations) && i < |operations| && operations[i].status.Started?
    ensures InOrder(WithStatus(operations, i, Settled(outcome)))
    ensures ReadLatest(WithStatus(operations, i, Settled(outcome)), latest)
  {
    OthersWait(operations, i);
  }

  lemma KeepsLength(operations: seq<Operation>, i: nat, status: Status)
    requires i < |operations|
    ensures |WithStatus(operations, i, status)| == |operations|
  {
  }

  lemma FinishKeepsInv(p: Provider, i: nat, outcome: Outcome)
    requires Inv(p) && Enabled(p, Finish(i, outcome))
    ensures Inv(Next(p, Finish(i, outcome)))
  {
    hide Fold, Chained, InOrder, Result, WithStatus;
    OthersWait(p.operations, i);
    StatusKeepsChain(p.operations, i, Settled(outcome));
    FoldMovesAt(p.operations, i, outcome);
    FinishKeepsOrder(p.operations, i, outcome, Next(p, Finish(i, outcome)).latest);
    KeepsLength(p.operations, i, Settled(outcome));
  }

  lemma EnqueueKeepsInv(p: Provider, task: Task)
    requires Inv(p)
    ensures Inv(Next(p, Enqueue(task)))
  {
    var q := p.operations + [Operation(task, p.tail, Waiting)];
    assert q[..|p.operations|] == p.operations;
  }

  /**
   * Tasks run one at a time and in the order they were enqueued, and the current settings are always
   * the fold of the successful changes since the last load: a failed task neither changes the
   * settings nor holds up those behind it.
   */
  lemma {:induction false} SettingsAreTheFold(run: seq<Step>)
    requires IsRun(run)
    ensures Inv(After(run))
    ensures |After(run).operations| == |Tasks(run)| && forall i :: 0 <= i < |Tasks(run)| ==>
            After(run).operations[i].task == Tasks(run)[i]
  {
    if run != [] {
      hide Inv, Fold;
      var p := After(run[..|run| - 1]);
      SettingsAreTheFold(run[..|run| - 1]);
      match run[|run| - 1] {
        case Enqueue(task) => EnqueueKeepsInv(p, task);
        case Start(i) => StartKeepsInv(p, i);
        case Finish(i, outcome) => FinishKeepsInv(p, i, outcome);
      }
    }
  }

  /** While nothing runs, the next task can start, whether the one before succeeded or failed. */
  lemma NothingBlocks(run: seq<Step>, i: nat)
    requires IsRun(run) && i < |After(run).operations| && After(run).operations[i].status.Waiting?
    requires forall j :: 0 <= j < i ==> After(run).operations[j].status.Settled?
    ensures Enabled(After(run), Start(i))
    ensures forall j :: 0 <= j < |After(run).operations| && Enabled(After(run), Start(j)) ==> j == i
  {
    hide IsRun, After, Tasks, Fold, ReadLatest;
    SettingsAreTheFold(run);
    var p := After(run);
    assert i > 0 ==> p.operations[i - 1].status.Settled?;
  }

  /** At most one task runs at a time. */
  lemma OneTaskAtATime(run: seq<Step>, i: nat, j: nat)
    requires IsRun(run) && i < |After(run).operations| && j < |After(run).operations|
    requires After(run).operations[i].status.Started? && After(run).operations[j].status.Started?
    ensures i == j
  {
    hide IsRun, After, Tasks, Fold, ReadLatest, Chained;
    SettingsAreTheFold(run);
  }

  /**
   * What each outcome does to the current settings, in every reachable state: a failure nothing; a load shows what was
   * loaded; a saved replacement is shown as it is; a saved patch sets its fields, and a saved edit the bindings in
   * which its snapshots differ, in what is current, and leave all else alone.
   */
  lemma FinishExactly(run: seq<Step>, i: nat, outcome: Outcome, name: string, field: string, id: string)
    requires IsRun(run) && Enabled(After(run), Finish(i, outcome))
    ensures var p := After(run);
      var task, latest := p.operations[i].task, Next(p, Finish(i, outcome)).latest;
      && (outcome == Failed ==> latest == p.latest)
      && (outcome.Loaded? ==> latest == Some(outcome.settings))
      && (outcome == Saved ==> p.latest.Some? && latest.Some?)
      && (outcome == Saved && task.Replace? ==> latest == Some(task.settings))
      && (outcome == Saved && task.PatchSection? ==>
            && latest.value.keyboardShortcuts == p.latest.value.keyboardShortcuts
            && (name == task.name && field in task.fields ==>
                  Field(latest.value, name, field) == Some(task.fields[field]))
            && (name != task.name || (field !in task.fields && name in p.latest.value.sections) ==>
                  Field(latest.value, name, field) == Field(p.latest.value, name, field)))
      && (outcome == Saved && task.EditShortcuts? ==>
            && latest.value.sections == p.latest.value.sections
            && Lookup(latest.value.keyboardShortcuts, id) ==
               if Lookup(task.previous, id) != Lookup(task.next, id) then Lookup(task.next, id)
               else Lookup(p.latest.value.keyboardShortcuts, id))
  {
    hide IsRun, After, Fold, Chained, InOrder, Merge;
    SettingsAreTheFold(run);
    var p := After(run);
    var task := p.operations[i].task;
    if outcome == Saved && task.EditShortcuts? {
      MergeChangesTouched(p.latest.value.keyboardShortcuts, task.previous, task.next, id);
    }
  }

  /** A failed operation leaves no trace in the settings. */
  lemma FailureIsNeutral(before: seq<Operation>, task: Task, after: Option<nat>)
    ensures Fold(before + [Operation(task, after, Settled(Failed))]) == Fold(before)
  {
    assert (before + [Operation(task, after, Settled(Failed))])[..|before|] == before;
  }

  function SavedEdit(previous: Overrides, next: Overrides, after: Option<nat>): Operation {
    Operation(EditShortcuts(previous, next), after, Settled(Saved))
  }

  lemma TwoMore(before: seq<Operation>, first: Operation, second: Operation)
    requires first.status == Settled(Saved) && second.status == Settled(Saved)
    ensures Fold(before + [first, second]) ==
            if Fold(before).Some? then Some(Apply(second.task, Apply(first.task, Fold(before).value))) else None
  {
    var one := before + [first];
    assert one[..|before|] == before;
    assert (before + [first, second])[..|one|] == one;
  }

  /** Whichever of two compatible shortcut edits is served first, the settings end up the same. */
  lemma ShortcutEditsCommute(before: seq<Operation>, p: Overrides, n: Overrides, q: Overrides, m: Overrides,
                             i: Option<nat>, j: Option<nat>)
    requires Compatible(p, n, q, m)
    ensures Fold(before + [SavedEdit(p, n, i), SavedEdit(q, m, j)]) ==
            Fold(before + [SavedEdit(q, m, i), SavedEdit(p, n, j)])
  {
    TwoMore(before, SavedEdit(p, n, i), SavedEdit(q, m, j));
    TwoMore(before, SavedEdit(q, m, i), SavedEdit(p, n, j));
    if Fold(before).Some? {
      EditsCommuteExactly(Fold(before).value.keyboardShortcuts, p, n, q, m);
    }
  }
}
