/** The in-flight locks shared by all callers of `useResendAction` (src/hooks/useResendAction.ts). */
module ResendLocks {
  import opened JsString

  /** A request that has been sent and has not settled. */
  datatype Request = All(entry: string) | ToPeer(entry: string, device: string)

  datatype Locks = Locks(
    entryInFlight: set<string>,
    peerInFlight: map<string, set<string>>,
    version: nat,
    outstanding: multiset<Request>)

  const INITIAL := Locks({}, map[], 0, multiset{})

  datatype Step =
    | ResendAll(entry: Option<string>)
    | ResendToPeer(entry: Option<string>, device: string)
    | Settles(request: Request)

  /** What `if (!entryId) return` lets through. */
  predicate Given(entry: Option<string>) {
    entry.Some? && entry.value != ""
  }

  predicate PeerBusy(l: Locks, entry: string, device: string) {
    entry in l.peerInFlight && device in l.peerInFlight[entry]
  }

  predicate MaySendAll(l: Locks, entry: Option<string>) {
    && Given(entry) && entry.value !in l.entryInFlight
    && (entry.value in l.peerInFlight ==> l.peerInFlight[entry.value] == {})
  }

  predicate MaySendToPeer(l: Locks, entry: Option<string>, device: string) {
    Given(entry) && entry.value !in l.entryInFlight && !PeerBusy(l, entry.value, device)
  }

  function WithPeer(m: map<string, set<string>>, entry: string, device: string): map<string, set<string>> {
    m[entry := (if entry in m then m[entry] else {}) + {device}]
  }

  function WithoutPeer(m: map<string, set<string>>, entry: string, device: string): map<string, set<string>>
    requires entry in m
  {
    if m[entry] - {device} == {} then m - {entry} else m[entry := m[entry] - {device}]
  }

  predicate Enabled(l: Locks, step: Step) {
    step.Settles? ==> step.request in l.outstanding
  }

  function Next(l: Locks, step: Step): Locks
    requires Enabled(l, step)
  {
    match step
    case ResendAll(entry) =>
      if !MaySendAll(l, entry) then l
      else l.(entryInFlight := l.entryInFlight + {entry.value}, version := l.version + 1,
              outstanding := l.outstanding + multiset{All(entry.value)})
    case ResendToPeer(entry, device) =>
      if !MaySendToPeer(l, entry, device) then l
      else l.(peerInFlight := WithPeer(l.peerInFlight, entry.value, device), version := l.version + 1,
              outstanding := l.outstanding + multiset{ToPeer(entry.value, device)})
    case Settles(All(entry)) =>
      var d := l.(outstanding := l.outstanding - multiset{All(entry)});
      if entry in l.entryInFlight then d.(entryInFlight := l.entryInFlight - {entry}, version := l.version + 1) else d
    case Settles(ToPeer(entry, device)) =>
      var d := l.(outstanding := l.outstanding - multiset{ToPeer(entry, device)});
      if PeerBusy(l, entry, device)
      then d.(peerInFlight := WithoutPeer(l.peerInFlight, entry, device), version := l.version + 1)
      else d
  }

  /** The module-level collections and the version the snapshot function returns. */
  class ResendStore {
    var entryInFlightSet: set<string>
    var peerInFlightMap: map<string, set<string>>
    var snapshotVersion: nat
    ghost var outstanding: multiset<Request>

    constructor ()
      ensures Current() == INITIAL
    {
      entryInFlightSet, peerInFlightMap, snapshotVersion, outstanding := {}, map[], 0, multiset{};
    }

    ghost function Current(): Locks
      reads this
    {
      Locks(entryInFlightSet, peerInFlightMap, snapshotVersion, outstanding)
    }

    method MarkEntryStart(entry: string)
      modifies this
      ensures Current() == old(Current()).(entryInFlight := old(entryInFlightSet) + {entry},
                                           version := old(snapshotVersion) + 1)
    {
      entryInFlightSet := entryInFlightSet + {entry};
      snapshotVersion := snapshotVersion + 1;
    }

    method MarkEntrySettle(entry: string)
      modifies this
      ensures Current() == if entry in old(entryInFlightSet)
                           then old(Current()).(entryInFlight := old(entryInFlightSet) - {entry},
                                                version := old(snapshotVersion) + 1)
                           else old(Current())
    {
      if entry in entryInFlightSet {
        entryInFlightSet := entryInFlightSet - {entry};
        snapshotVersion := snapshotVersion + 1;
      }
    }

    method MarkPeerStart(entry: string, device: string)
      modifies this
      ensures Current() == old(Current()).(peerInFlight := WithPeer(old(peerInFlightMap), entry, device),
                                           version := old(snapshotVersion) + 1)
    {
      if entry !in peerInFlightMap {
        peerInFlightMap := peerInFlightMap[entry := {}];
      }
      peerInFlightMap := peerInFlightMap[entry := peerInFlightMap[entry] + {device}];
      snapshotVersion := snapshotVersion + 1;
    }

    method MarkPeerSettle(entry: string, device: string)
      modifies this
      ensures Current() == if PeerBusy(old(Current()), entry, device)
                           then old(Current()).(peerInFlight := WithoutPeer(old(peerInFlightMap), entry, device),
                                                version := old(snapshotVersion) + 1)
                           else old(Current())
    {
      if entry !in peerInFlightMap || device !in peerInFlightMap[entry] {
        return;
      }
      peerInFlightMap := peerInFlightMap[entry := peerInFlightMap[entry] - {device}];
      if peerInFlightMap[entry] == {} {
        peerInFlightMap := peerInFlightMap - {entry};
      }
      snapshotVersion := snapshotVersion + 1;
    }

    method ResendEntry(entry: Option<string>)
      modifies this
      ensures Current() == Next(old(Current()), ResendAll(entry))
    {
      if entry.None? || entry.value == "" || entry.value in entryInFlightSet {
        return;
      }
      if entry.value in peerInFlightMap && peerInFlightMap[entry.value] != {} {
        return;
      }
      MarkEntryStart(entry.value);
      outstanding := outstanding + multiset{All(entry.value)};
    }

    method ResendEntryToPeer(entry: Option<string>, device: string)
      modifies this
      ensures Current() == Next(old(Current()), ResendToPeer(entry, device))
    {
      if entry.None? || entry.value == "" || entry.value in entryInFlightSet {
        return;
      }
      if entry.value in peerInFlightMap && device in peerInFlightMap[entry.value] {
        return;
      }
      MarkPeerStart(entry.value, device);
      outstanding := outstanding + multiset{ToPeer(entry.value, device)};
    }

    /** The `finally` of `fireResend`. */
    method RequestSettles(request: Request)
      requires request in outstanding
      modifies this
      ensures Current() == Next(old(Current()), Settles(request))
    {
      match request {
        case All(entry) => MarkEntrySettle(entry);
        case ToPeer(entry, device) => MarkPeerSettle(entry, device);
      }
      outstanding := outstanding - multiset{request};
    }
  }

  /** The two collections describe exactly the outstanding requests, each of which is outstanding once. */
  ghost predicate Inv(l: Locks) {
    && (forall r :: r in l.outstanding ==> l.outstanding[r] == 1)
    && (forall e :: e in l.entryInFlight <==> All(e) in l.outstanding)
    && (forall e, d :: PeerBusy(l, e, d) <==> ToPeer(e, d) in l.outstanding)
    && (forall e :: e in l.peerInFlight ==> l.peerInFlight[e] != {})
    && (forall e :: e in l.entryInFlight ==> e !in l.peerInFlight)
  }

  lemma SendKeepsInv(l: Locks, step: Step)
    requires Inv(l) && !step.Settles?
    ensures Inv(Next(l, step))
  {
    if step.ResendToPeer? && MaySendToPeer(l, step.entry, step.device) {
      var entry, n := step.entry.value, Next(l, step);
      assert forall e, d :: PeerBusy(n, e, d) <==> PeerBusy(l, e, d) || (e == entry && d == step.device);
    }
  }

  lemma PeerRemoved(m: map<string, set<string>>, entry: string, device: string, e: string, d: string)
    requires entry in m
    ensures var n := WithoutPeer(m, entry, device);
      (e in n && d in n[e]) <==> (e in m && d in m[e] && !(e == entry && d == device))
  {
    assert d in m[entry] && d != device ==> d in m[entry] - {device};
  }

  lemma AllSettles(l: Locks, entry: string)
    requires Inv(l) && All(entry) in l.outstanding
    ensures Inv(Next(l, Settles(All(entry))))
  {
    var n := Next(l, Settles(All(entry)));
    assert n.outstanding == l.outstanding[All(entry) := 0];
    assert forall e, d :: PeerBusy(n, e, d) <==> PeerBusy(l, e, d);
  }

  lemma NoEmptyPeers(m: map<string, set<string>>, entry: string, device: string)
    requires entry in m && forall e :: e in m ==> m[e] != {}
    ensures var n := WithoutPeer(m, entry, device); n.Keys <= m.Keys && forall e :: e in n ==> n[e] != {}
  {
  }

  lemma PeerSettles(l: Locks, entry: string, device: string)
    requires Inv(l) && ToPeer(entry, device) in l.outstanding
    ensures Inv(Next(l, Settles(ToPeer(entry, device))))
  {
    hide WithoutPeer;
    var n := Next(l, Settles(ToPeer(entry, device)));
    assert PeerBusy(l, entry, device);
    assert n.outstanding == l.outstanding[ToPeer(entry, device) := 0];
    forall e, d
      ensures PeerBusy(n, e, d) <==> PeerBusy(l, e, d) && !(e == entry && d == device)
    {
      PeerRemoved(l.peerInFlight, entry, device, e, d);
    }
    NoEmptyPeers(l.peerInFlight, entry, device);
  }

  lemma SettleKeepsInv(l: Locks, request: Request)
    requires Inv(l) && request in l.outstanding
    ensures Inv(Next(l, Settles(request)))
  {
    match request
    case All(entry) => AllSettles(l, entry);
    case ToPeer(entry, device) => PeerSettles(l, entry, device);
  }

  ghost predicate IsRun(l: Locks, run: seq<Step>)
    decreases |run|
  {
    run == [] || (Enabled(l, run[0]) && IsRun(Next(l, run[0]), run[1..]))
  }

  ghost function After(l: Locks, run: seq<Step>): Locks
    requires IsRun(l, run)
    decreases |run|
  {
    if run == [] then l else After(Next(l, run[0]), run[1..])
  }

  lemma {:induction false} RunKeepsInv(l: Locks, run: seq<Step>)
    requires Inv(l) && IsRun(l, run)
    ensures Inv(After(l, run))
    decreases |run|
  {
    hide Next, Inv;
    if run != [] {
      if run[0].Settles? {
        SettleKeepsInv(l, run[0].request);
      } else {
        SendKeepsInv(l, run[0]);
      }
      RunKeepsInv(Next(l, run[0]), run[1..]);
    }
  }

  /** However many callers there are: a resend of a whole entry and a resend of that entry to one peer
      are never outstanding together, no request is outstanding twice, and once everything has settled
      nothing is locked. */
  lemma LocksDescribeRequests(run: seq<Step>, entry: string, device: string)
    requires IsRun(INITIAL, run)
    ensures var l := After(INITIAL, run);
      && !(All(entry) in l.outstanding && ToPeer(entry, device) in l.outstanding)
      && l.outstanding[All(entry)] <= 1 && l.outstanding[ToPeer(entry, device)] <= 1
      && (entry in l.entryInFlight <==> All(entry) in l.outstanding)
      && (PeerBusy(l, entry, device) <==> ToPeer(entry, device) in l.outstanding)
      && (l.outstanding == multiset{} ==> l.entryInFlight == {} && l.peerInFlight == map[])
  {
    RunKeepsInv(INITIAL, run);
    var l := After(INITIAL, run);
    if ToPeer(entry, device) in l.outstanding {
      assert PeerBusy(l, entry, device);
    }
    if l.outstanding == multiset{} {
      if e :| e in l.peerInFlight {
        var d :| d in l.peerInFlight[e];
        assert PeerBusy(l, e, d);
        assert false;
      }
    }
  }

  /** A resend was asked for by a caller with an entry, and nothing outstanding covers it or part of it. */
  ghost predicate MayStart(l: Locks, request: Request) {
    match request
    case All(entry) =>
      entry != "" && All(entry) !in l.outstanding && forall device :: ToPeer(entry, device) !in l.outstanding
    case ToPeer(entry, device) =>
      entry != "" && All(entry) !in l.outstanding && ToPeer(entry, device) !in l.outstanding
  }

  lemma NoPeerOutstanding(l: Locks, entry: string)
    requires Inv(l)
    ensures (entry in l.peerInFlight ==> l.peerInFlight[entry] == {}) <==>
            forall device :: ToPeer(entry, device) !in l.outstanding
  {
    if entry in l.peerInFlight {
      var device :| device in l.peerInFlight[entry];
      assert PeerBusy(l, entry, device);
    } else {
      forall device
        ensures ToPeer(entry, device) !in l.outstanding
      {
        assert !PeerBusy(l, entry, device);
      }
    }
  }

  /** What is outstanding after a step. */
  ghost function OutstandingAfter(l: Locks, step: Step): multiset<Request> {
    match step
    case ResendAll(Some(entry)) =>
      if MayStart(l, All(entry)) then l.outstanding + multiset{All(entry)} else l.outstanding
    case ResendToPeer(Some(entry), device) =>
      if MayStart(l, ToPeer(entry, device)) then l.outstanding + multiset{ToPeer(entry, device)} else l.outstanding
    case Settles(request) => l.outstanding - multiset{request}
    case _ => l.outstanding
  }

  lemma AllExactly(l: Locks, entry: string)
    requires Inv(l)
    ensures MaySendAll(l, Some(entry)) <==> MayStart(l, All(entry))
  {
    NoPeerOutstanding(l, entry);
    assert entry in l.entryInFlight <==> All(entry) in l.outstanding;
    hide Inv;
  }

  lemma PeerExactly(l: Locks, entry: string, device: string)
    requires Inv(l)
    ensures MaySendToPeer(l, Some(entry), device) <==> MayStart(l, ToPeer(entry, device))
  {
    assert PeerBusy(l, entry, device) <==> ToPeer(entry, device) in l.outstanding;
    assert entry in l.entryInFlight <==> All(entry) in l.outstanding;
    hide Inv;
  }

  lemma NothingWithoutEntry(l: Locks, device: string)
    ensures !MaySendAll(l, None) && !MaySendToPeer(l, None, device)
  {
  }

  lemma StepSends(l: Locks, step: Step)
    requires Inv(l) && Enabled(l, step)
    ensures Next(l, step).outstanding == OutstandingAfter(l, step)
  {
    if step.ResendAll? && step.entry.Some? {
      AllExactly(l, step.entry.value);
    } else if step.ResendToPeer? && step.entry.Some? {
      PeerExactly(l, step.entry.value, step.device);
    }
    hide WithPeer, WithoutPeer, Inv, PeerBusy, MaySendAll, MaySendToPeer, MayStart;
    NothingWithoutEntry(l, if step.ResendToPeer? then step.device else "");
  }

  lemma InitialInv()
    ensures Inv(INITIAL)
  {
  }

  /**
   * In every reachable state: a resend of an entry is sent exactly if neither it nor one to any of its peers is
   * outstanding, one to a peer exactly if neither that one nor one of the whole entry is, each of them for any entry
   * that has an id; a request that settles is the only one to go.
   */
  lemma SentExactly(run: seq<Step>, step: Step)
    requires IsRun(INITIAL, run) && Enabled(After(INITIAL, run), step)
    ensures Next(After(INITIAL, run), step).outstanding == OutstandingAfter(After(INITIAL, run), step)
  {
    hide IsRun, After, Next, Enabled, Inv, OutstandingAfter;
    InitialInv();
    RunKeepsInv(INITIAL, run);
    StepSends(After(INITIAL, run), step);
  }

  /** The version rises, by one, exactly when the locks change. */
  lemma VersionCountsChanges(l: Locks, step: Step)
    requires Inv(l) && Enabled(l, step)
    ensures var n := Next(l, step);
      && (n.version == l.version || n.version == l.version + 1)
      && (n.version == l.version <==> n.entryInFlight == l.entryInFlight && n.peerInFlight == l.peerInFlight)
  {
    var n := Next(l, step);
    match step
    case ResendToPeer(entry, device) =>
      if MaySendToPeer(l, entry, device) {
        assert PeerBusy(n, entry.value, device) && !PeerBusy(l, entry.value, device);
      }
    case Settles(ToPeer(entry, device)) =>
      assert PeerBusy(l, entry, device) && !PeerBusy(n, entry, device);
    case _ =>
  }
}
