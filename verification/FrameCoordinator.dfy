/**
The latest-frame boundary between the telemetry adapter and the twin: one pending frame per
arm, a scheduled commit, and per-arm sequence and boot tracking.
*/
module FrameCoordinator {
  import opened Wrappers

  const MAX_RETIRED_BOOT_IDS: nat := 4

  datatype Arm = LeftArm | RightArm

  function Other(arm: Arm): Arm {
    if arm == LeftArm then RightArm else LeftArm
  }

  // What the coordinator looks at in a frame. An unsupported frame fails the shape check.
  datatype Frame = Frame(
    supported: bool, arm: Arm, controllerId: string, armId: string, bootId: string, frameSeq: nat, receivedAtMs: int)

  datatype Ingress = Ingress(
    controllerId: string, armId: string, bootId: string, frameSeq: nat, receivedAtMs: int, retired: seq<string>)

  // ---------------------------------------------------------------- sequence tracking of one arm

  function Retire(retired: seq<string>, bootId: string): seq<string> {
    var all := retired + [bootId];
    if |all| > MAX_RETIRED_BOOT_IDS then all[1..] else all
  }

  // The tracking after an accepted frame, or none for a frame to reject.
  function AcceptSequence(prior: Option<Ingress>, f: Frame): Option<Ingress> {
    if prior.None? then Some(Ingress(f.controllerId, f.armId, f.bootId, f.frameSeq, f.receivedAtMs, []))
    else
      var p := prior.value;
      if p.controllerId != f.controllerId || p.armId != f.armId then None
      else if f.bootId == p.bootId then
        if f.frameSeq <= p.frameSeq then None
        else Some(p.(frameSeq := f.frameSeq, receivedAtMs := if f.receivedAtMs > p.receivedAtMs then f.receivedAtMs else p.receivedAtMs))
      else if f.bootId in p.retired || f.receivedAtMs < p.receivedAtMs then None
      else Some(p.(bootId := f.bootId, frameSeq := f.frameSeq, receivedAtMs := f.receivedAtMs, retired := Retire(p.retired, p.bootId)))
  }

  predicate Distinct(s: seq<string>) {
    forall i, j :: 0 <= i < j < |s| ==> s[i] != s[j]
  }

  // Retired boot IDs are distinct, at most four, and never the current one.
  ghost predicate BootsAreApart(p: Ingress) {
    Distinct(p.retired) && |p.retired| <= MAX_RETIRED_BOOT_IDS && p.bootId !in p.retired
  }

  lemma AcceptKeepsBootsApart(prior: Option<Ingress>, f: Frame)
    requires prior.Some? ==> BootsAreApart(prior.value)
    ensures var next := AcceptSequence(prior, f); next.Some? ==> BootsAreApart(next.value)
  {
    if prior.Some? {
      var all := prior.value.retired + [prior.value.bootId];
      assert Distinct(all);
    }
  }

  // A frame of the current boot is accepted exactly when its sequence advances; so after the
  // gateway restarts its sequence under the same boot, frames are rejected until it catches up.
  lemma SameBootMustAdvance(p: Ingress, f: Frame)
    requires f.bootId == p.bootId && f.controllerId == p.controllerId && f.armId == p.armId
    ensures AcceptSequence(Some(p), f).Some? <==> f.frameSeq > p.frameSeq
    ensures AcceptSequence(Some(p), f).Some? ==> AcceptSequence(AcceptSequence(Some(p), f), f).None?
  {
  }

  // ---------------------------------------------------------------- committed frames

  // A committed frame with the epoch of its boot: the number of boots its arm had gone through.
  datatype Commit = Commit(epoch: nat, frame: Frame)

  predicate Precedes(a: Commit, b: Commit) {
    if a.epoch == b.epoch then a.frame.bootId == b.frame.bootId && a.frame.frameSeq < b.frame.frameSeq
    else a.epoch < b.epoch && (b.epoch - a.epoch <= MAX_RETIRED_BOOT_IDS ==> a.frame.bootId != b.frame.bootId)
  }

  // The commits of one arm: within an epoch one boot and strictly increasing sequences, and no
  // boot that returns within the next four epochs.
  ghost predicate Increasing(commits: seq<Commit>) {
    forall i, j :: 0 <= i < j < |commits| ==> Precedes(commits[i], commits[j])
  }

  // One arm between two resets: its tracking, its pending frame, and what it committed.
  datatype ArmState = ArmState(ingress: Option<Ingress>, epoch: nat, pending: Option<Frame>, commits: seq<Commit>)

  // The boot of an earlier epoch, while it is remembered, is retired in its place.
  predicate IsRetired(bootId: string, age: nat, retired: seq<string>) {
    0 < age <= |retired| ==> retired[|retired| - age] == bootId
  }

  // A commit lies behind what its arm tracks now; only with nothing pending may it be the latest frame.
  predicate Behind(c: Commit, a: ArmState) {
    a.ingress.Some?
    && ((c.epoch < a.epoch && IsRetired(c.frame.bootId, a.epoch - c.epoch, a.ingress.value.retired))
        || (c.epoch == a.epoch && c.frame.bootId == a.ingress.value.bootId
            && (c.frame.frameSeq < a.ingress.value.frameSeq
                || (a.pending.None? && c.frame.frameSeq == a.ingress.value.frameSeq))))
  }

  predicate IsPendingFrame(f: Frame, a: ArmState) {
    a.ingress.Some? && f.bootId == a.ingress.value.bootId && f.frameSeq == a.ingress.value.frameSeq
  }

  // The last epochs are remembered, up to four.
  predicate RemembersEpochs(p: Ingress, epoch: nat) {
    |p.retired| == if epoch < MAX_RETIRED_BOOT_IDS then epoch else MAX_RETIRED_BOOT_IDS
  }

  ghost predicate ArmIsSound(a: ArmState) {
    && Increasing(a.commits)
    && (a.ingress.Some? ==> BootsAreApart(a.ingress.value) && RemembersEpochs(a.ingress.value, a.epoch))
    && (a.ingress.None? ==> a.epoch == 0)
    && (forall i :: 0 <= i < |a.commits| ==> Behind(a.commits[i], a))
    && (a.pending.Some? ==> IsPendingFrame(a.pending.value, a))
  }

  function IngestArm(a: ArmState, f: Frame): ArmState
    requires AcceptSequence(a.ingress, f).Some?
  {
    var next := AcceptSequence(a.ingress, f);
    var newBoot := a.ingress.Some? && a.ingress.value.bootId != f.bootId;
    ArmState(next, if newBoot then a.epoch + 1 else a.epoch, Some(f), a.commits)
  }

  function CommitArm(a: ArmState): ArmState {
    if a.pending.None? then a else a.(pending := None, commits := a.commits + [Commit(a.epoch, a.pending.value)])
  }

  // What ingesting a frame does to its arm: it is taken in exactly when it is supported and advances.
  predicate Ingested(before: ArmState, f: Frame, after: ArmState, accepted: bool) {
    && (accepted <==> f.supported && AcceptSequence(before.ingress, f).Some?)
    && after == if accepted then IngestArm(before, f) else before
  }

  lemma IngestKeepsSound(a: ArmState, f: Frame)
    requires ArmIsSound(a) && AcceptSequence(a.ingress, f).Some?
    ensures ArmIsSound(IngestArm(a, f))
  {
    AcceptKeepsBootsApart(a.ingress, f);
  }

  lemma CommitKeepsSound(a: ArmState)
    requires ArmIsSound(a)
    ensures ArmIsSound(CommitArm(a)) && CommitArm(a).pending.None?
  {
  }

  const UNTRACKED: ArmState := ArmState(None, 0, None, [])

  // What happens to one arm between two resets.
  datatype ArmEvent = Offered(frame: Frame) | Committed

  function RunArm(a: ArmState, events: seq<ArmEvent>): ArmState
    decreases |events|
  {
    if events == [] then a
    else
      match events[0]
      case Offered(f) => RunArm(if f.supported && AcceptSequence(a.ingress, f).Some? then IngestArm(a, f) else a, events[1..])
      case Committed => RunArm(CommitArm(a), events[1..])
  }

  lemma {:induction false} RunsKeepSound(a: ArmState, events: seq<ArmEvent>)
    requires ArmIsSound(a)
    ensures ArmIsSound(RunArm(a, events))
    decreases |events|
  {
    if events != [] {
      match events[0]
      case Offered(f) =>
        if f.supported && AcceptSequence(a.ingress, f).Some? {
          IngestKeepsSound(a, f);
          RunsKeepSound(IngestArm(a, f), events[1..]);
        } else {
          RunsKeepSound(a, events[1..]);
        }
      case Committed =>
        CommitKeepsSound(a);
        RunsKeepSound(CommitArm(a), events[1..]);
    }
  }

  // Since a reset, whatever frames arrive and whenever they are committed: within each boot epoch
  // of an arm the committed sequences strictly increase, and no boot returns within four epochs.
  lemma CommittedSequencesIncrease(events: seq<ArmEvent>, i: nat, j: nat)
    requires i < j < |RunArm(UNTRACKED, events).commits|
    ensures Precedes(RunArm(UNTRACKED, events).commits[i], RunArm(UNTRACKED, events).commits[j])
  {
    RunsKeepSound(UNTRACKED, events);
  }

  // In every reached state of an arm its retired boots are apart, and they are the boots of the
  // last epochs, up to four.
  lemma RetiredBootsStayApart(events: seq<ArmEvent>)
    ensures var a := RunArm(UNTRACKED, events);
      a.ingress.Some? ==> BootsAreApart(a.ingress.value) && RemembersEpochs(a.ingress.value, a.epoch)
  {
    RunsKeepSound(UNTRACKED, events);
  }

  // ---------------------------------------------------------------- acceptance by history

  // The tracking after frames that were accepted one after the other.
  function TrackOf(history: seq<Frame>): Option<Ingress> {
    if history == [] then None
    else AcceptSequence(TrackOf(history[..|history| - 1]), history[|history| - 1])
  }

  predicate AllAccepted(history: seq<Frame>) {
    history == [] || (AllAccepted(history[..|history| - 1]) && TrackOf(history).Some?)
  }

  // The boots of the history, in the order they came.
  function BootsOf(history: seq<Frame>): seq<string> {
    if history == [] then []
    else
      var before, f := BootsOf(history[..|history| - 1]), history[|history| - 1];
      if before != [] && before[|before| - 1] == f.bootId then before else before + [f.bootId]
  }

  function Latest(history: seq<Frame>): int
    requires history != []
  {
    var f := history[|history| - 1];
    if |history| == 1 then f.receivedAtMs
    else
      var before := Latest(history[..|history| - 1]);
      if f.receivedAtMs > before then f.receivedAtMs else before
  }

  // Up to four boots before the last one.
  function LastFour(boots: seq<string>): seq<string>
    requires boots != []
  {
    if |boots| <= 5 then boots[..|boots| - 1] else boots[|boots| - 5..|boots| - 1]
  }

  lemma RetireIsLastFour(boots: seq<string>, id: string)
    requires boots != []
    ensures Retire(LastFour(boots), boots[|boots| - 1]) == LastFour(boots + [id])
  {
    var n := |boots|;
    var from := if n <= 5 then 0 else n - 5;
    assert boots[from..n - 1] + [boots[n - 1]] == boots[from..];
    if n <= 4 {
      assert (boots + [id])[..n] == boots;
    } else {
      assert (boots + [id])[n - 4..n] == boots[n - 4..] == boots[from..][1..];
    }
  }

  // The tracking is read off the history: its source, its last frame, its latest time, and its last boots.
  lemma {:induction false} TrackingIsHistory(history: seq<Frame>)
    requires AllAccepted(history) && history != []
    ensures BootsOf(history) != [] && BootsOf(history)[|BootsOf(history)| - 1] == history[|history| - 1].bootId
    ensures TrackOf(history) == Some(Ingress(
      history[0].controllerId, history[0].armId, history[|history| - 1].bootId, history[|history| - 1].frameSeq,
      Latest(history), LastFour(BootsOf(history))))
  {
    var front := history[..|history| - 1];
    if front != [] {
      TrackingIsHistory(front);
      assert front[0] == history[0];
      RetireIsLastFour(BootsOf(front), history[|history| - 1].bootId);
    } else {
      assert BootsOf(history) == [history[0].bootId];
    }
  }

  // A further frame is accepted exactly when it is the first, or of the same source and either of
  // the current boot with a higher sequence, or of a boot that is not among the last four before
  // it, received no earlier than any frame so far.
  lemma AcceptedExactlyWhen(history: seq<Frame>, f: Frame)
    requires AllAccepted(history)
    ensures AcceptSequence(TrackOf(history), f).Some?
       <==> || history == []
            || (&& f.controllerId == history[0].controllerId && f.armId == history[0].armId
                && var last, boots := history[|history| - 1], BootsOf(history);
                   if f.bootId == last.bootId then f.frameSeq > last.frameSeq
                   else
                     && f.receivedAtMs >= Latest(history)
                     && forall k :: 0 <= k < |boots| - 1 && k >= |boots| - 5 ==> boots[k] != f.bootId)
  {
    if history != [] {
      TrackingIsHistory(history);
      LastFourHolds(BootsOf(history), f.bootId);
    }
  }

  lemma LastFourHolds(boots: seq<string>, id: string)
    requires boots != []
    ensures id in LastFour(boots) <==> exists k :: 0 <= k < |boots| - 1 && k >= |boots| - 5 && boots[k] == id
  {
    var four := LastFour(boots);
    var start := if |boots| <= 5 then 0 else |boots| - 5;
    assert forall k :: 0 <= k < |four| ==> four[k] == boots[start + k];
    if k :| 0 <= k < |boots| - 1 && k >= |boots| - 5 && boots[k] == id {
      assert four[k - start] == id;
    }
  }

  // The frames of a run of an arm that were accepted.
  function AcceptedIn(p: Option<Ingress>, events: seq<ArmEvent>): seq<Frame>
    decreases |events|
  {
    if events == [] then []
    else
      match events[0]
      case Offered(f) =>
        if f.supported && AcceptSequence(p, f).Some? then [f] + AcceptedIn(AcceptSequence(p, f), events[1..])
        else AcceptedIn(p, events[1..])
      case Committed => AcceptedIn(p, events[1..])
  }

  lemma OneMoreAccepted(history: seq<Frame>, f: Frame)
    requires AllAccepted(history) && AcceptSequence(TrackOf(history), f).Some?
    ensures AllAccepted(history + [f]) && TrackOf(history + [f]) == AcceptSequence(TrackOf(history), f)
  {
    assert (history + [f])[..|history + [f]| - 1] == history;
  }

  predicate IsTaken(p: Option<Ingress>, e: ArmEvent) {
    e.Offered? && e.frame.supported && AcceptSequence(p, e.frame).Some?
  }

  lemma {:induction false} ArmTracksFrom(a: ArmState, history: seq<Frame>, events: seq<ArmEvent>)
    requires AllAccepted(history) && a.ingress == TrackOf(history)
    ensures AllAccepted(history + AcceptedIn(a.ingress, events))
    ensures RunArm(a, events).ingress == TrackOf(history + AcceptedIn(a.ingress, events))
    decreases |events|
  {
    if events == [] {
      assert history + [] == history;
    } else if IsTaken(a.ingress, events[0]) {
      var f := events[0].frame;
      var rest := AcceptedIn(AcceptSequence(a.ingress, f), events[1..]);
      OneMoreAccepted(history, f);
      ArmTracksFrom(IngestArm(a, f), history + [f], events[1..]);
      assert history + [f] + rest == history + ([f] + rest);
    } else {
      ArmTracksFrom(if events[0].Committed? then CommitArm(a) else a, history, events[1..]);
    }
  }

  // In every run of an arm, the tracking is that of the frames accepted so far.
  lemma ArmTracksItsHistory(events: seq<ArmEvent>)
    ensures var history := AcceptedIn(None, events);
      AllAccepted(history) && RunArm(UNTRACKED, events).ingress == TrackOf(history)
  {
    ArmTracksFrom(UNTRACKED, [], events);
    assert [] + AcceptedIn(None, events) == AcceptedIn(None, events);
  }

  // ---------------------------------------------------------------- the coordinator

  function One(b: bool): nat {
    if b then 1 else 0
  }

  class AethorTwinFrameCoordinator {
    var pendingFrames: map<Arm, Frame>
    var ingressState: map<Arm, Ingress>
    var scheduled: bool
    var received: nat
    var rejected: nat
    var coalesced: nat
    var applied: nat
    var renderCommits: nat
    ghost var epochs: map<Arm, nat>
    ghost var commits: map<Arm, seq<Commit>>

    ghost function StateOf(arm: Arm): ArmState
      reads `ingressState, `epochs, `pendingFrames, `commits
    {
      ArmState(
        if arm in ingressState then Some(ingressState[arm]) else None,
        if arm in epochs then epochs[arm] else 0,
        if arm in pendingFrames then Some(pendingFrames[arm]) else None,
        if arm in commits then commits[arm] else [])
    }

    function PendingCount(): nat
      reads `pendingFrames
    {
      One(LeftArm in pendingFrames) + One(RightArm in pendingFrames)
    }

    ghost predicate ArmsAreSound()
      reads `ingressState, `epochs, `pendingFrames, `commits
    {
      ArmIsSound(StateOf(LeftArm)) && ArmIsSound(StateOf(RightArm))
    }

    // Since the last reset every received frame was rejected, replaced, applied or is pending,
    // and a commit is scheduled exactly when a frame is pending.
    ghost predicate CountsBalance()
      reads this
    {
      && received == rejected + coalesced + applied + PendingCount()
      && (scheduled <==> pendingFrames != map[])
    }

    ghost predicate Valid()
      reads this
    {
      CountsBalance() && ArmsAreSound()
    }

    constructor ()
      ensures Valid() && received == 0 && StateOf(LeftArm).commits == [] && StateOf(RightArm).commits == []
    {
      pendingFrames, ingressState, scheduled := map[], map[], false;
      received, rejected, coalesced, applied, renderCommits := 0, 0, 0, 0, 0;
      epochs, commits := map[], map[];
    }

    method Ingest(frame: Frame) returns (accepted: bool)
      requires Valid()
      modifies this
      ensures Valid() && received == old(received) + 1
      ensures Ingested(old(StateOf(frame.arm)), frame, StateOf(frame.arm), accepted)
      ensures StateOf(Other(frame.arm)) == old(StateOf(Other(frame.arm)))
      ensures rejected == if accepted then old(rejected) else old(rejected) + 1
    {
      var waiting := frame.arm in pendingFrames;
      accepted := TryTrack(frame);
      Count(accepted, waiting);
    }

    // Counts a received frame as rejected, or as replacing one still pending; an accepted frame
    // schedules a commit.
    method Count(accepted: bool, waiting: bool)
      requires received == rejected + coalesced + applied + PendingCount() - One(accepted && !waiting)
      requires pendingFrames != map[] <==> scheduled || accepted
      modifies `received, `rejected, `coalesced, `scheduled
      ensures CountsBalance() && received == old(received) + 1
      ensures rejected == if accepted then old(rejected) else old(rejected) + 1
      ensures coalesced == if accepted && waiting then old(coalesced) + 1 else old(coalesced)
      ensures scheduled <==> old(scheduled) || accepted
    {
      received := received + 1;
      if !accepted {
        rejected := rejected + 1;
        return;
      }
      if waiting {
        coalesced := coalesced + 1;
      }
      if !scheduled {
        scheduled := true;
      }
    }

    // Accepts a supported frame that advances its arm, and makes it the arm's pending frame.
    method TryTrack(frame: Frame) returns (accepted: bool)
      requires ArmsAreSound()
      modifies `ingressState, `epochs, `pendingFrames
      ensures ArmsAreSound()
      ensures Ingested(old(StateOf(frame.arm)), frame, StateOf(frame.arm), accepted)
      ensures StateOf(Other(frame.arm)) == old(StateOf(Other(frame.arm)))
      ensures PendingCount() == old(PendingCount()) + One(accepted && frame.arm !in old(pendingFrames))
      ensures pendingFrames != map[] <==> old(pendingFrames) != map[] || accepted
    {
      var prior := if frame.arm in ingressState then Some(ingressState[frame.arm]) else None;
      var next := AcceptSequence(prior, frame);
      accepted := frame.supported && next.Some?;
      if accepted {
        Track(frame, next.value);
        assert frame.arm in pendingFrames;
        assert frame.arm == LeftArm || frame.arm == RightArm;
      }
    }

    method Track(frame: Frame, next: Ingress)
      requires ArmsAreSound() && AcceptSequence(StateOf(frame.arm).ingress, frame) == Some(next)
      modifies `ingressState, `epochs, `pendingFrames
      ensures ArmsAreSound() && StateOf(frame.arm) == IngestArm(old(StateOf(frame.arm)), frame)
      ensures StateOf(Other(frame.arm)) == old(StateOf(Other(frame.arm)))
      ensures pendingFrames == old(pendingFrames)[frame.arm := frame]
    {
      assert frame.arm == LeftArm || frame.arm == RightArm;
      IngestKeepsSound(StateOf(frame.arm), frame);
      epochs := epochs[frame.arm := IngestArm(StateOf(frame.arm), frame).epoch];
      ingressState := ingressState[frame.arm := next];
      pendingFrames := pendingFrames[frame.arm := frame];
      assert StateOf(frame.arm) == IngestArm(old(StateOf(frame.arm)), frame);
    }

    method PendingInOrder() returns (frames: seq<Frame>)
      ensures |frames| == PendingCount()
      ensures var left, right := StateOf(LeftArm).pending, StateOf(RightArm).pending;
        frames == (if left.Some? then [left.value] else []) + (if right.Some? then [right.value] else [])
    {
      frames := [];
      if LeftArm in pendingFrames {
        frames := frames + [pendingFrames[LeftArm]];
      }
      if RightArm in pendingFrames {
        frames := frames + [pendingFrames[RightArm]];
      }
    }

    // Hands the pending frames to the sink, the left arm's first.
    method CommitPending() returns (frames: seq<Frame>)
      requires received == rejected + coalesced + applied + PendingCount() && !scheduled
      requires ArmsAreSound()
      modifies this
      ensures Valid() && pendingFrames == map[] && received == old(received) && applied == old(applied) + |frames|
      ensures forall arm :: StateOf(arm) == CommitArm(old(StateOf(arm)))
      ensures var left, right := old(StateOf(LeftArm)).pending, old(StateOf(RightArm)).pending;
        frames == (if left.Some? then [left.value] else []) + (if right.Some? then [right.value] else [])
    {
      frames := PendingInOrder();
      if pendingFrames == map[] {
        assert forall arm :: CommitArm(StateOf(arm)) == StateOf(arm);
        return;
      }
      CommitArms();
      assert PendingCount() == 0;
      applied := applied + |frames|;
      renderCommits := renderCommits + 1;
    }

    method CommitArms()
      requires ArmsAreSound()
      modifies `pendingFrames, `commits
      ensures ArmsAreSound() && pendingFrames == map[]
      ensures forall arm :: StateOf(arm) == CommitArm(old(StateOf(arm)))
    {
      CommitKeepsSound(StateOf(LeftArm));
      CommitKeepsSound(StateOf(RightArm));
      commits := map[LeftArm := CommitArm(StateOf(LeftArm)).commits, RightArm := CommitArm(StateOf(RightArm)).commits];
      pendingFrames := map[];
      assert StateOf(LeftArm) == CommitArm(old(StateOf(LeftArm))) && StateOf(RightArm) == CommitArm(old(StateOf(RightArm)));
      forall arm ensures StateOf(arm) == CommitArm(old(StateOf(arm))) {
        assert arm == LeftArm || arm == RightArm;
      }
    }

    // The scheduled callback.
    method OnScheduled() returns (frames: seq<Frame>)
      requires Valid() && scheduled
      modifies this
      ensures Valid() && !scheduled && frames != [] && applied == old(applied) + |frames|
      ensures forall arm :: StateOf(arm) == CommitArm(old(StateOf(arm)))
    {
      scheduled := false;
      assert LeftArm in pendingFrames || RightArm in pendingFrames by {
        var arm :| arm in pendingFrames;
        assert arm == LeftArm || arm == RightArm;
      }
      assert forall arm :: StateOf(arm) == old(StateOf(arm));
      frames := CommitPending();
    }

    method FlushNow() returns (frames: seq<Frame>)
      requires Valid()
      modifies this
      ensures Valid() && !scheduled && applied == old(applied) + |frames|
      ensures forall arm :: StateOf(arm) == CommitArm(old(StateOf(arm)))
    {
      if scheduled {
        scheduled := false;
      }
      frames := CommitPending();
    }

    method Reset()
      requires Valid()
      modifies this
      ensures Valid() && received == 0 && !scheduled
      ensures forall arm :: StateOf(arm) == UNTRACKED
    {
      scheduled := false;
      pendingFrames, ingressState := map[], map[];
      received, rejected, coalesced, applied, renderCommits := 0, 0, 0, 0, 0;
      epochs, commits := map[], map[];
    }
  }
}
