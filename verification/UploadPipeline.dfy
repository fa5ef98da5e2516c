/**
 * The life of a sample, from the directory the emitter fills to the storage services, as a state
 * machine over the disk and the uploader's memory. A step is one disk or set operation of one of
 * the two goroutines, so a crash can fall between any two of them and the emitter can run between
 * any two operations of the upload loop.
 */
module UploadPipeline {
  import opened Wrappers

  type Path = string

  type Service = string

  /** A sample directory: being filled by the emitter, handed over with all its files, or partly
      removed. `complete` says that it holds every file start-up recovery asks for. */
  datatype Directory = Filling | Whole(complete: bool) | Damaged

  /** A payload file: whether its gzip and tar streams are closed, and the samples packed whole. */
  datatype Tar = Tar(complete: bool, samples: set<Path>)

  /** Where ConstructPayload stands: it opens what it has read from the sample set, then writes; `walked`
      are the directories already packed, `whole` those of them that were intact when they were packed. */
  datatype Build =
    | NoBuild
    | Opening(files: seq<Path>)
    | Writing(tar: Path, files: seq<Path>, walked: set<Path>, whole: set<Path>)
    | Packed(tar: Path, files: seq<Path>)
    | Shedding(files: seq<Path>)

  datatype State = State(
    scratch: map<Path, Directory>,
    uploads: map<Path, Tar>,
    sampleSet: set<Path>,
    uploadSet: set<Path>,
    build: Build,
    named: set<Path>,
    handedOver: map<Path, bool>,
    accepted: set<(Service, Path)>)

  const EMPTY := State(map[], map[], {}, {}, NoBuild, {}, map[], {})

  datatype Step =
    // the emitter goroutine
    | NewDirectory(p: Path)
    | HandOver(p: Path, complete: bool)
    | ClearScratch(p: Path, gone: bool)
    | ForgetSample(p: Path)
    // ConstructPayload and removeSamples
    | ReadSet(files: seq<Path>)
    | CreateTar(tar: Path)
    | WalkSample(p: Path)
    | CloseTar
    | AbortTar(wellFormed: bool)
    | DiskFull(tarRemoved: bool)
    | ShedDirectory(p: Path, gone: bool)
    | EndBuild
    // the upload queue
    | Enqueue(tar: Path)
    | Dequeue(tar: Path)
    | Accept(service: Service, tar: Path)
    | DeleteShipped(tar: Path)
    | ClearUpload(tar: Path)
    // restart
    | Crash(finished: set<Path>)
    | RecoverSample(p: Path)
    | DiscardIncomplete(p: Path, gone: bool)
    | DiscardUnread(p: Path, gone: bool)
    | ExpireTar(tar: Path)
    | DiscardPartial(tar: Path)

  predicate Delivered(services: set<Service>, s: State, x: Path) {
    services != {} && forall v :: v in services ==> (v, x) in s.accepted
  }

  /** The sample is whole in a complete payload. */
  predicate HoldsIn(tars: map<Path, Tar>, t: Path, x: Path) {
    t in tars && tars[t].complete && x in tars[t].samples
  }

  predicate InTar(s: State, t: Path, x: Path) {
    HoldsIn(s.uploads, t, x)
  }

  predicate InScratch(s: State, x: Path) {
    x in s.scratch && s.scratch[x].Whole?
  }

  /** The sample is safe: on disk, or with every storage service. */
  ghost predicate Held(services: set<Service>, s: State, x: Path) {
    InScratch(s, x) || (exists t :: InTar(s, t, x)) || Delivered(services, s, x)
  }

  /** Directories that are not being filled any more, among those of the sample set or a build. */
  predicate NotFilling(s: State, files: seq<Path>) {
    forall f :: f in files ==> f in s.named && (f in s.scratch ==> !s.scratch[f].Filling?)
  }

  predicate Enabled(services: set<Service>, s: State, step: Step) {
    match step
    // directory names carry the time in milliseconds and a counter, and Mkdir refuses existing ones
    case NewDirectory(p) => p !in s.named
    case HandOver(p, _) => p in s.scratch && s.scratch[p].Filling?
    case ClearScratch(p, _) => p in s.scratch
    case ForgetSample(_) => true
    case ReadSet(files) => s.build.NoBuild? && (set f | f in files) == s.sampleSet
    case CreateTar(_) => s.build.Opening?
    case WalkSample(p) => s.build.Writing? && p in s.build.files && p in s.scratch
    case CloseTar => s.build.Writing? && forall f :: f in s.build.files ==> f in s.build.walked
    case AbortTar(_) => s.build.Writing?
    case DiskFull(_) => s.build.Writing?
    // removeSamples takes a sample out of the set before it removes the directory
    case ShedDirectory(p, _) =>
      (s.build.Packed? || s.build.Shedding?) && p in s.build.files && p in s.scratch && p !in s.sampleSet
    case EndBuild => s.build.Opening? || s.build.Packed? || s.build.Shedding?
    case Enqueue(t) => s.build.NoBuild? && (t in s.uploads ==> s.uploads[t].complete)
    case Dequeue(t) => s.build.NoBuild? && t !in s.uploads
    case Accept(v, t) => v in services && s.build.NoBuild? && t in s.uploads
    // UploadData removes a tar only after the loop over all services has come through
    case DeleteShipped(t) =>
      && s.build.NoBuild? && t in s.uploads && services != {}
      && (s.uploads[t].complete ==> forall v, x :: v in services && x in s.uploads[t].samples ==> (v, x) in s.accepted)
    // the payload being written is younger than half a recovery period
    case ClearUpload(t) =>
      t in s.uploads && (s.build.NoBuild? || (s.build.Writing? && t != s.build.tar))
    case Crash(_) => true
    case RecoverSample(p) => s.build.NoBuild? && p in s.scratch && !s.scratch[p].Filling?
    case DiscardIncomplete(p, _) =>
      s.build.NoBuild? && p in s.scratch && s.scratch[p] in {Whole(false), Damaged} && p !in s.sampleSet
    // start-up has not recognised a complete sample: it is nested, its file names are ambiguous, or the
    // walk stops in it
    case DiscardUnread(p, _) =>
      s.build.NoBuild? && p in s.scratch && s.scratch[p] == Whole(true) && p !in s.sampleSet
    case ExpireTar(t) => s.build.NoBuild? && t in s.uploads
    case DiscardPartial(t) => s.build.NoBuild? && t in s.uploads && !s.uploads[t].complete
  }

  function Remove(scratch: map<Path, Directory>, p: Path, gone: bool): map<Path, Directory> {
    if gone then scratch - {p} else scratch[p := Damaged]
  }

  /** What a restart finds of the directories: what was being filled is just a directory now. */
  function Settled(scratch: map<Path, Directory>, finished: set<Path>): map<Path, Directory> {
    map p | p in scratch :: if scratch[p].Filling? then Whole(p in finished) else scratch[p]
  }

  function Apply(services: set<Service>, s: State, step: Step): State
    requires Enabled(services, s, step)
  {
    match step
    case NewDirectory(p) => s.(scratch := s.scratch[p := Filling], named := s.named + {p})
    case HandOver(p, complete) =>
      s.(scratch := s.scratch[p := Whole(complete)], sampleSet := s.sampleSet + {p},
         handedOver := s.handedOver[p := complete])
    case ClearScratch(p, gone) => s.(scratch := Remove(s.scratch, p, gone))
    case ForgetSample(p) => s.(sampleSet := s.sampleSet - {p})
    case ReadSet(files) => s.(build := Opening(files))
    case CreateTar(t) => s.(uploads := s.uploads[t := Tar(false, {})], build := Writing(t, s.build.files, {}, {}))
    case WalkSample(p) =>
      s.(build := s.build.(walked := s.build.walked + {p},
                           whole := if s.scratch[p].Whole? then s.build.whole + {p} else s.build.whole))
    case CloseTar =>
      s.(uploads := s.uploads[s.build.tar := Tar(true, s.build.whole)], build := Packed(s.build.tar, s.build.files))
    case AbortTar(wellFormed) =>
      s.(uploads := s.uploads[s.build.tar := Tar(wellFormed, s.build.whole)], build := NoBuild)
    case DiskFull(removed) =>
      s.(uploads := if removed then s.uploads - {s.build.tar} else s.uploads, build := Shedding(s.build.files))
    case ShedDirectory(p, gone) => s.(scratch := Remove(s.scratch, p, gone))
    case EndBuild => s.(build := NoBuild)
    case Enqueue(t) => s.(uploadSet := s.uploadSet + {t})
    case Dequeue(t) => s.(uploadSet := s.uploadSet - {t})
    case Accept(v, t) =>
      s.(accepted := s.accepted + if s.uploads[t].complete then set x | x in s.uploads[t].samples :: (v, x) else {})
    case DeleteShipped(t) => s.(uploads := s.uploads - {t})
    case ClearUpload(t) => s.(uploads := s.uploads - {t}, uploadSet := s.uploadSet - {t})
    case Crash(finished) =>
      s.(scratch := Settled(s.scratch, finished), sampleSet := {}, uploadSet := {}, build := NoBuild)
    case RecoverSample(p) => s.(sampleSet := s.sampleSet + {p})
    case DiscardIncomplete(p, gone) => s.(scratch := Remove(s.scratch, p, gone))
    case DiscardUnread(p, gone) => s.(scratch := Remove(s.scratch, p, gone))
    case ExpireTar(t) => s.(uploads := s.uploads - {t})
    case DiscardPartial(t) => s.(uploads := s.uploads - {t})
  }

  // ---------- What every step keeps ----------

  predicate BuildInv(s: State) {
    match s.build
    case NoBuild => true
    case Opening(files) => NotFilling(s, files)
    case Writing(t, files, walked, whole) =>
      && NotFilling(s, files)
      && t in s.uploads && !s.uploads[t].complete
      && forall f :: f in walked ==> f in files && (InScratch(s, f) ==> f in whole)
    case Packed(t, files) =>
      && NotFilling(s, files)
      && t in s.uploads && s.uploads[t].complete
      && forall f :: f in files && InScratch(s, f) ==> f in s.uploads[t].samples
    case Shedding(files) => NotFilling(s, files)
  }

  predicate SetInv(s: State) {
    && s.scratch.Keys <= s.named
    && forall p :: p in s.sampleSet ==> p in s.named && (p in s.scratch ==> !s.scratch[p].Filling?)
  }

  predicate HandedInv(s: State) {
    && s.handedOver.Keys <= s.named
    && (forall p :: p in s.handedOver && InScratch(s, p) ==> s.scratch[p].complete == s.handedOver[p])
    && (forall p :: p in s.handedOver && p in s.scratch ==> !s.scratch[p].Filling?)
  }

  predicate Inv(s: State) {
    SetInv(s) && HandedInv(s) && BuildInv(s)
  }

  lemma SetInvKept(services: set<Service>, s: State, step: Step)
    requires SetInv(s) && BuildInv(s) && Enabled(services, s, step)
    ensures SetInv(Apply(services, s, step))
  {}

  lemma HandedInvKept(services: set<Service>, s: State, step: Step)
    requires SetInv(s) && HandedInv(s) && Enabled(services, s, step)
    ensures HandedInv(Apply(services, s, step))
  {
    var s' := Apply(services, s, step);
    assert s.handedOver.Keys <= s'.handedOver.Keys;
    if !step.HandOver? && !step.NewDirectory? {
      forall p | p in s'.scratch && !s'.scratch[p].Damaged?
        ensures p in s.scratch && (!s.scratch[p].Filling? ==> s'.scratch[p] == s.scratch[p])
      {}
    }
  }

  lemma NotFillingKept(services: set<Service>, s: State, step: Step, files: seq<Path>)
    requires NotFilling(s, files) && s.scratch.Keys <= s.named && Enabled(services, s, step)
    ensures NotFilling(Apply(services, s, step), files)
  {}

  lemma BuildInvKept(services: set<Service>, s: State, step: Step)
    requires Inv(s) && Enabled(services, s, step)
    ensures BuildInv(Apply(services, s, step))
  {
    if !s.build.NoBuild? {
      NotFillingKept(services, s, step, s.build.files);
    }
  }

  lemma InvKept(services: set<Service>, s: State, step: Step)
    requires Inv(s) && Enabled(services, s, step)
    ensures Inv(Apply(services, s, step))
  {
    SetInvKept(services, s, step);
    HandedInvKept(services, s, step);
    BuildInvKept(services, s, step);
  }

  /** The steps that may give a sample up, each a documented clean-up path. */
  predicate GivesUp(s: State, step: Step, x: Path) {
    match step
    case ClearScratch(p, _) => x == p
    case ClearUpload(t) => InTar(s, t, x)
    case ShedDirectory(p, _) => s.build.Shedding? && x == p
    case ExpireTar(t) => InTar(s, t, x)
    case DiscardIncomplete(p, _) => x == p
    case DiscardUnread(p, _) => x == p
    case _ => false
  }

  /** ConstructPayload reuses the name of a tar that is still waiting. */
  predicate Overwrites(s: State, step: Step, x: Path) {
    step.CreateTar? && InTar(s, step.tar, x)
  }

  lemma DeliveredStays(services: set<Service>, s: State, step: Step, x: Path)
    requires Enabled(services, s, step) && Delivered(services, s, x)
    ensures Delivered(services, Apply(services, s, step), x)
  {}

  lemma ScratchStays(services: set<Service>, s: State, step: Step, x: Path)
    requires Inv(s) && Enabled(services, s, step) && InScratch(s, x)
    ensures Held(services, Apply(services, s, step), x) || GivesUp(s, step, x)
    ensures step.DiscardIncomplete? && x in s.handedOver && s.handedOver[x] ==> Held(services, Apply(services, s, step), x)
  {
    var s' := Apply(services, s, step);
    if step.ShedDirectory? && s.build.Packed? && step.p == x {
      assert InTar(s', s.build.tar, x);
    } else {
      assert InScratch(s', x) || GivesUp(s, step, x);
    }
  }

  lemma TarStays(services: set<Service>, s: State, step: Step, t: Path, x: Path)
    requires Inv(s) && Enabled(services, s, step) && InTar(s, t, x)
    ensures Held(services, Apply(services, s, step), x) || GivesUp(s, step, x) || Overwrites(s, step, x)
    ensures step.DiscardIncomplete? ==> Held(services, Apply(services, s, step), x)
  {
    var s' := Apply(services, s, step);
    if step == DeleteShipped(t) {
      assert Delivered(services, s', x);
    } else {
      assert InTar(s', t, x) || GivesUp(s, step, x) || Overwrites(s, step, x);
    }
  }

  /** One step: a sample stops being safe only in a documented clean-up step - where start-up
      clean-up never gives up a handed-over sample that held every required file - or when a new
      payload is written over a waiting payload of the same name. */
  lemma OnlyGivenUp(services: set<Service>, s: State, step: Step, x: Path)
    requires Inv(s) && Enabled(services, s, step) && Held(services, s, x)
    ensures Held(services, Apply(services, s, step), x) || GivesUp(s, step, x) || Overwrites(s, step, x)
    ensures step.DiscardIncomplete? && x in s.handedOver && s.handedOver[x] ==> Held(services, Apply(services, s, step), x)
  {
    if Delivered(services, s, x) {
      DeliveredStays(services, s, step, x);
    } else if InScratch(s, x) {
      ScratchStays(services, s, step, x);
    } else {
      var t :| InTar(s, t, x);
      TarStays(services, s, step, t, x);
    }
  }

  // ---------- Whole runs ----------

  ghost predicate Execution(services: set<Service>, states: seq<State>, steps: seq<Step>) {
    && |states| == |steps| + 1
    && states[0] == EMPTY
    && forall i :: 0 <= i < |steps| ==>
                     Enabled(services, states[i], steps[i]) && states[i + 1] == Apply(services, states[i], steps[i])
  }

  /** The emitter cleared directory p at some step of a run from the given one on. */
  ghost predicate Cleared(steps: seq<Step>, from: nat, p: Path) {
    exists i :: from <= i < |steps| && steps[i].ClearScratch? && steps[i].p == p
  }

  /** The emitter cleared some directory. */
  ghost predicate Disturbed(steps: seq<Step>, from: nat) {
    exists i :: from <= i < |steps| && steps[i].ClearScratch?
  }

  lemma ClearedStays(earlier: seq<Step>, later: seq<Step>, from: nat, since: nat)
    requires earlier <= later && from <= since
    ensures forall p :: Cleared(earlier, since, p) ==> Cleared(later, from, p)
    ensures Disturbed(earlier, since) ==> Disturbed(later, from)
  {
    forall p | Cleared(earlier, since, p) ensures Cleared(later, from, p) {
      var i :| since <= i < |earlier| && earlier[i].ClearScratch? && earlier[i].p == p;
      assert later[i] == earlier[i];
    }
    if i :| since <= i < |earlier| && earlier[i].ClearScratch? {
      assert later[i] == earlier[i];
    }
  }

  /** No payload is written over a file that is there. */
  ghost predicate NoneOverwritten(states: seq<State>, steps: seq<Step>, from: nat)
    requires |states| == |steps| + 1
  {
    forall i :: from <= i < |steps| && steps[i].CreateTar? ==> steps[i].tar !in states[i].uploads
  }

  lemma NoneOverwrittenSince(was: seq<State>, earlier: seq<Step>, states: seq<State>, steps: seq<Step>, from: nat)
    requires |was| == |earlier| + 1 && |states| == |steps| + 1 && was <= states && earlier <= steps && from <= |earlier|
    requires NoneOverwritten(was, earlier, from) && NoneOverwritten(states, steps, |earlier|)
    ensures NoneOverwritten(states, steps, from)
  {
    forall i | from <= i < |earlier| ensures states[i] == was[i] && steps[i] == earlier[i] {}
  }

  /** Step i is where x stopped being safe. */
  ghost predicate LostAt(services: set<Service>, states: seq<State>, i: nat, x: Path)
    requires i + 1 < |states|
  {
    Held(services, states[i], x) && !Held(services, states[i + 1], x)
  }

  lemma {:induction false} InvAlways(services: set<Service>, states: seq<State>, steps: seq<Step>, n: nat)
    requires Execution(services, states, steps) && n <= |steps|
    ensures Inv(states[n])
  {
    if n > 0 {
      InvAlways(services, states, steps, n - 1);
      InvKept(services, states[n - 1], steps[n - 1]);
    }
  }

  /** From step i on the sample x is lost for good, and that step gave it up, or wrote over it. */
  ghost predicate GivenUpAt(services: set<Service>, states: seq<State>, steps: seq<Step>, n: nat, i: nat, x: Path)
    requires i < n < |states| && n <= |steps|
  {
    && LostAt(services, states, i, x)
    && (GivesUp(states[i], steps[i], x) || Overwrites(states[i], steps[i], x))
    && (steps[i].DiscardIncomplete? && x in states[i].handedOver ==> !states[i].handedOver[x])
    && forall j :: i < j <= n ==> !Held(services, states[j], x)
  }

  lemma LossNow(services: set<Service>, states: seq<State>, steps: seq<Step>, n: nat, x: Path)
    requires Execution(services, states, steps) && 0 < n <= |steps| && Held(services, states[n - 1], x)
    ensures Held(services, states[n], x) || GivenUpAt(services, states, steps, n, n - 1, x)
  {
    InvAlways(services, states, steps, n - 1);
    OnlyGivenUp(services, states[n - 1], steps[n - 1], x);
  }

  lemma LossStays(services: set<Service>, states: seq<State>, steps: seq<Step>, n: nat, i: nat, x: Path)
    requires |states| == |steps| + 1 && 0 < n <= |steps| && i < n - 1 && GivenUpAt(services, states, steps, n - 1, i, x)
    ensures Held(services, states[n], x) || GivenUpAt(services, states, steps, n, i, x)
  {
  }

  /**
   * No silent loss: in every run, over crashes and restarts, a sample ever handed over is safe, or the
   * step that it was last lost at gave it up - by a documented clean-up, which as incomplete takes
   * only incomplete samples at start-up, by start-up not recognising it, or by writing over a payload
   * of the same name.
   */
  lemma {:induction false} NoSilentLoss(services: set<Service>, states: seq<State>, steps: seq<Step>, n: nat, x: Path)
    requires Execution(services, states, steps) && n <= |steps|
    requires x in states[n].handedOver
    ensures Held(services, states[n], x) || exists i :: 0 <= i < n && GivenUpAt(services, states, steps, n, i, x)
  {
    if n > 0 {
      if steps[n - 1].HandOver? && steps[n - 1].p == x {
        assert InScratch(states[n], x);
      } else if Held(services, states[n - 1], x) {
        LossNow(services, states, steps, n, x);
      } else {
        NoSilentLoss(services, states, steps, n - 1, x);
        var i :| 0 <= i < n - 1 && GivenUpAt(services, states, steps, n - 1, i, x);
        LossStays(services, states, steps, n, i, x);
      }
    }
  }

  /** The same from any moment at which the sample is safe. */
  lemma {:induction false} StaysHeld(services: set<Service>, states: seq<State>, steps: seq<Step>, m: nat, n: nat, x: Path)
    requires Execution(services, states, steps) && m <= n <= |steps| && Held(services, states[m], x)
    ensures Held(services, states[n], x) || exists i :: m <= i < n && GivenUpAt(services, states, steps, n, i, x)
  {
    if m < n {
      if Held(services, states[n - 1], x) {
        LossNow(services, states, steps, n, x);
      } else {
        StaysHeld(services, states, steps, m, n - 1, x);
        var i :| m <= i < n - 1 && GivenUpAt(services, states, steps, n - 1, i, x);
        LossStays(services, states, steps, n, i, x);
      }
    }
  }

  /** The steps determine the states. */
  lemma {:induction false} SameStates(services: set<Service>, states: seq<State>, steps: seq<Step>,
                                      states': seq<State>, steps': seq<Step>, n: nat)
    requires Execution(services, states, steps) && Execution(services, states', steps')
    requires steps <= steps' && n <= |steps|
    ensures states[n] == states'[n]
  {
    if n > 0 {
      SameStates(services, states, steps, states', steps', n - 1);
      assert steps[n - 1] == steps'[n - 1];
    }
  }

  /** A name is not used again: what has left scratch does not come back. */
  lemma {:induction false} StaysGone(services: set<Service>, states: seq<State>, steps: seq<Step>, m: nat, n: nat, x: Path)
    requires Execution(services, states, steps) && m <= n <= |steps|
    requires x in states[m].named && x !in states[m].scratch
    ensures x in states[n].named && x !in states[n].scratch
  {
    if m < n {
      StaysGone(services, states, steps, m, n - 1, x);
    }
  }

  /** Once packed and gone from scratch, a sample is given up only with the payload it is in. */
  ghost predicate HeldAsPayload(services: set<Service>, states: seq<State>, steps: seq<Step>, n: nat, from: nat, x: Path)
    requires n <= |steps| && n < |states|
  {
    || Held(services, states[n], x)
    || exists i :: from <= i < n && GivenUpAt(services, states, steps, n, i, x)
                   && (steps[i].ClearUpload? || steps[i].ExpireTar? || steps[i].CreateTar?)
  }

  lemma GoneIsHeldAsPayload(services: set<Service>, states: seq<State>, steps: seq<Step>, m: nat, n: nat, x: Path)
    requires Execution(services, states, steps) && m <= n <= |steps|
    requires Held(services, states[m], x) && x in states[m].named && x !in states[m].scratch
    ensures HeldAsPayload(services, states, steps, n, m, x)
  {
    StaysHeld(services, states, steps, m, n, x);
    if !Held(services, states[n], x) {
      var i :| m <= i < n && GivenUpAt(services, states, steps, n, i, x);
      StaysGone(services, states, steps, m, i, x);
      assert GivesUp(states[i], steps[i], x) || Overwrites(states[i], steps[i], x);
    }
  }

  /** While start-up recognises samples, it gives up no complete one. */
  lemma ReadRunSparesComplete(services: set<Service>, states: seq<State>, steps: seq<Step>, n: nat, i: nat, x: Path)
    requires Execution(services, states, steps) && i < n <= |steps|
    requires forall k :: 0 <= k < n ==> !steps[k].DiscardUnread?
    requires GivenUpAt(services, states, steps, n, i, x) && x in states[i].handedOver && states[i].handedOver[x]
    ensures steps[i].ClearScratch? || steps[i].ClearUpload? || steps[i].ShedDirectory? || steps[i].ExpireTar? || steps[i].CreateTar?
  {
    assert GivesUp(states[i], steps[i], x) || Overwrites(states[i], steps[i], x);
  }

  lemma StepKeepsComplete(services: set<Service>, s: State, step: Step, x: Path)
    requires Enabled(services, s, step) && x in s.named && (x in s.scratch ==> s.scratch[x] in {Whole(true), Damaged})
    ensures
      var s' := Apply(services, s, step);
      x in s'.named && (x in s'.scratch ==> s'.scratch[x] in {Whole(true), Damaged})
  {}

  /** A complete sample is a directory of all its files, or one being removed, or gone for good. */
  lemma {:induction false} StaysComplete(services: set<Service>, states: seq<State>, steps: seq<Step>, m: nat, n: nat, x: Path)
    requires Execution(services, states, steps) && m <= n <= |steps|
    requires x in states[m].named && x in states[m].scratch && states[m].scratch[x] == Whole(true)
    ensures x in states[n].named && (x in states[n].scratch ==> states[n].scratch[x] in {Whole(true), Damaged})
  {
    if m < n {
      StaysComplete(services, states, steps, m, n - 1, x);
      StepKeepsComplete(services, states[n - 1], steps[n - 1], x);
    }
  }

  /** The sample is safe, or has been given up by something else than start-up's treatment of directories. */
  ghost predicate Spared(services: set<Service>, states: seq<State>, steps: seq<Step>, n: nat, from: nat, x: Path)
    requires n <= |steps| && n < |states|
  {
    || Held(services, states[n], x)
    || exists i :: from <= i < n && GivenUpAt(services, states, steps, n, i, x)
                   && (steps[i].ClearScratch? || steps[i].ClearUpload? || steps[i].ShedDirectory? || steps[i].ExpireTar?
                       || steps[i].CreateTar?)
  }

  /** Discarding a directory as incomplete does not lose what it was complete with. */
  lemma NotDiscarded(services: set<Service>, s: State, step: Step, x: Path)
    requires Enabled(services, s, step) && Held(services, s, x) && !Held(services, Apply(services, s, step), x)
    requires GivesUp(s, step, x) || Overwrites(s, step, x)
    requires x in s.scratch ==> s.scratch[x] in {Whole(true), Damaged}
    ensures !step.DiscardIncomplete?
  {
    if step.DiscardIncomplete? {
      var s' := Apply(services, s, step);
      assert !InScratch(s, x);
      assert forall t :: InTar(s, t, x) ==> InTar(s', t, x);
    }
  }

  /** A complete sample in scratch is spared by every run that does not discard it as unread. */
  lemma CompleteIsSpared(services: set<Service>, states: seq<State>, steps: seq<Step>, m: nat, n: nat, x: Path)
    requires Execution(services, states, steps) && m <= n <= |steps|
    requires x in states[m].scratch && states[m].scratch[x] == Whole(true)
    requires forall k :: m <= k < n && steps[k].DiscardUnread? ==> steps[k].p != x
    ensures Spared(services, states, steps, n, m, x)
  {
    InvAlways(services, states, steps, m);
    StaysHeld(services, states, steps, m, n, x);
    if !Held(services, states[n], x) {
      var i :| m <= i < n && GivenUpAt(services, states, steps, n, i, x);
      StaysComplete(services, states, steps, m, i, x);
      NotDiscarded(services, states[i], steps[i], x);
    }
  }

  // ---------- Payload names ----------

  /** A second copy of x besides the tar t. */
  ghost predicate HeldElsewhere(services: set<Service>, s: State, t: Path, x: Path) {
    InScratch(s, x) || Delivered(services, s, x) || exists u :: u != t && InTar(s, u, x)
  }

  /** Where no payload is written over, none is lost that way. */
  lemma NoneLostToReuse(services: set<Service>, states: seq<State>, steps: seq<Step>, from: nat, n: nat, i: nat, x: Path)
    requires Execution(services, states, steps) && from <= i < n <= |steps| && NoneOverwritten(states, steps, from)
    requires GivenUpAt(services, states, steps, n, i, x)
    ensures !steps[i].CreateTar?
  {
  }

  /** Creating a payload loses a sample exactly when a complete payload of that name is waiting and
      holds the last copy of something. */
  lemma ReuseLosesExactly(services: set<Service>, s: State, t: Path)
    requires Inv(s) && Enabled(services, s, CreateTar(t))
    ensures (forall x :: Held(services, s, x) ==> Held(services, Apply(services, s, CreateTar(t)), x))
            <==> (t in s.uploads && s.uploads[t].complete ==>
                    forall x :: x in s.uploads[t].samples ==> HeldElsewhere(services, s, t, x))
  {
    var s' := Apply(services, s, CreateTar(t));
    forall x ensures Held(services, s', x) <==> HeldElsewhere(services, s, t, x) {
      forall u | InTar(s', u, x) ensures u != t && InTar(s, u, x) {}
      forall u | u != t && InTar(s, u, x) ensures InTar(s', u, x) {}
    }
    forall x | Held(services, s, x) && !HeldElsewhere(services, s, t, x) ensures InTar(s, t, x) {}
    forall x | InTar(s, t, x) ensures Held(services, s, x) {}
  }

  // ---------- What a run records ----------

  ghost predicate HandedOverBefore(steps: seq<Step>, n: nat, x: Path) {
    exists i :: 0 <= i < n && i < |steps| && steps[i].HandOver? && steps[i].p == x
  }

  lemma HandedOverNext(steps: seq<Step>, n: nat, x: Path)
    requires n < |steps|
    ensures HandedOverBefore(steps, n + 1, x) <==> HandedOverBefore(steps, n, x) || (steps[n].HandOver? && steps[n].p == x)
  {
  }

  /** The samples handed over are exactly those that the emitter has handed over. */
  lemma {:induction false} HandedOverExactly(services: set<Service>, states: seq<State>, steps: seq<Step>, n: nat, x: Path)
    requires Execution(services, states, steps) && n <= |steps|
    ensures x in states[n].handedOver <==> HandedOverBefore(steps, n, x)
  {
    if n > 0 {
      HandedOverExactly(services, states, steps, n - 1, x);
      HandedOverNext(steps, n - 1, x);
    }
  }

  ghost predicate AcceptedBefore(states: seq<State>, steps: seq<Step>, n: nat, v: Service, x: Path)
    requires n <= |steps| < |states|
  {
    exists i :: 0 <= i < n && steps[i].Accept? && steps[i].service == v && InTar(states[i], steps[i].tar, x)
  }

  lemma AcceptedNext(states: seq<State>, steps: seq<Step>, n: nat, v: Service, x: Path)
    requires n < |steps| < |states|
    ensures AcceptedBefore(states, steps, n + 1, v, x)
            <==> AcceptedBefore(states, steps, n, v, x)
                 || (steps[n].Accept? && steps[n].service == v && InTar(states[n], steps[n].tar, x))
  {
  }

  lemma AcceptedStep(services: set<Service>, s: State, step: Step, v: Service, x: Path)
    requires Enabled(services, s, step)
    ensures (v, x) in Apply(services, s, step).accepted
            <==> (v, x) in s.accepted || (step.Accept? && step.service == v && InTar(s, step.tar, x))
  {
  }

  /** A service has a sample if and only if it has accepted a complete payload that held it. */
  lemma {:induction false} AcceptedExactly(services: set<Service>, states: seq<State>, steps: seq<Step>, n: nat, v: Service, x: Path)
    requires Execution(services, states, steps) && n <= |steps|
    ensures (v, x) in states[n].accepted <==> AcceptedBefore(states, steps, n, v, x)
  {
    if n > 0 {
      AcceptedExactly(services, states, steps, n - 1, v, x);
      AcceptedNext(states, steps, n - 1, v, x);
      AcceptedStep(services, states[n - 1], steps[n - 1], v, x);
    }
  }

  /** The sample was intact when it was packed into a payload of that name. */
  ghost predicate PackedBefore(states: seq<State>, steps: seq<Step>, n: nat, t: Path, x: Path)
    requires n <= |steps| < |states|
  {
    exists i :: 0 <= i < n && steps[i] == WalkSample(x) && InScratch(states[i], x)
                && states[i].build.Writing? && states[i].build.tar == t
  }

  lemma PackedStep(services: set<Service>, s: State, step: Step, t: Path, x: Path)
    requires Enabled(services, s, step)
    ensures InTar(Apply(services, s, step), t, x) ==>
              InTar(s, t, x) || (s.build.Writing? && s.build.tar == t && x in s.build.whole)
    ensures
      var build := Apply(services, s, step).build;
      build.Writing? && x in build.whole && build.tar == t ==>
        || (s.build.Writing? && x in s.build.whole && s.build.tar == t)
        || (step == WalkSample(x) && InScratch(s, x) && s.build.Writing? && s.build.tar == t)
  {
  }

  /** What a payload holds has been packed into it intact. */
  lemma {:induction false} PayloadsHoldPacked(services: set<Service>, states: seq<State>, steps: seq<Step>, n: nat, t: Path, x: Path)
    requires Execution(services, states, steps) && n <= |steps|
    ensures InTar(states[n], t, x) ==> PackedBefore(states, steps, n, t, x)
    ensures states[n].build.Writing? && x in states[n].build.whole && states[n].build.tar == t ==> PackedBefore(states, steps, n, t, x)
  {
    if n > 0 {
      PayloadsHoldPacked(services, states, steps, n - 1, t, x);
      PackedStep(services, states[n - 1], steps[n - 1], t, x);
      assert PackedBefore(states, steps, n - 1, t, x) ==> PackedBefore(states, steps, n, t, x);
      assert steps[n - 1] == WalkSample(x) && InScratch(states[n - 1], x) && states[n - 1].build.Writing? && states[n - 1].build.tar == t ==>
          PackedBefore(states, steps, n, t, x);
    }
  }

  /** A sample handed over at step m stays in the sample set until it is forgotten or the process dies. */
  lemma {:induction false} StaysInSet(services: set<Service>, states: seq<State>, steps: seq<Step>, m: nat, n: nat)
    requires Execution(services, states, steps) && m < n <= |steps| && (steps[m].HandOver? || steps[m].RecoverSample?)
    requires forall i :: m < i < n ==> !steps[i].Crash? && steps[i] != ForgetSample(steps[m].p)
    ensures steps[m].p in states[n].sampleSet
  {
    if m < n - 1 {
      StaysInSet(services, states, steps, m, n - 1);
    }
  }

  /** So does a payload in the queue until it is taken out, cleared, or the process dies. */
  lemma {:induction false} StaysQueued(services: set<Service>, states: seq<State>, steps: seq<Step>, m: nat, n: nat)
    requires Execution(services, states, steps) && m < n <= |steps| && steps[m].Enqueue?
    requires forall i :: m < i < n ==>
               !steps[i].Crash? && steps[i] != Dequeue(steps[m].tar) && steps[i] != ClearUpload(steps[m].tar)
    ensures steps[m].tar in states[n].uploadSet
  {
    if m < n - 1 {
      StaysQueued(services, states, steps, m, n - 1);
    }
  }

  // ---------- The sample set and the queue ----------

  /** One step: only the emitter's clean-up takes a directory away from under its sample set entry. */
  lemma EntriesStay(services: set<Service>, s: State, step: Step, p: Path)
    requires Enabled(services, s, step) && p in Apply(services, s, step).sampleSet
    ensures p in s.sampleSet || (p in s.scratch && p in Apply(services, s, step).scratch)
    ensures p in s.scratch ==> p in Apply(services, s, step).scratch || step == ClearScratch(p, true)
  {}

  /** In every run, what the sample set names is on disk, or the emitter has cleared it away. */
  lemma {:induction false} EntriesExist(services: set<Service>, states: seq<State>, steps: seq<Step>, n: nat, p: Path)
    requires Execution(services, states, steps) && n <= |steps|
    requires p in states[n].sampleSet && p !in states[n].scratch
    ensures exists i :: 0 <= i < n && steps[i] == ClearScratch(p, true)
  {
    if n > 0 {
      EntriesStay(services, states[n - 1], steps[n - 1], p);
      if p !in states[n - 1].scratch {
        EntriesExist(services, states, steps, n - 1, p);
      }
    }
  }

  /** The upload queue: with fresh payload names, every queued payload on disk is complete. */
  predicate QueueSound(s: State) {
    && (forall t :: t in s.uploadSet && t in s.uploads ==> s.uploads[t].complete)
    && (s.build.Writing? ==> s.build.tar !in s.uploadSet)
  }

  predicate FreshName(s: State, step: Step) {
    step.CreateTar? ==> step.tar !in s.uploads && step.tar !in s.uploadSet
  }

  lemma QueueStaysSound(services: set<Service>, s: State, step: Step)
    requires Enabled(services, s, step) && QueueSound(s) && FreshName(s, step)
    ensures QueueSound(Apply(services, s, step))
  {}

  lemma {:induction false} QueueAlwaysSound(services: set<Service>, states: seq<State>, steps: seq<Step>, n: nat)
    requires Execution(services, states, steps) && n <= |steps|
    requires forall i :: 0 <= i < n ==> FreshName(states[i], steps[i])
    ensures QueueSound(states[n])
  {
    if n > 0 {
      QueueAlwaysSound(services, states, steps, n - 1);
      QueueStaysSound(services, states[n - 1], steps[n - 1]);
    }
  }

  // ---------- Two payloads of one second ----------

  /**
   * A run that builds and queues a payload "t" from a complete sample "a", does not get to upload it, and
   * goes on to build one from a sample "b" that has been handed over meanwhile.
   */
  function Scene(i: nat): State {
    match i
    case 0 => EMPTY
    case 1 => EMPTY.(scratch := map["a" := Filling], named := {"a"})
    case 2 => HandedOver()
    case 3 => HandedOver().(build := Opening(["a"]))
    case 4 => HandedOver().(uploads := map["t" := Tar(false, {})], build := Writing("t", ["a"], {}, {}))
    case 5 => HandedOver().(uploads := map["t" := Tar(false, {})], build := Writing("t", ["a"], {"a"}, {"a"}))
    case 6 => HandedOver().(uploads := map["t" := Tar(true, {"a"})], build := Packed("t", ["a"]))
    case 7 => HandedOver().(uploads := map["t" := Tar(true, {"a"})], build := Packed("t", ["a"]), sampleSet := {})
    case 8 => Built().(build := Packed("t", ["a"]))
    case 9 => Built()
    case 10 => Built().(uploadSet := {"t"})
    case 11 => Built().(uploadSet := {"t"}, scratch := map["b" := Filling], named := {"a", "b"})
    case 12 => Second()
    case _ => Second().(build := Opening(["b"]))
  }

  function HandedOver(): State {
    EMPTY.(scratch := map["a" := Whole(true)], sampleSet := {"a"}, named := {"a"}, handedOver := map["a" := true])
  }

  function Built(): State {
    EMPTY.(uploads := map["t" := Tar(true, {"a"})], named := {"a"}, handedOver := map["a" := true])
  }

  function Second(): State {
    Built().(uploadSet := {"t"}, scratch := map["b" := Whole(true)], sampleSet := {"b"}, named := {"a", "b"},
             handedOver := map["a" := true, "b" := true])
  }

  function Script(i: nat): Step {
    match i
    case 0 => NewDirectory("a")
    case 1 => HandOver("a", true)
    case 2 => ReadSet(["a"])
    case 3 => CreateTar("t")
    case 4 => WalkSample("a")
    case 5 => CloseTar
    case 6 => ForgetSample("a")
    case 7 => ShedDirectory("a", true)
    case 8 => EndBuild
    case 9 => Enqueue("t")
    case 10 => NewDirectory("b")
    case 11 => HandOver("b", true)
    case _ => ReadSet(["b"])
  }

  predicate StepsTo(v: Service, i: nat) {
    Enabled({v}, Scene(i), Script(i)) && Scene(i + 1) == Apply({v}, Scene(i), Script(i))
  }

  lemma FirstHandedOver(v: Service)
    ensures StepsTo(v, 0) && StepsTo(v, 1) && StepsTo(v, 2)
  {}

  lemma FirstWritten(v: Service)
    ensures StepsTo(v, 3) && StepsTo(v, 4) && StepsTo(v, 5)
  {
    assert {} + {"a"} == {"a"};
  }

  lemma FirstRemoved(v: Service)
    ensures StepsTo(v, 6) && StepsTo(v, 7)
  {
    assert Scene(6).sampleSet - {"a"} == {};
    assert Scene(7).scratch - {"a"} == map[];
  }

  lemma FirstQueued(v: Service)
    ensures StepsTo(v, 8) && StepsTo(v, 9)
  {
    assert {} + {"t"} == {"t"};
  }

  lemma SecondHandedOver(v: Service)
    ensures StepsTo(v, 10) && StepsTo(v, 11)
  {
    assert {"a"} + {"b"} == {"a", "b"};
    assert "b" != "a";
  }

  lemma SecondRead(v: Service)
    ensures StepsTo(v, 12)
  {}

  lemma EveryStep(v: Service, i: nat)
    requires i < 13
    ensures StepsTo(v, i)
  {
    if i < 3 {
      FirstHandedOver(v);
    } else if i < 6 {
      FirstWritten(v);
    } else if i < 8 {
      FirstRemoved(v);
    } else if i < 10 {
      FirstQueued(v);
    } else if i < 12 {
      SecondHandedOver(v);
    } else {
      SecondRead(v);
    }
  }

  function Scenes(): seq<State> {
    seq(14, i requires 0 <= i => Scene(i))
  }

  function Scripted(): seq<Step> {
    seq(13, i requires 0 <= i => Script(i))
  }

  lemma TwoPayloads(v: Service)
    ensures Execution({v}, Scenes(), Scripted())
  {
    forall i | 0 <= i < 13
      ensures Enabled({v}, Scenes()[i], Scripted()[i]) && Scenes()[i + 1] == Apply({v}, Scenes()[i], Scripted()[i])
    {
      EveryStep(v, i);
    }
  }

  /** Names have a resolution of one second: a second payload in the same second loses the first. */
  lemma SameSecondLoses(v: Service)
    ensures Execution({v}, Scenes(), Scripted())
    ensures var s := Scenes()[13];
            && "a" in s.handedOver && s.handedOver["a"] && Held({v}, s, "a")
            && s.build == Opening(["b"]) && InScratch(s, "b")
            && Enabled({v}, s, CreateTar("t"))
            && !Held({v}, Apply({v}, s, CreateTar("t")), "a")
  {
    TwoPayloads(v);
    var s := Scene(13);
    assert InTar(s, "t", "a");
    var s' := Apply({v}, s, CreateTar("t"));
    assert s'.uploads == map["t" := Tar(false, {})];
    assert "a" !in s'.scratch;
    assert v in {v} && (v, "a") !in s'.accepted;
  }
}
