/**
 * The uploader object. Its methods do what the upload goroutine does, one disk or set operation at
 * a time; each operation appends its step to the ghost run, so every method is proved to follow
 * the state machine of UploadPipeline and inherits what is proved about its runs. What the disk, the
 * clock and the services do is an input: where an input says that operations succeed, they do, and
 * otherwise each may fail. The emitter goroutine may act between any two operations.
 */
module CldyUploader {
  import opened Wrappers
  import opened Instants
  import opened Collections
  import opened UploadPipeline
  import opened UploadPass
  import Q = UploadQueue

  datatype Failure = NoStorageServices | DiskSpaceExceeded | Other

  /** What the disk does while a payload is built: whether there is space, whether there is after old
      payloads have been cleared, what ages they have, and whether all other operations succeed. */
  datatype Disk = Disk(space: bool, spaceAfter: bool, ages: map<Path, Duration>, reliable: bool)
  {
    predicate HasRoom() {
      space || spaceAfter
    }

    /** The payload is cleared to make room. */
    predicate Clears(limit: Duration, t: Path) {
      !space && t in ages && ages[t] > limit
    }
  }

  class Uploader {
    // the disk
    var scratch: map<Path, Directory>
    var uploads: map<Path, Tar>
    // directory names already used: a name carries its time in milliseconds and a counter
    var named: set<Path>
    // memory
    var sampleSet: set<Path>
    var uploadSet: set<Path>
    // the open payload file and what has been written to it
    var build: Build
    var storageServices: seq<Service>
    var emitterStarted: bool
    const configured: seq<Service>
    const recoveryPeriod: Duration
    const uploadFrequency: Duration
    // how the state came about
    ghost var handedOver: map<Path, bool>
    ghost var accepted: set<(Service, Path)>
    ghost var states: seq<State>
    ghost var steps: seq<Step>

    ghost function Services(): set<Service> {
      set v | v in configured
    }

    ghost function Now(): State
      reads this
    {
      State(scratch, uploads, sampleSet, uploadSet, build, named, handedOver, accepted)
    }

    ghost predicate Valid()
      reads this
    {
      && Execution(Services(), states, steps)
      && states[|steps|] == Now()
      && (storageServices == [] || storageServices == configured)
    }

    constructor (configured: seq<Service>, recoveryPeriod: Duration, uploadFrequency: Duration)
      ensures Valid() && Now() == EMPTY && !emitterStarted
      ensures this.configured == configured && this.recoveryPeriod == recoveryPeriod
      ensures this.uploadFrequency == uploadFrequency
    {
      scratch, uploads, sampleSet, uploadSet := map[], map[], {}, {};
      storageServices, emitterStarted := [], false;
      this.configured, this.recoveryPeriod, this.uploadFrequency := configured, recoveryPeriod, uploadFrequency;
      build, named, handedOver, accepted := NoBuild, {}, map[], {};
      states, steps := [EMPTY], [];
    }

    /** The run has gone on by one step, taken in the given state. */
    twostate predicate Took(step: Step)
      reads this
    {
      && Valid()
      && Enabled(Services(), old(Now()), step)
      && Now() == Apply(Services(), old(Now()), step)
      && steps == old(steps) + [step] && states == old(states) + [Now()]
      && storageServices == old(storageServices) && emitterStarted == old(emitterStarted)
    }

    ghost method Record(step: Step)
      requires Execution(Services(), states, steps)
      requires Enabled(Services(), states[|steps|], step)
      requires Now() == Apply(Services(), states[|steps|], step)
      requires storageServices == [] || storageServices == configured
      modifies this`states, this`steps
      ensures Valid() && steps == old(steps) + [step] && states == old(states) + [Now()]
    {
      states := states + [Now()];
      steps := steps + [step];
    }

    /**
     * Steps have been added to the run; the emitter's state is as it was, and without it there are no
     * steps of it. Unread samples have been discarded, and payloads created, among the given ones only.
     */
    twostate predicate WentOnBut(unread: set<Path>, tars: set<Path>)
      reads this
    {
      && Valid()
      && old(steps) <= steps && old(states) <= states
      && emitterStarted == old(emitterStarted)
      && AllowedSince(emitterStarted, unread, tars, steps, |old(steps)|)
    }

    static predicate Allowed(emitting: bool, unread: set<Path>, tars: set<Path>, step: Step) {
      && (step.ClearScratch? ==> emitting)
      && (step.DiscardUnread? ==> step.p in unread)
      && (step.CreateTar? ==> step.tar in tars)
    }

    static ghost predicate AllowedSince(emitting: bool, unread: set<Path>, tars: set<Path>, steps: seq<Step>, from: nat) {
      forall i :: from <= i < |steps| ==> Allowed(emitting, unread, tars, steps[i])
    }

    static lemma AllowedJoin(emitting: bool, unread: set<Path>, tars: set<Path>, mid: seq<Step>, steps: seq<Step>, from: nat)
      requires mid <= steps && from <= |mid|
      requires AllowedSince(emitting, unread, tars, mid, from) && AllowedSince(emitting, {}, {}, steps, |mid|)
      ensures AllowedSince(emitting, unread, tars, steps, from)
    {
      assert forall i :: from <= i < |mid| ==> steps[i] == mid[i];
    }

    twostate predicate WentOn()
      reads this
    {
      WentOnBut({}, {})
    }

    /** While there is no emitter, only the given directories may have been touched. */
    twostate predicate TouchedOnly(files: set<Path>)
      reads this
    {
      !emitterStarted ==>
        && scratch.Keys <= old(scratch.Keys) && sampleSet <= old(sampleSet)
        && forall p :: p in old(scratch) && p !in files ==> p in scratch && scratch[p] == old(scratch[p])
    }

    lemma InvNow()
      requires Valid()
      ensures Inv(Now())
    {
      InvAlways(Services(), states, steps, |steps|);
    }

    // ---------- The emitter goroutine ----------

    /** Hands over a directory the emitter has filled and closed. */
    method AddSample(p: Path, complete: bool)
      requires Valid() && p in scratch && scratch[p].Filling?
      modifies this
      ensures Took(HandOver(p, complete))
    {
      scratch := scratch[p := Whole(complete)];
      handedOver := handedOver[p := complete];
      sampleSet := sampleSet + {p};
      Record(HandOver(p, complete));
    }

    method RemoveSample(p: Path)
      requires Valid()
      modifies this
      ensures Took(ForgetSample(p))
    {
      sampleSet := sampleSet - {p};
      Record(ForgetSample(p));
    }

    method MakeDirectory(p: Path)
      requires Valid() && p !in named
      modifies this
      ensures Took(NewDirectory(p))
    {
      scratch := scratch[p := Filling];
      named := named + {p};
      Record(NewDirectory(p));
    }

    /** RemoveAll on a scratch directory, which may stop half way. */
    method RemoveScratch(p: Path, gone: bool)
      requires Valid() && p in scratch
      modifies this
      ensures Took(ClearScratch(p, gone))
    {
      scratch := if gone then scratch - {p} else scratch[p := Damaged];
      Record(ClearScratch(p, gone));
    }

    /** What the emitter goroutine cannot touch, and what it cannot undo. */
    twostate predicate OnlyEmitterActed()
      reads this
    {
      && WentOn()
      && storageServices == old(storageServices)
      && build == old(build) && uploads == old(uploads) && uploadSet == old(uploadSet) && accepted == old(accepted)
      && old(named) <= named
      && (forall p :: p in old(named) && p in scratch ==> p in old(scratch))
      && (forall p :: p in sampleSet && p !in old(sampleSet) ==> p !in old(named) || (p in old(scratch) && old(scratch[p]).Filling?))
      && (forall p :: p in old(scratch) && p in scratch && !old(scratch[p]).Filling? ==> !scratch[p].Filling?)
      && (forall p :: p in old(scratch) && old(scratch[p]).Whole? ==>
                        (p in scratch && scratch[p] == old(scratch[p])) || Cleared(steps, |old(steps)|, p))
      && (old(scratch.Keys) <= scratch.Keys || Disturbed(steps, |old(steps)|))
      && (!old(emitterStarted) ==> steps == old(steps) && Now() == old(Now()))
    }

    /** Any number of operations of the emitter goroutine. */
    method EmitterRuns()
      requires Valid()
      modifies this
      ensures OnlyEmitterActed()
    {
      if !emitterStarted {
        return;
      }
      InvNow();
      var n: nat := *;
      while n > 0
        invariant OnlyEmitterActed()
      {
        EmitterActs();
        n := n - 1;
      }
    }

    method EmitterActs()
      requires Valid() && emitterStarted
      modifies this
      ensures OnlyEmitterActed()
    {
      InvNow();
      var p: Path := *;
      var choice: nat := *;
      var flag: bool := *;
      if choice == 0 && p !in named {
        MakeDirectory(p);
      } else if choice == 1 && p in scratch && scratch[p].Filling? {
        AddSample(p, flag);
      } else if choice == 2 && p in scratch {
        RemoveScratch(p, flag);
        assert steps[|old(steps)|] == ClearScratch(p, flag);
      } else {
        RemoveSample(p);
      }
    }

    // ---------- ConstructPayload ----------

    /** Nothing was queued or uploaded, and payloads other than t were at most cleared away. */
    twostate predicate KeptOthers(t: Path)
      reads this
    {
      && Valid() && old(steps) <= steps
      && storageServices == old(storageServices) && accepted == old(accepted)
      && uploadSet <= old(uploadSet)
      && (forall u :: u in old(uploadSet) && u !in uploadSet ==> u != t && u !in uploads)
      && old(named) <= named
      && forall u :: u in uploads && u != t ==> u in old(uploads) && uploads[u] == old(uploads[u])
    }

    /** And of these only old ones, for room. */
    twostate predicate OldGone(t: Path, disk: Disk)
      reads this
    {
      forall u :: u in old(uploads) && u != t ==> u in uploads || disk.Clears(recoveryPeriod / 2, u)
    }

    twostate predicate NoneGone(t: Path)
      reads this
    {
      forall u :: u in old(uploads) && u != t ==> u in uploads
    }

    /** The payload t was created and built, over nothing if its name was free. */
    twostate predicate Built(t: Path)
      reads this
    {
      && WentOnBut({}, {t}) && KeptOthers(t)
      && (t !in old(uploads) ==> NoneOverwritten(states, steps, |old(steps)|))
    }

    /** A payload under way was worked on. */
    twostate predicate OnlyBuilt(t: Path)
      reads this
    {
      WentOn() && KeptOthers(t)
    }

    /** set.contents: the members, each once, in any order. */
    method Contents(members: set<Path>) returns (files: seq<Path>)
      ensures forall p :: p in files <==> p in members
      ensures |files| == |members|
      ensures forall i, j :: 0 <= i < j < |files| ==> files[i] != files[j]
    {
      files := [];
      var rest := members;
      while rest != {}
        invariant rest <= members && |files| + |rest| == |members|
        invariant forall p :: p in files <==> p in members - rest
        invariant forall i, j :: 0 <= i < j < |files| ==> files[i] != files[j]
        decreases rest
      {
        var p := TakeAny(rest);
        assert p !in files;
        files := files + [p];
        rest := rest - {p};
      }
    }

    /** Takes down what the sample set holds. */
    method ReadSamples() returns (files: seq<Path>)
      requires Valid() && build.NoBuild?
      modifies this
      ensures Took(ReadSet(files)) && forall f :: f in files <==> f in old(sampleSet)
    {
      files := Contents(sampleSet);
      build := Opening(files);
      assert (set f | f in files) == sampleSet;
      Record(ReadSet(files));
    }

    method OpenTar(t: Path)
      requires Valid() && build.Opening?
      modifies this
      ensures Took(CreateTar(t))
    {
      uploads := uploads[t := Tar(false, {})];
      build := Writing(t, build.files, {}, {});
      Record(CreateTar(t));
    }

    /** An error return of createTGZ; its deferred closers may still leave a well-formed archive. */
    method Abort()
      requires Valid() && build.Writing?
      modifies this
      ensures exists wellFormed :: Took(AbortTar(wellFormed))
    {
      var wellFormed: bool := *;
      uploads := uploads[build.tar := Tar(wellFormed, build.whole)];
      build := NoBuild;
      Record(AbortTar(wellFormed));
    }

    method Close()
      requires Valid() && build.Writing? && forall f :: f in build.files ==> f in build.walked
      modifies this
      ensures Took(CloseTar)
    {
      uploads := uploads[build.tar := Tar(true, build.whole)];
      build := Packed(build.tar, build.files);
      Record(CloseTar);
    }

    /** filepath.Walk over one directory, copying every file into the archive. */
    method Walk(p: Path)
      requires Valid() && build.Writing? && p in build.files && p in scratch
      modifies this
      ensures Took(WalkSample(p))
    {
      build := build.(walked := build.walked + {p},
                      whole := if scratch[p].Whole? then build.whole + {p} else build.whole);
      Record(WalkSample(p));
    }

    method GiveUpForDisk(reliable: bool)
      requires Valid() && build.Writing?
      modifies this
      ensures exists removed :: Took(DiskFull(removed))
      ensures reliable ==> old(build.tar) !in uploads
    {
      var removed: bool :| reliable ==> removed;
      if removed {
        uploads := uploads - {build.tar};
      }
      build := Shedding(build.files);
      Record(DiskFull(removed));
    }

    method RemoveUpload(t: Path)
      requires Valid() && t in uploads && (build.NoBuild? || (build.Writing? && t != build.tar))
      modifies this
      ensures WentOn() && steps == old(steps) + [ClearUpload(t)] && storageServices == old(storageServices)
      ensures Now() == old(Now()).(uploads := old(uploads) - {t}, uploadSet := old(uploadSet) - {t})
    {
      uploads := uploads - {t};
      uploadSet := uploadSet - {t};
      Record(ClearUpload(t));
    }

    /** Only payloads over the age limit are gone, each with its queue entry. */
    static predicate OnlyOldCleared(was: State, s: State, ages: map<Path, Duration>, limit: Duration) {
      && s == was.(uploads := s.uploads, uploadSet := s.uploadSet)
      && (forall t :: t in s.uploads ==> t in was.uploads && s.uploads[t] == was.uploads[t])
      && (forall t :: t in was.uploads && t !in s.uploads ==> t in ages && ages[t] > limit)
      && s.uploadSet == was.uploadSet - (was.uploads.Keys - s.uploads.Keys)
    }

    static lemma OldClearedNext(was: State, s: State, t: Path, ages: map<Path, Duration>, limit: Duration)
      requires OnlyOldCleared(was, s, ages, limit) && t in s.uploads && t in ages && ages[t] > limit
      ensures OnlyOldCleared(was, s.(uploads := s.uploads - {t}, uploadSet := s.uploadSet - {t}), ages, limit)
    {
    }

    /** Removes payloads older than half the recovery period, with their queue entries. A file that
        cannot be examined or removed is passed over; only a failure to list them is an error. */
    method ClearOldUploadSamples(ages: map<Path, Duration>, reliable: bool) returns (ok: bool)
      requires Valid() && (build.NoBuild? || build.Writing?)
      // the payload being written has only just been created
      requires build.Writing? && build.tar in ages ==> ages[build.tar] <= recoveryPeriod / 2
      modifies this
      ensures WentOn() && storageServices == old(storageServices)
      ensures OnlyOldCleared(old(Now()), Now(), ages, recoveryPeriod / 2)
      ensures forall i :: |old(steps)| <= i < |steps| ==> steps[i].ClearUpload?
      ensures reliable ==> ok && forall t :: t in uploads && t in ages ==> ages[t] <= recoveryPeriod / 2
    {
      ok :| reliable ==> ok;
      if !ok {
        return;
      }
      var rest := uploads.Keys;
      while rest != {}
        invariant rest <= uploads.Keys
        invariant WentOn() && storageServices == old(storageServices)
        invariant OnlyOldCleared(old(Now()), Now(), ages, recoveryPeriod / 2)
        invariant forall i :: |old(steps)| <= i < |steps| ==> steps[i].ClearUpload?
        invariant reliable ==> forall t :: t in uploads && t !in rest && t in ages ==> ages[t] <= recoveryPeriod / 2
        decreases rest
      {
        var t := TakeAny(rest);
        rest := rest - {t};
        ClearIfOld(t, ages, reliable, old(Now()));
      }
    }

    method ClearIfOld(t: Path, ages: map<Path, Duration>, reliable: bool, ghost was: State)
      requires Valid() && t in uploads && (build.NoBuild? || build.Writing?)
      requires build.Writing? && build.tar in ages ==> ages[build.tar] <= recoveryPeriod / 2
      requires OnlyOldCleared(was, Now(), ages, recoveryPeriod / 2)
      modifies this
      ensures WentOn() && storageServices == old(storageServices) && build == old(build)
      ensures OnlyOldCleared(was, Now(), ages, recoveryPeriod / 2)
      ensures steps == old(steps) || steps == old(steps) + [ClearUpload(t)]
      ensures uploads.Keys <= old(uploads.Keys) && old(uploads.Keys) - {t} <= uploads.Keys
      ensures reliable && t in uploads && t in ages ==> ages[t] <= recoveryPeriod / 2
    {
      var removed: bool :| reliable ==> removed;
      if t in ages && ages[t] > recoveryPeriod / 2 && removed {
        OldClearedNext(was, Now(), t, ages, recoveryPeriod / 2);
        RemoveUpload(t);
      }
    }

    /**
     * Makes room when the disk is short: None when the archive may be written. Only then are payloads
     * cleared, those older than half the recovery period.
     */
    method MakeRoom(disk: Disk) returns (r: Option<Failure>)
      requires Valid() && build.Writing?
      modifies this
      ensures OnlyBuilt(old(build.tar)) && build == old(build) && sampleSet == old(sampleSet) && scratch == old(scratch)
      ensures build.tar in old(uploads) ==> build.tar in uploads && uploads[build.tar] == old(uploads[build.tar])
      ensures r in {None, Some(DiskSpaceExceeded), Some(Other)}
      ensures r == None ==> disk.space || disk.spaceAfter
      ensures r == Some(DiskSpaceExceeded) ==> !disk.space && !disk.spaceAfter
      ensures r == Some(Other) ==> !disk.reliable
      ensures forall t :: t in old(uploads) && t !in uploads ==>
                            !disk.space && t in disk.ages && disk.ages[t] > recoveryPeriod / 2
      ensures !disk.space && disk.reliable ==>
                forall t :: t in uploads && t != build.tar && t in disk.ages ==> disk.ages[t] <= recoveryPeriod / 2
    {
      if disk.space {
        return None;
      }
      var listed := ClearOldUploadSamples(disk.ages - {build.tar}, disk.reliable);
      if !listed {
        return Some(Other);
      }
      r := if disk.spaceAfter then None else Some(DiskSpaceExceeded);
    }

    /** The intact directories of an earlier moment are still intact, or have been cleared since. */
    ghost predicate StillIntact(before: map<Path, Directory>, from: nat)
      reads this
    {
      forall p :: p in before && before[p].Whole? ==> InScratch(Now(), p) || Cleared(steps, from, p)
    }

    /** Of the given directories, those intact at an earlier moment have been packed, or cleared. */
    ghost predicate AccountedFor(packed: set<Path>, files: seq<Path>, before: map<Path, Directory>, from: nat)
      reads this
    {
      forall f :: f in files && f in before && before[f].Whole? ==> f in packed || Cleared(steps, from, f)
    }

    /** Only this build went on; everything else but the emitter stood still. */
    twostate predicate OnlyPacked()
      reads this
    {
      && old(build).Writing? && build.Writing? && OnlyBuilt(old(build.tar))
      && build.tar == old(build.tar) && build.files == old(build.files)
      && old(build.walked) <= build.walked && old(build.whole) <= build.whole
      && uploads == old(uploads) && uploadSet == old(uploadSet)
      && TouchedOnly({})
    }

    /** No directory has gone, or the emitter has cleared one. */
    twostate predicate StillThere()
      reads this
    {
      old(scratch.Keys) <= scratch.Keys || Disturbed(steps, |old(steps)|)
    }

    static predicate AllThere(files: seq<Path>, scratch: map<Path, Directory>) {
      forall f :: f in files ==> f in scratch
    }

    method PackOne(f: Path, reliable: bool) returns (ok: bool)
      requires Valid() && build.Writing? && f in build.files
      modifies this
      ensures OnlyPacked() && StillThere()
      ensures StillIntact(old(scratch), |old(steps)|)
      ensures ok ==> f in build.walked && AccountedFor(build.whole, [f], old(scratch), |old(steps)|)
      ensures ok || !reliable || f !in old(scratch) || Disturbed(steps, |old(steps)|)
    {
      EmitterRuns();
      ghost var from := steps;
      assert StillIntact(old(scratch), |old(steps)|);
      var readable: bool :| reliable ==> readable;
      if f !in scratch || !readable {
        return false;
      }
      Walk(f);
      ClearedStays(from, steps, |old(steps)|, |old(steps)|);
      ok := true;
    }

    /** The directories of an earlier moment are still there, or the emitter has cleared one since. */
    ghost predicate Undisturbed(before: map<Path, Directory>, from: nat)
      reads this
    {
      before.Keys <= scratch.Keys || Disturbed(steps, from)
    }

    /** File i of the build, after those before it; `before` is scratch at the start. */
    method PackNext(i: nat, reliable: bool, ghost before: map<Path, Directory>, ghost from: nat) returns (ok: bool)
      requires Valid() && build.Writing? && i < |build.files| && from <= |steps|
      requires StillIntact(before, from) && Undisturbed(before, from)
      requires AccountedFor(build.whole, build.files[..i], before, from)
      modifies this
      ensures OnlyPacked()
      ensures StillIntact(before, from) && Undisturbed(before, from)
      ensures AccountedFor(build.whole, build.files[..if ok then i + 1 else i], before, from)
      ensures ok ==> build.files[i] in build.walked
      ensures ok || !reliable || build.files[i] !in before || Disturbed(steps, from)
    {
      var f := build.files[i];
      ghost var mid := steps;
      ok := PackOne(f, reliable);
      ClearedStays(mid, steps, from, from);
      ClearedStays(steps, steps, from, |mid|);
      assert forall g :: g in build.files[..i + 1] <==> g in build.files[..i] || g == f;
      assert f in [f];
    }

    /** Packs the directories of the build in order. */
    method PackAll(reliable: bool) returns (ok: bool)
      requires Valid() && build.Writing?
      modifies this
      ensures OnlyPacked() && StillThere()
      ensures ok ==> forall f :: f in build.files ==> f in build.walked
      ensures ok ==> AccountedFor(build.whole, build.files, old(scratch), |old(steps)|)
      ensures ok || !reliable || !AllThere(build.files, old(scratch)) || Disturbed(steps, |old(steps)|)
    {
      ghost var before, from := scratch, |steps|;
      var i := 0;
      while i < |build.files|
        invariant OnlyPacked() && 0 <= i <= |build.files|
        invariant forall k :: 0 <= k < i ==> build.files[k] in build.walked
        invariant AccountedFor(build.whole, build.files[..i], before, from)
        invariant StillIntact(before, from) && Undisturbed(before, from)
        decreases |build.files| - i
      {
        ok := PackNext(i, reliable, before, from);
        if !ok {
          return;
        }
        i := i + 1;
      }
      assert build.files[..i] == build.files;
      ok := true;
    }

    /** Packs the directories and closes the streams; on failure the deferred closers run. */
    method WriteArchive(reliable: bool) returns (ok: bool)
      requires Valid() && build.Writing?
      modifies this
      ensures OnlyBuilt(old(build.tar)) && TouchedOnly({}) && NoneGone(old(build.tar))
      ensures ok ==>
                && build == Packed(old(build.tar), old(build.files))
                && build.tar in uploads && uploads[build.tar].complete
                && AccountedFor(uploads[build.tar].samples, build.files, old(scratch), |old(steps)|)
      ensures !ok ==> build.NoBuild?
      ensures ok || !reliable || !AllThere(old(build.files), old(scratch)) || Disturbed(steps, |old(steps)|)
    {
      var packed := PackAll(reliable);
      var closed: bool :| reliable ==> closed;
      ok := packed && closed;
      ghost var end := steps;
      if !ok {
        Abort();
        ClearedStays(end, steps, |old(steps)|, |old(steps)|);
        return;
      }
      Close();
      ClearedStays(end, steps, |old(steps)|, |old(steps)|);
    }

    /** createTGZ: None when the archive is written and closed. */
    method CreateTGZ(disk: Disk) returns (r: Option<Failure>)
      requires Valid() && build.Writing?
      modifies this
      ensures OnlyBuilt(old(build.tar)) && TouchedOnly({}) && OldGone(old(build.tar), disk)
      ensures r == None ==>
                && build == Packed(old(build.tar), old(build.files))
                && build.tar in uploads && uploads[build.tar].complete
                && AccountedFor(uploads[build.tar].samples, build.files, old(scratch), |old(steps)|)
      ensures r == Some(DiskSpaceExceeded) ==> build.Writing? && build.tar == old(build.tar) && build.files == old(build.files)
      ensures r == Some(Other) ==> build.NoBuild?
      ensures r in {None, Some(DiskSpaceExceeded), Some(Other)}
      ensures r == None ==> disk.HasRoom()
      ensures r == Some(DiskSpaceExceeded) ==> !disk.HasRoom()
      ensures r == Some(Other) ==> !disk.reliable || !AllThere(old(build.files), old(scratch)) || Disturbed(steps, |old(steps)|)
    {
      r := MakeRoom(disk);
      if r.Some? {
        if r.value == Other {
          Abort();
        }
        return;
      }
      ghost var mid := steps;
      var written := WriteArchive(disk.reliable);
      ClearedStays(steps, steps, |old(steps)|, |mid|);
      r := if written then None else Some(Other);
    }

    /** os.RemoveAll on a packed or shed directory: gone, left half removed, or left alone. */
    method RemoveAll(p: Path, reliable: bool) returns (ok: bool)
      requires Valid() && (build.Packed? || build.Shedding?) && p in build.files && p !in sampleSet
      modifies this
      ensures WentOn() && storageServices == old(storageServices)
      ensures Now() == old(Now()).(scratch := scratch)
      ensures scratch.Keys <= old(scratch.Keys) && scratch - {p} == old(scratch) - {p}
      ensures ok ==> p !in scratch
      ensures reliable ==> ok
    {
      var touched: bool := *;
      ok :| reliable ==> ok;
      if p in scratch && (ok || touched) {
        scratch := if ok then scratch - {p} else scratch[p := Damaged];
        Record(ShedDirectory(p, ok));
      }
    }

    /** Everything but scratch and the sample set stands still while samples are removed. */
    twostate predicate OnlyRemoved()
      reads this
    {
      && WentOn() && build == old(build) && storageServices == old(storageServices)
      && uploads == old(uploads) && uploadSet == old(uploadSet) && accepted == old(accepted) && old(named) <= named
    }

    ghost predicate Gone(f: Path)
      reads this
    {
      f in named && f !in scratch && f !in sampleSet
    }

    method RemoveOneSample(f: Path, reliable: bool) returns (ok: bool)
      requires Valid() && (build.Packed? || build.Shedding?) && f in build.files && f in named
      modifies this
      ensures OnlyRemoved() && TouchedOnly({f})
      ensures ok ==> Gone(f)
      ensures reliable ==> ok
      ensures forall g :: old(Gone(g)) ==> Gone(g)
    {
      EmitterRuns();
      RemoveSample(f);
      label taken:
      ok := RemoveAll(f, reliable);
      forall p | p in old@taken(scratch) && p != f ensures p in scratch && scratch[p] == old@taken(scratch[p]) {
        assert p in old@taken(scratch) - {f};
      }
    }

    /** Takes the packed samples out of the set and off the disk, stopping at the first failure. */
    method RemoveSamples(reliable: bool) returns (ok: bool)
      requires Valid() && (build.Packed? || build.Shedding?)
      modifies this
      ensures OnlyRemoved() && TouchedOnly(set f | f in build.files)
      ensures ok ==> forall f :: f in build.files ==> Gone(f)
      ensures reliable ==> ok
    {
      InvNow();
      var files := build.files;
      var i := 0;
      while i < |files|
        invariant 0 <= i <= |files| && build == old(build)
        invariant OnlyRemoved() && TouchedOnly(set f | f in files)
        invariant forall f :: f in files ==> f in named
        invariant forall k :: 0 <= k < i ==> Gone(files[k])
      {
        ok := RemoveOneSample(files[i], reliable);
        if !ok {
          return;
        }
        i := i + 1;
      }
      ok := true;
    }

    method FinishBuild()
      requires Valid() && (build.Opening? || build.Packed? || build.Shedding?)
      modifies this
      ensures Took(EndBuild)
    {
      build := NoBuild;
      Record(EndBuild);
    }

    /** Everything but the build stands still, and the emitter may act. */
    twostate predicate OnlyRead()
      reads this
    {
      && WentOn() && TouchedOnly({})
      && storageServices == old(storageServices) && accepted == old(accepted)
      && uploads == old(uploads) && uploadSet == old(uploadSet) && old(named) <= named
    }

    /** Opens every sample directory; false when one of them is missing. */
    method OpenSamples(files: seq<Path>, reliable: bool) returns (ok: bool)
      requires Valid()
      modifies this
      ensures OnlyEmitterActed()
      ensures ok ==> forall f :: f in files && f in old(named) ==> f in old(scratch)
      ensures ok || !reliable || !AllThere(files, old(scratch)) || Disturbed(steps, |old(steps)|)
    {
      var i := 0;
      EmitterRuns();
      while i < |files|
        invariant 0 <= i <= |files|
        invariant forall k :: 0 <= k < i ==> files[k] in scratch
      {
        var readable: bool :| reliable ==> readable;
        if files[i] !in scratch || !readable {
          return false;
        }
        i := i + 1;
      }
      ok := true;
    }

    /** Reads the sample set and opens what it holds. */
    method ReadAndOpen(reliable: bool) returns (ok: bool)
      requires Valid() && build.NoBuild?
      modifies this
      ensures OnlyRead() && StillIntact(old(scratch), |old(steps)|) && StillThere()
      ensures build.Opening? && forall f :: f in build.files <==> f in old(sampleSet)
      ensures ok ==> old(sampleSet) <= old(scratch.Keys)
      ensures ok || !reliable || !(old(sampleSet) <= old(scratch.Keys)) || Disturbed(steps, |old(steps)|)
    {
      InvNow();
      var files := ReadSamples();
      ghost var atRead := steps;
      ok := OpenSamples(files, reliable);
      assert StillIntact(old(scratch), |atRead|);
      ClearedStays(steps, steps, |old(steps)|, |atRead|);
    }

    /** Creates the payload file, over nothing if its name is free. */
    method CreateFile(t: Path)
      requires Valid() && build.Opening?
      modifies this
      ensures Built(t) && NoneGone(t) && scratch == old(scratch) && sampleSet == old(sampleSet)
      ensures steps == old(steps) + [CreateTar(t)]
      ensures build == Writing(t, old(build.files), {}, {}) && t in uploads
    {
      OpenTar(t);
    }

    /** Reads the sample set, opens the samples and creates the payload file. */
    method Begin(t: Path, reliable: bool) returns (ok: bool)
      requires Valid() && build.NoBuild?
      modifies this
      ensures Built(t) && TouchedOnly({}) && StillThere() && NoneGone(t)
      ensures !ok ==> build.NoBuild?
      ensures ok ==> build.Writing? && build.tar == t && t in uploads
      ensures ok ==> forall f :: f in build.files <==> f in old(sampleSet)
      ensures ok ==> old(sampleSet) <= old(scratch.Keys) && StillIntact(old(scratch), |old(steps)|)
      ensures ok || !reliable || !(old(sampleSet) <= old(scratch.Keys)) || Disturbed(steps, |old(steps)|)
    {
      ok := ReadAndOpen(reliable);
      ghost var was, begun := states, steps;
      if ok {
        CreateFile(t);
        ClearedStays(begun, steps, |old(steps)|, |old(steps)|);
        if t !in old(uploads) {
          NoneOverwrittenSince(was, begun, states, steps, |old(steps)|);
        }
      } else {
        FinishBuild();
        ClearedStays(begun, steps, |old(steps)|, |old(steps)|);
      }
    }

    /** The disk stayed full: the payload and the samples it was to hold are given up. */
    method ShedForDisk(reliable: bool)
      requires Valid() && build.Writing?
      modifies this
      ensures OnlyBuilt(old(build.tar)) && build.NoBuild? && NoneGone(old(build.tar))
      ensures TouchedOnly(set f | f in old(build.files))
      ensures reliable ==> old(build.tar) !in uploads && forall f :: f in old(build.files) ==> Gone(f)
    {
      GiveUpForDisk(reliable);
      var _ := RemoveSamples(reliable);
      FinishBuild();
    }

    /** The archive is written: the samples are removed, and the file is closed. */
    method FinishPacking(reliable: bool) returns (ok: bool)
      requires Valid() && build.Packed?
      modifies this
      ensures WentOn() && build.NoBuild? && storageServices == old(storageServices)
      ensures uploads == old(uploads) && uploadSet == old(uploadSet) && accepted == old(accepted) && old(named) <= named
      ensures TouchedOnly(set f | f in old(build.files))
      ensures ok ==> forall f :: f in old(build.files) ==> Gone(f)
      ensures reliable ==> ok
    {
      var removed := RemoveSamples(reliable);
      FinishBuild();
      // closing the file can still fail after the work is done
      var closed: bool :| reliable ==> closed;
      ok := removed && closed;
    }

    /** Packs and removes what has been opened; the payload file is there. */
    method PackAndRemove(disk: Disk) returns (failure: Option<Failure>)
      requires Valid() && build.Writing? && build.tar in uploads
      modifies this
      ensures OnlyBuilt(old(build.tar)) && build.NoBuild? && TouchedOnly(set f | f in old(build.files))
      ensures OldGone(old(build.tar), disk)
      ensures failure == None ==>
                && disk.HasRoom() && old(build.tar) in uploads && uploads[old(build.tar)].complete
                && (forall f :: f in old(build.files) ==> Gone(f))
                && AccountedFor(uploads[old(build.tar)].samples, old(build.files), old(scratch), |old(steps)|)
      ensures failure in {None, Some(DiskSpaceExceeded), Some(Other)}
      ensures failure == Some(DiskSpaceExceeded) ==>
                && !disk.HasRoom()
                && (disk.reliable ==> old(build.tar) !in uploads && forall f :: f in old(build.files) ==> Gone(f))
      ensures failure == Some(Other) ==>
                !disk.reliable || !AllThere(old(build.files), old(scratch)) || Disturbed(steps, |old(steps)|)
    {
      failure := CreateTGZ(disk);
      ghost var atClose := steps;
      if failure == Some(DiskSpaceExceeded) {
        ShedForDisk(disk.reliable);
      } else if failure == None {
        var ok := FinishPacking(disk.reliable);
        failure := if ok then None else Some(Other);
      }
      ClearedStays(atClose, steps, |old(steps)|, |old(steps)|);
    }

    lemma PackedSinceBegin(was: seq<State>, atTar: seq<Step>, from: nat, free: bool)
      requires Valid() && |was| == |atTar| + 1 && was <= states && atTar <= steps && from <= |atTar|
      requires free ==> NoneOverwritten(was, atTar, from)
      requires NoneOverwritten(states, steps, |atTar|)
      ensures free ==> NoneOverwritten(states, steps, from)
      ensures forall p :: Cleared(atTar, from, p) || Cleared(steps, |atTar|, p) ==> Cleared(steps, from, p)
      ensures Disturbed(atTar, from) || Disturbed(steps, |atTar|) ==> Disturbed(steps, from)
    {
      ClearedStays(atTar, steps, from, from);
      ClearedStays(steps, steps, from, |atTar|);
      if free {
        NoneOverwrittenSince(was, atTar, states, steps, from);
      }
    }

    /**
     * Packs the sample set into the payload t and removes the samples. On success the payload is
     * complete and holds every sample that was intact at the start and was not cleared by the
     * emitter meanwhile, and the samples of the set are gone from the set and from scratch. It
     * fails only if there is no room, when payload and samples are given up, if an operation fails,
     * or if an entry of the set has no directory. On an error nothing is queued, and a file may be
     * left behind under the payload's name.
     */
    method ConstructPayload(t: Path, disk: Disk) returns (r: Result<Path, Failure>)
      requires Valid() && build.NoBuild?
      modifies this
      ensures Built(t) && build.NoBuild? && TouchedOnly(old(sampleSet)) && OldGone(t, disk)
      ensures r.Ok? ==>
                && disk.HasRoom() && r.value == t && t in uploads && uploads[t].complete
                && old(sampleSet) <= old(scratch.Keys)
                && (forall f :: f in old(sampleSet) ==> f !in scratch && f !in sampleSet)
                && (forall f :: f in old(sampleSet) && f in old(scratch) && old(scratch[f]).Whole? ==>
                                  f in uploads[t].samples || Cleared(steps, |old(steps)|, f))
      ensures r.Err? ==> r.error in {DiskSpaceExceeded, Other}
      ensures r == Err(DiskSpaceExceeded) ==>
                && !disk.HasRoom()
                && (disk.reliable ==> t !in uploads && forall f :: f in old(sampleSet) ==> f !in scratch && f !in sampleSet)
      ensures r == Err(Other) ==>
                !disk.reliable || !(old(sampleSet) <= old(scratch.Keys)) || Disturbed(steps, |old(steps)|)
    {
      var begun := Begin(t, disk.reliable);
      if !begun {
        return Err(Other);
      }
      ghost var was, atTar := states, steps;
      assert (set f | f in build.files) == old(sampleSet);
      var failure := PackAndRemove(disk);
      PackedSinceBegin(was, atTar, |old(steps)|, t !in old(uploads));
      r := if failure == None then Ok(t) else Err(failure.value);
    }

    // ---------- Uploading ----------

    /** The services, rebuilt when there are none and the cooldown and the network allow it. */
    method EnsureStorageServices(rebuilds: bool) returns (services: seq<Service>)
      requires Valid()
      modifies this`storageServices
      ensures Valid() && services == storageServices
      ensures storageServices == if old(storageServices) == [] && rebuilds then configured else old(storageServices)
    {
      if storageServices == [] && rebuilds {
        storageServices := configured;
      }
      services := storageServices;
    }

    method ServiceAccepts(v: Service, t: Path)
      requires Valid() && v in configured && build.NoBuild? && t in uploads
      modifies this
      ensures Took(Accept(v, t))
    {
      accepted := accepted + if uploads[t].complete then set x | x in uploads[t].samples :: (v, x) else {};
      Record(Accept(v, t));
    }

    method RemoveShipped(t: Path)
      requires Valid() && Enabled(Services(), Now(), DeleteShipped(t))
      modifies this
      ensures Took(DeleteShipped(t))
    {
      uploads := uploads - {t};
      Record(DeleteShipped(t));
    }

    /** Between two uploads only the emitter acts, and services accept more. */
    twostate predicate OnlyUploaded()
      reads this
    {
      && WentOn()
      && build == old(build) && uploadSet == old(uploadSet)
      && old(named) <= named && old(accepted) <= accepted
    }

    /** The loop over the services: true when every one of them accepted the payload. */
    method UploadToAll(t: Path, services: seq<Service>, accepting: set<(Service, Path)>) returns (ok: bool)
      requires Valid() && build.NoBuild? && t in uploads && services == configured
      modifies this
      ensures OnlyUploaded() && uploads == old(uploads) && storageServices == old(storageServices)
      ensures ok <==> forall v :: v in services ==> (v, t) in accepting
      ensures ok && uploads[t].complete ==>
                forall v, x :: v in Services() && x in uploads[t].samples ==> (v, x) in accepted
    {
      var i := 0;
      while i < |services|
        invariant 0 <= i <= |services|
        invariant OnlyUploaded() && uploads == old(uploads) && storageServices == old(storageServices)
        invariant forall k :: 0 <= k < i ==> (services[k], t) in accepting
        invariant uploads[t].complete ==>
                    forall k, x :: 0 <= k < i && x in uploads[t].samples ==> (services[k], x) in accepted
      {
        EmitterRuns();
        if (services[i], t) !in accepting {
          return false;
        }
        ServiceAccepts(services[i], t);
        i := i + 1;
      }
      ok := true;
    }

    /**
     * Ships one payload, if there are services, it can be read, each of them accepts it and it can be
     * removed. Success means that the payload is not on disk any more, and if it was, that every
     * configured service has accepted all its samples; on failure it stays on disk.
     */
    method UploadData(t: Path, world: World) returns (r: Option<Failure>)
      requires Valid() && build.NoBuild?
      modifies this
      ensures OnlyUploaded()
      ensures storageServices == if old(storageServices) == [] && world.rebuilds then configured else old(storageServices)
      ensures r == Some(NoStorageServices) <==> storageServices == []
      ensures r.None? <==> storageServices != [] && (t !in old(uploads) || world.Ships(configured, t))
      ensures r.None? ==> uploads == old(uploads) - {t}
      ensures r.None? && t in old(uploads) && old(uploads[t]).complete ==>
                forall x :: x in old(uploads[t]).samples ==> Delivered(Services(), Now(), x)
      ensures r.Some? ==> uploads == old(uploads)
    {
      var services := EnsureStorageServices(world.rebuilds);
      if services == [] {
        return Some(NoStorageServices);
      }
      if t !in uploads {
        assert uploads - {t} == uploads;
        return None;
      }
      if t !in world.readable {
        return Some(Other);
      }
      var ok := UploadToAll(t, services, world.accepting);
      if !ok || t !in world.removable {
        return Some(Other);
      }
      assert services[0] in Services();
      RemoveShipped(t);
      r := None;
    }

    method Unqueue(t: Path)
      requires Valid() && build.NoBuild? && t !in uploads
      modifies this
      ensures Took(Dequeue(t))
    {
      uploadSet := uploadSet - {t};
      Record(Dequeue(t));
    }

    method Queue(t: Path)
      requires Valid() && build.NoBuild? && (t in uploads ==> uploads[t].complete)
      modifies this
      ensures Took(Enqueue(t))
    {
      uploadSet := uploadSet + {t};
      Record(Enqueue(t));
    }

    /** What one attempt counts as: only the lack of services makes the rest pointless. */
    static function OutcomeOf(r: Option<Failure>): Q.Outcome {
      match r
      case None => Q.Succeeded
      case Some(failure) => Q.Failed(failure == NoStorageServices)
    }

    /** One entry of a pass that has had these outcomes; `tars` were on disk at its start. */
    method AttemptNext(keys: seq<Path>, outcomes: seq<Q.Outcome>, world: World, ghost tars: map<Path, Tar>)
      returns (outcome: Q.Outcome)
      requires Valid() && build.NoBuild? && |outcomes| < |keys|
      requires forall i, j :: 0 <= i < j < |keys| ==> keys[i] != keys[j]
      requires uploads == Remaining(tars, keys, outcomes) && AllDelivered(Services(), tars, keys, outcomes, Now())
      modifies this
      ensures OnlyUploaded()
      ensures storageServices == if old(storageServices) == [] && world.rebuilds then configured else old(storageServices)
      ensures Meets(world, configured, storageServices, tars, keys[|outcomes|], outcome)
      ensures uploads == Remaining(tars, keys, outcomes + [outcome])
      ensures AllDelivered(Services(), tars, keys, outcomes + [outcome], Now())
    {
      var key := keys[|outcomes|];
      ghost var was := Now();
      RemainingNext(tars, keys, outcomes, Q.Succeeded);
      var r := UploadData(key, world);
      outcome := OutcomeOf(r);
      RemainingNext(tars, keys, outcomes, outcome);
      AllDeliveredNext(Services(), tars, keys, outcomes, was, outcome, Now());
    }

    /** The loop of operateAndRemove with UploadData, up to where budget and abandonment let it go. */
    method AttemptAll(keys: seq<Path>, world: World, budget: Duration)
      returns (outcomes: seq<Q.Outcome>, succeeded: seq<Path>, errors: seq<Path>)
      requires Valid() && build.NoBuild? && forall i, j :: 0 <= i < j < |keys| ==> keys[i] != keys[j]
      modifies this
      ensures OnlyUploaded() && |outcomes| <= |keys|
      ensures uploads == Remaining(old(uploads), keys, outcomes)
      ensures AllDelivered(Services(), old(uploads), keys, outcomes, Now())
      ensures Under(world, configured, old(storageServices), storageServices, old(uploads), keys, outcomes, budget)
      ensures Q.Stops(keys, outcomes, Readings(world.clock, |keys|), budget)
      ensures errors == Q.Failures(keys, outcomes)
      ensures forall t :: t in succeeded <==> Succeeds(keys, outcomes, t)
    {
      outcomes, succeeded, errors := [], [], [];
      var deadline := world.clock(0) + budget;
      assert Remaining(uploads, keys, outcomes) == uploads;
      while |outcomes| < |keys| && !Q.Abandoned(outcomes) && (budget <= 0 || world.clock(|outcomes| + 1) < deadline)
        invariant |outcomes| <= |keys| && OnlyUploaded()
        invariant uploads == Remaining(old(uploads), keys, outcomes)
        invariant AllDelivered(Services(), old(uploads), keys, outcomes, Now())
        invariant Under(world, configured, old(storageServices), storageServices, old(uploads), keys, outcomes, budget)
        invariant errors == Q.Failures(keys, outcomes)
        invariant forall t :: t in succeeded <==> Succeeds(keys, outcomes, t)
        decreases |keys| - |outcomes|
      {
        var key := keys[|outcomes|];
        ghost var was := storageServices;
        var outcome := AttemptNext(keys, outcomes, world, old(uploads));
        SucceedsNext(keys, outcomes, outcome);
        UnderNext(world, configured, old(storageServices), was, storageServices, old(uploads), keys, outcomes, budget, outcome);
        outcomes := outcomes + [outcome];
        if outcome.Succeeded? {
          succeeded := succeeded + [key];
        } else {
          errors := errors + [key];
        }
      }
    }

    method UnqueueAll(ts: seq<Path>)
      requires Valid() && build.NoBuild? && forall t :: t in ts ==> t !in uploads
      modifies this
      ensures WentOn() && Now() == old(Now()).(uploadSet := uploadSet) && storageServices == old(storageServices)
      ensures forall t :: t in uploadSet <==> t in old(uploadSet) && t !in ts
    {
      var i := 0;
      while i < |ts|
        invariant 0 <= i <= |ts|
        invariant WentOn() && Now() == old(Now()).(uploadSet := uploadSet) && storageServices == old(storageServices)
        invariant forall t :: t in uploadSet <==> t in old(uploadSet) && t !in ts[..i]
      {
        Unqueue(ts[i]);
        assert ts[..i + 1] == ts[..i] + [ts[i]];
        i := i + 1;
      }
      assert ts[..i] == ts;
    }

    /** The drain runs from the given state and services to this one, with half an upload cycle as its budget. */
    ghost predicate DrainedFrom(drain: Drain, world: World, before: State, had: seq<Service>)
      reads this
    {
      && drain.Valid() && drain.world == world && drain.services == configured
      && drain.budget == Q.DrainBudget(uploadFrequency)
      && drain.had == had && drain.has == storageServices && drain.before == before && drain.after == Now()
    }

    /** One pass over the queue. */
    method DrainUploads(world: World) returns (errors: seq<Path>, attempted: nat, ghost drain: Drain)
      requires Valid() && build.NoBuild?
      modifies this
      ensures WentOn() && build.NoBuild? && old(accepted) <= accepted
      ensures DrainedFrom(drain, world, old(Now()), old(storageServices))
      ensures errors == drain.errors && attempted == drain.attempted
    {
      var keys := Contents(uploadSet);
      ghost var finish: Instant := *;
      var outcomes, succeeded;
      outcomes, succeeded, errors := AttemptAll(keys, world, Q.DrainBudget(uploadFrequency));
      attempted := |outcomes|;
      UnqueueAll(succeeded);
      drain := Drain(world, configured, Q.DrainBudget(uploadFrequency), old(storageServices), storageServices, old(Now()), Now(),
                     errors, attempted, Q.PassOf(keys, outcomes, Readings(world.clock, |keys|), finish));
      OutcomesDrain(drain, keys, outcomes);
    }

    /** The sample is in the payload t, or has been cleared since. */
    ghost predicate Packaged(s: State, t: Path, f: Path, from: nat)
      reads this
    {
      InTar(s, t, f) || Cleared(steps, from, f)
    }

    /** Queues the payload t and makes one pass, `drain`, over the queue. */
    method QueueAndDrain(t: Path, world: World) returns (errors: seq<Path>, attempted: nat, ghost drain: Drain)
      requires Valid() && build.NoBuild? && t in uploads && uploads[t].complete
      modifies this
      ensures WentOn() && build.NoBuild?
      ensures DrainedFrom(drain, world, old(Now()).(uploadSet := old(uploadSet) + {t}), old(storageServices))
      ensures errors == drain.errors && attempted == drain.attempted
    {
      Queue(t);
      errors, attempted, drain := DrainUploads(world);
    }

    /**
     * One tick of the upload loop; `t` is the payload name the clock gives. It builds a payload unless
     * there is nothing to build or building fails. Then the payload, which holds every intact sample of
     * the set, is queued with what waits, and one pass is made over the queue. When none is built,
     * nothing is queued or uploaded, so that what waits goes on waiting, and none is built as long as an
     * entry of the set has no directory.
     */
    method UploadTick(t: Path, disk: Disk, world: World)
      returns (built: bool, errors: seq<Path>, attempted: nat, ghost drain: Option<Drain>)
      requires Valid() && build.NoBuild?
      modifies this
      ensures WentOnBut({}, {t}) && build.NoBuild?
      ensures old(sampleSet) == {} ==> !built && Now() == old(Now())
      ensures built ==> old(sampleSet) <= old(scratch.Keys)
      ensures !built ==> KeptOthers(t)
      ensures old(sampleSet) != {} && old(sampleSet) <= old(scratch.Keys) && disk.reliable && disk.HasRoom() ==>
                built || Disturbed(steps, |old(steps)|)
      ensures built <==> drain.Some?
      ensures built ==>
                && DrainedFrom(drain.value, world, drain.value.before, old(storageServices))
                && errors == drain.value.errors && attempted == drain.value.attempted
                && BuiltWith(old(Now()), drain.value.before, t, disk)
                && forall f :: f in old(sampleSet) && f in old(scratch) && old(scratch[f]).Whole? ==>
                                 Packaged(drain.value.before, t, f, |old(steps)|)
    {
      built, errors, attempted, drain := false, [], 0, None;
      if |sampleSet| == 0 {
        return;
      }
      var r := ConstructPayload(t, disk);
      if r.Err? {
        return;
      }
      built := true;
      ghost var atQueue := steps;
      ghost var d: Drain;
      errors, attempted, d := QueueAndDrain(t, world);
      drain := Some(d);
      ClearedStays(atQueue, steps, |old(steps)|, |old(steps)|);
    }

    /** The payload t is complete and queued; others are as they were, with their entries, but for those
        cleared for room. */
    ghost predicate BuiltWith(before: State, s: State, t: Path, disk: Disk) {
      && t in s.uploads && s.uploads[t].complete && t in s.uploadSet
      && (forall u :: u in s.uploads && u != t ==> u in before.uploads && s.uploads[u] == before.uploads[u])
      && (forall u :: u in before.uploads && u != t ==> u in s.uploads || disk.Clears(recoveryPeriod / 2, u))
      && s.uploadSet <= before.uploadSet + {t}
      && (forall u :: u in before.uploadSet ==> u in s.uploadSet || u !in s.uploads)
    }

    /** What a tick has built is forwarded: delivered, or in the queued payload, or cleared by the emitter. */
    lemma TickForwards(t: Path, drain: Drain, world: World, had: seq<Service>, f: Path, from: nat)
      requires Valid() && DrainedFrom(drain, world, drain.before, had)
      requires t in drain.before.uploadSet && Packaged(drain.before, t, f, from)
      ensures (InTar(Now(), t, f) && t in uploadSet) || Delivered(Services(), Now(), f) || Cleared(steps, from, f)
    {
    }

    // ---------- Crash and start-up ----------

    /** The process dies between two operations: the disk stays, memory is gone. */
    method Restart(finished: set<Path>)
      requires Valid()
      modifies this
      ensures Valid() && steps == old(steps) + [Crash(finished)]
      ensures Now() == old(Now()).(scratch := Settled(old(scratch), finished), sampleSet := {}, uploadSet := {}, build := NoBuild)
      ensures !emitterStarted && storageServices == []
    {
      scratch := Settled(scratch, finished);
      sampleSet, uploadSet, build := {}, {}, NoBuild;
      storageServices, emitterStarted := [], false;
      Record(Crash(finished));
    }

    /** Payloads start-up keeps: complete ones not older than the recovery period. */
    function Recoverable(tars: map<Path, Tar>, ages: map<Path, Duration>): map<Path, Tar> {
      map t | t in tars && t in ages && ages[t] <= recoveryPeriod && tars[t].complete :: tars[t]
    }

    method RemoveExpired(t: Path)
      requires Valid() && build.NoBuild? && t in uploads
      modifies this
      ensures WentOn() && steps == old(steps) + [ExpireTar(t)] && storageServices == old(storageServices)
      ensures Now() == old(Now()).(uploads := old(uploads) - {t})
    {
      uploads := uploads - {t};
      Record(ExpireTar(t));
    }

    method RemovePartial(t: Path)
      requires Valid() && build.NoBuild? && t in uploads && !uploads[t].complete
      modifies this
      ensures WentOn() && steps == old(steps) + [DiscardPartial(t)] && storageServices == old(storageServices)
      ensures Now() == old(Now()).(uploads := old(uploads) - {t})
    {
      uploads := uploads - {t};
      Record(DiscardPartial(t));
    }

    /** Start-up's verdict on one payload; a failed removal ends the walk. */
    method RecoverUpload(t: Path, age: Duration, reliable: bool) returns (ok: bool)
      requires Valid() && build.NoBuild? && t in uploads
      modifies this
      ensures WentOn() && Now() == old(Now()).(uploads := uploads, uploadSet := uploadSet)
      ensures !ok ==> Now() == old(Now())
      ensures !ok ==> !reliable && (age > recoveryPeriod || !uploads[t].complete)
      ensures ok && age <= recoveryPeriod && old(uploads[t]).complete ==>
                uploads == old(uploads) && uploadSet == old(uploadSet) + {t}
      ensures ok && !(age <= recoveryPeriod && old(uploads[t]).complete) ==>
                uploads == old(uploads) - {t} && uploadSet == old(uploadSet)
    {
      ok := true;
      var removable: bool :| reliable ==> removable;
      if age > recoveryPeriod {
        if !removable {
          return false;
        }
        RemoveExpired(t);
      } else if !uploads[t].complete {
        if !removable {
          return false;
        }
        RemovePartial(t);
      } else {
        Queue(t);
      }
    }

    /** The directory and the queue once the walk has passed the given files. */
    static ghost predicate Walked(before: map<Path, Tar>, keep: map<Path, Tar>, uploads: map<Path, Tar>, queue: set<Path>,
                                  passed: seq<Path>)
    {
      && (forall t :: t in uploads ==> t in before && uploads[t] == before[t])
      && (forall t :: t in before ==> (t in uploads <==> t in keep || t !in passed))
      && (forall t :: t in queue <==> t in keep && t in passed)
    }

    static lemma WalkedNext(before: map<Path, Tar>, keep: map<Path, Tar>, uploads: map<Path, Tar>, queue: set<Path>,
                            passed: seq<Path>, t: Path)
      requires Walked(before, keep, uploads, queue, passed) && t in before && t !in passed
      ensures if t in keep then Walked(before, keep, uploads, queue + {t}, passed + [t])
              else Walked(before, keep, uploads - {t}, queue, passed + [t])
    {
      assert forall u :: u in passed + [t] <==> u in passed || u == t;
    }

    static lemma WalkedAll(before: map<Path, Tar>, keep: map<Path, Tar>, uploads: map<Path, Tar>, queue: set<Path>,
                           passed: seq<Path>)
      requires Walked(before, keep, uploads, queue, passed) && forall t :: t in keep ==> t in before && keep[t] == before[t]
      ensures queue <= keep.Keys <= uploads.Keys
      ensures (forall t :: t in before ==> t in passed) ==> uploads == keep && queue == uploads.Keys
    {
      if forall t :: t in before ==> t in passed {
        assert uploads.Keys == keep.Keys;
      }
    }

    /**
     * Walks the upload directory in order; `ages` are the ages parsed from the names, missing for a
     * name that does not parse, which ends the walk. When the walk comes through, the queue and the
     * directory hold exactly the unexpired complete payloads; however it ends, none of those is
     * removed and nothing else is queued.
     */
    method RecoverUploadFiles(files: seq<Path>, ages: map<Path, Duration>, reliable: bool) returns (ok: bool)
      requires Valid() && build.NoBuild? && uploadSet == {}
      requires forall t :: t in files <==> t in uploads
      requires forall i, j :: 0 <= i < j < |files| ==> files[i] != files[j]
      modifies this
      ensures WentOn() && Now() == old(Now()).(uploads := uploads, uploadSet := uploadSet)
      ensures ok ==> uploads == Recoverable(old(uploads), ages) && uploadSet == uploads.Keys
      ensures uploadSet <= Recoverable(old(uploads), ages).Keys <= uploads.Keys
      ensures forall t :: t in uploads ==> t in old(uploads) && uploads[t] == old(uploads[t])
      ensures (exists t :: t in files && t !in ages) ==> !ok
      ensures reliable && (forall t :: t in files ==> t in ages) ==> ok
    {
      ghost var keep := Recoverable(uploads, ages);
      var i := 0;
      while i < |files|
        invariant 0 <= i <= |files|
        invariant WentOn() && Now() == old(Now()).(uploads := uploads, uploadSet := uploadSet)
        invariant forall t :: t in files[..i] ==> t in ages
        invariant Walked(old(uploads), keep, uploads, uploadSet, files[..i])
      {
        var t := files[i];
        assert t !in files[..i] && files[..i + 1] == files[..i] + [t];
        WalkedAll(old(uploads), keep, uploads, uploadSet, files[..i]);
        if t !in ages {
          return false;
        }
        WalkedNext(old(uploads), keep, uploads, uploadSet, files[..i], t);
        ok := RecoverUpload(t, ages[t], reliable);
        if !ok {
          return;
        }
        i := i + 1;
      }
      ok := true;
      assert files[..i] == files;
      WalkedAll(old(uploads), keep, uploads, uploadSet, files);
    }

    method AddRecovered(p: Path)
      requires Valid() && Enabled(Services(), Now(), RecoverSample(p))
      modifies this
      ensures Took(RecoverSample(p))
    {
      sampleSet := sampleSet + {p};
      Record(RecoverSample(p));
    }

    /** os.RemoveAll of a directory that start-up has not packed: gone, half removed, or left alone. */
    method RemoveUnpacked(p: Path, reliable: bool) returns (ok: bool)
      requires Valid() && build.NoBuild? && p in scratch && !scratch[p].Filling? && p !in sampleSet
      modifies this
      ensures WentOnBut({p}, {}) && Now() == old(Now()).(scratch := scratch)
      ensures OnlyTouched(p) && (p in scratch ==> !scratch[p].Filling?)
      ensures ok <==> p !in scratch
      ensures reliable ==> ok
    {
      var touched: bool := *;
      ok :| reliable ==> ok;
      if ok || touched {
        ghost var step := if scratch[p] == Whole(true) then DiscardUnread(p, ok) else DiscardIncomplete(p, ok);
        scratch := if ok then scratch - {p} else scratch[p := Damaged];
        Record(step);
      }
    }

    /** In scratch, at most the given directory is not as it was. */
    twostate predicate OnlyTouched(p: Path)
      reads this
    {
      && scratch.Keys <= old(scratch.Keys)
      && forall q :: q in old(scratch) && q != p ==> q in scratch && scratch[q] == old(scratch[q])
    }

    /**
     * The deletion of a directory that has not been packed. If it fails, the walk ends, and the deletion
     * after the walk is one more attempt, whose outcome is what is reported; for the last directory
     * that deletion is the only one.
     */
    method DiscardDirectory(p: Path, last: bool, reliable: bool) returns (ok: bool, error: bool)
      requires Valid() && build.NoBuild? && p in scratch && !scratch[p].Filling? && p !in sampleSet
      modifies this
      ensures WentOnBut({p}, {}) && Now() == old(Now()).(scratch := scratch)
      ensures OnlyTouched(p)
      ensures reliable ==> ok
      ensures ok ==> !error
      ensures !error <==> p !in scratch
      ensures !ok && !error ==> !last
    {
      ok := RemoveUnpacked(p, reliable);
      error := !ok;
      if !ok && !last {
        var again := RemoveUnpacked(p, reliable);
        error := !again;
      }
    }

    /**
     * Start-up's treatment of one scratch directory, given whether the walk finds it complete: a
     * payload of its own, or deletion.
     */
    method RecoverDirectory(p: Path, t: Path, packs: bool, last: bool, disk: Disk) returns (ok: bool, error: bool)
      requires Valid() && build.NoBuild? && !emitterStarted && sampleSet == {}
      requires p in scratch && !scratch[p].Filling? && (packs ==> scratch[p] != Whole(false))
      modifies this
      ensures WentOnBut(if packs then {} else {p}, if packs then {t} else {})
      ensures build.NoBuild? && old(named) <= named && uploadSet <= old(uploadSet) && sampleSet <= {p}
      ensures OnlyTouched(p) && OldGone(t, disk) && (!packs ==> uploads == old(uploads))
      ensures forall u :: u in uploads && u != t ==> u in old(uploads) && uploads[u] == old(uploads[u])
      ensures t !in old(uploads) ==> NoneOverwritten(states, steps, |old(steps)|)
      ensures ok ==> sampleSet == {} && p !in scratch && !error
      ensures ok && packs && old(scratch[p]).Whole? ==> InTar(Now(), t, p)
      ensures !ok && !error ==> !packs && !last && p !in scratch
      ensures disk.reliable && (packs ==> disk.HasRoom()) ==> ok
    {
      if packs {
        AddRecovered(p);
        var r := ConstructPayload(t, disk);
        ok, error := r.Ok?, r.Err?;
      } else {
        ok, error := DiscardDirectory(p, last, disk.reliable);
      }
    }

    /** Since some moment after the given one the sample is in payloads alone. */
    static ghost predicate PackedSince(services: set<Service>, states: seq<State>, steps: seq<Step>, p: Path, from: nat) {
      exists m :: from <= m <= |steps| < |states|
                  && Held(services, states[m], p) && p in states[m].named && p !in states[m].scratch
    }

    static lemma PackedSinceStays(services: set<Service>, was: seq<State>, before: seq<Step>,
                                  states: seq<State>, steps: seq<Step>, from: nat)
      requires Execution(services, was, before) && Execution(services, states, steps) && before <= steps
      ensures forall p :: PackedSince(services, was, before, p, from) ==> PackedSince(services, states, steps, p, from)
    {
      forall p | PackedSince(services, was, before, p, from) ensures PackedSince(services, states, steps, p, from) {
        var m :| from <= m <= |before|
                 && Held(services, was[m], p) && p in was[m].named && p !in was[m].scratch;
        SameStates(services, was, before, states, steps, m);
      }
    }

    lemma PackedNow(p: Path, from: nat)
      requires Valid() && from <= |steps| && Held(Services(), Now(), p) && p in named && p !in scratch
      ensures PackedSince(Services(), states, steps, p, from)
    {
      assert states[|steps|] == Now();
    }

    lemma PackedIsHeld(from: nat)
      requires Valid()
      ensures forall p :: PackedSince(Services(), states, steps, p, from) ==>
                            HeldAsPayload(Services(), states, steps, |steps|, from, p)
    {
      forall p | PackedSince(Services(), states, steps, p, from)
        ensures HeldAsPayload(Services(), states, steps, |steps|, from, p)
      {
        var m :| from <= m <= |steps|
                 && Held(Services(), states[m], p) && p in states[m].named && p !in states[m].scratch;
        GoneIsHeldAsPayload(Services(), states, steps, m, |steps|, p);
      }
    }

    /** Of the given directories, those found complete and intact are in payloads alone. */
    static ghost predicate AllPackedSince(services: set<Service>, states: seq<State>, steps: seq<Step>, dirs: seq<Path>,
                                          complete: set<Path>, before: map<Path, Directory>, from: nat) {
      forall p :: p in dirs && p in complete && p in before && before[p].Whole? ==> PackedSince(services, states, steps, p, from)
    }

    static lemma AllPackedNext(services: set<Service>, was: seq<State>, earlier: seq<Step>, states: seq<State>, steps: seq<Step>,
                               dirs: seq<Path>, i: nat, complete: set<Path>, before: map<Path, Directory>, from: nat)
      requires Execution(services, was, earlier) && Execution(services, states, steps) && earlier <= steps
      requires i < |dirs| && AllPackedSince(services, was, earlier, dirs[..i], complete, before, from)
      requires dirs[i] in complete && dirs[i] in before && before[dirs[i]].Whole? ==> PackedSince(services, states, steps, dirs[i], from)
      ensures AllPackedSince(services, states, steps, dirs[..i + 1], complete, before, from)
    {
      PackedSinceStays(services, was, earlier, states, steps, from);
      assert forall p :: p in dirs[..i + 1] <==> p in dirs[..i] || p == dirs[i];
    }

    /** What a pass over directories has not come to is as it was, and what it has is gone. */
    static predicate Passed(before: map<Path, Directory>, scratch: map<Path, Directory>, dirs: seq<Path>) {
      scratch == map p | p in before && p !in dirs :: before[p]
    }

    static lemma PassedNext(before: map<Path, Directory>, was: map<Path, Directory>, scratch: map<Path, Directory>,
                            dirs: seq<Path>, i: nat)
      requires i < |dirs| && Passed(before, was, dirs[..i]) && scratch.Keys <= was.Keys && dirs[i] !in scratch
      requires forall q :: q in was && q != dirs[i] ==> q in scratch && scratch[q] == was[q]
      ensures Passed(before, scratch, dirs[..i + 1])
    {
      assert forall p :: p in dirs[..i + 1] <==> p in dirs[..i] || p == dirs[i];
    }

    /** Start-up passes over different directories of these; it knows a name for those found complete,
        which no intact incomplete one is. */
    static predicate SoundVerdict(scratch: map<Path, Directory>, dirs: seq<Path>, complete: set<Path>, nameOf: map<Path, Path>) {
      && (forall i, j :: 0 <= i < j < |dirs| ==> dirs[i] != dirs[j])
      && (forall p :: p in dirs ==> p in scratch && !scratch[p].Filling?)
      && (forall p :: p in dirs && p in complete ==> p in nameOf && scratch[p] != Whole(false))
    }

    /** The directories not found complete. */
    static function Unread(dirs: seq<Path>, complete: set<Path>): set<Path> {
      (set p | p in dirs) - complete
    }

    // ---------- The names of recovered payloads ----------

    /** The payload names of the directories found complete. */
    static function NamesOf(dirs: seq<Path>, complete: set<Path>, nameOf: map<Path, Path>): set<Path> {
      set p | p in dirs && p in complete && p in nameOf :: nameOf[p]
    }

    /** They are different, and none is taken. */
    static predicate FreshNames(tars: map<Path, Tar>, dirs: seq<Path>, complete: set<Path>, nameOf: map<Path, Path>) {
      && (forall p, q :: p in dirs && q in dirs && p in complete && q in complete && p != q && p in nameOf && q in nameOf ==>
                           nameOf[p] != nameOf[q])
      && forall p :: p in dirs && p in complete && p in nameOf ==> nameOf[p] !in tars
    }

    /** Of the given directories, those found complete and intact are each in the payload of their own
        name, or that may have been cleared for room. */
    static predicate AllPackedAs(tars: map<Path, Tar>, disk: Disk, limit: Duration, dirs: seq<Path>, complete: set<Path>,
                                 before: map<Path, Directory>, nameOf: map<Path, Path>) {
      forall p :: p in dirs && p in complete && p in before && before[p].Whole? ==>
        p in nameOf && (HoldsIn(tars, nameOf[p], p) || disk.Clears(limit, nameOf[p]))
    }

    static lemma PackedAsStays(was: map<Path, Tar>, tars: map<Path, Tar>, disk: Disk, limit: Duration, dirs: seq<Path>,
                               complete: set<Path>, before: map<Path, Directory>, nameOf: map<Path, Path>, t: Path)
      requires AllPackedAs(was, disk, limit, dirs, complete, before, nameOf)
      requires forall u :: u in tars && u != t ==> u in was && tars[u] == was[u]
      requires forall u :: u in was && u != t ==> u in tars || disk.Clears(limit, u)
      requires t !in NamesOf(dirs, complete, nameOf) || tars == was
      ensures AllPackedAs(tars, disk, limit, dirs, complete, before, nameOf)
    {
    }

    static lemma PackedAsNext(tars: map<Path, Tar>, disk: Disk, limit: Duration, dirs: seq<Path>, i: nat, complete: set<Path>,
                              before: map<Path, Directory>, nameOf: map<Path, Path>)
      requires i < |dirs| && AllPackedAs(tars, disk, limit, dirs[..i], complete, before, nameOf)
      requires dirs[i] in complete && dirs[i] in before && before[dirs[i]].Whole? ==>
                 dirs[i] in nameOf && HoldsIn(tars, nameOf[dirs[i]], dirs[i])
      ensures AllPackedAs(tars, disk, limit, dirs[..i + 1], complete, before, nameOf)
    {
      assert forall p :: p in dirs[..i + 1] <==> p in dirs[..i] || p == dirs[i];
    }

    static lemma NameIsFree(tars: map<Path, Tar>, uploads: map<Path, Tar>, dirs: seq<Path>, i: nat, complete: set<Path>,
                            nameOf: map<Path, Path>)
      requires i < |dirs| && dirs[i] !in dirs[..i] && dirs[i] in complete && dirs[i] in nameOf
      requires FreshNames(tars, dirs, complete, nameOf) && uploads.Keys <= tars.Keys + NamesOf(dirs[..i], complete, nameOf)
      ensures nameOf[dirs[i]] !in uploads && nameOf[dirs[i]] !in NamesOf(dirs[..i], complete, nameOf)
    {
      assert dirs[i] in dirs;
      assert forall p :: p in dirs[..i] ==> p in dirs;
    }

    /** Complete samples are spared by steps that discard none of them. */
    lemma AllSpared(was: seq<State>, earlier: seq<Step>, before: map<Path, Directory>, unread: set<Path>)
      requires Valid() && Execution(Services(), was, earlier) && was[|earlier|].scratch == before && earlier <= steps
      requires forall i :: |earlier| <= i < |steps| && steps[i].DiscardUnread? ==> steps[i].p in unread
      ensures forall p :: p in before && before[p] == Whole(true) && p !in unread ==>
                            Spared(Services(), states, steps, |steps|, |earlier|, p)
    {
      SameStates(Services(), was, earlier, states, steps, |earlier|);
      forall p | p in before && before[p] == Whole(true) && p !in unread
        ensures Spared(Services(), states, steps, |steps|, |earlier|, p)
      {
        CompleteIsSpared(Services(), states, steps, |earlier|, |steps|, p);
      }
    }

    /** The next directory of the pass; `before` is scratch at its start, `from` the steps until then. */
    method RecoverNext(dirs: seq<Path>, i: nat, complete: set<Path>, nameOf: map<Path, Path>, disk: Disk,
                       ghost before: map<Path, Directory>, ghost from: nat)
      returns (ok: bool, error: bool)
      requires Valid() && build.NoBuild? && !emitterStarted && sampleSet == {}
      requires i < |dirs| && dirs[i] in before && dirs[i] !in dirs[..i] && dirs[i] in named
      requires !before[dirs[i]].Filling? && (dirs[i] in complete ==> dirs[i] in nameOf && before[dirs[i]] != Whole(false))
      requires Passed(before, scratch, dirs[..i]) && from <= |steps|
      requires AllPackedSince(Services(), states, steps, dirs[..i], complete, before, from)
      modifies this
      ensures WentOnBut(if dirs[i] in complete then {} else {dirs[i]}, NamesOf([dirs[i]], complete, nameOf))
      ensures build.NoBuild? && old(named) <= named && uploadSet <= old(uploadSet)
      ensures AllPackedSince(Services(), states, steps, if ok then dirs[..i + 1] else dirs[..i], complete, before, from)
      ensures ok ==> !error && sampleSet == {} && Passed(before, scratch, dirs[..i + 1])
      ensures !ok ==> sampleSet <= {dirs[i]} && Passed(before, scratch - {dirs[i]}, dirs[..i + 1])
      ensures !ok && !error ==> dirs[i] !in complete && dirs[i] !in scratch && i + 1 < |dirs|
      ensures disk.reliable && disk.HasRoom() ==> ok
      ensures NameTaken(dirs[i], complete, nameOf, disk, ok, before)
    {
      var p := dirs[i];
      ghost var was, earlier, scratch0 := states, steps, scratch;
      assert p in [p];
      var t := if p in complete then nameOf[p] else "";
      ok, error := RecoverDirectory(p, t, p in complete, i + 1 == |dirs|, disk);
      PassedNext(before, scratch0, scratch - {p}, dirs, i);
      if ok {
        assert scratch - {p} == scratch;
        if p in complete && before[p].Whole? {
          PackedNow(p, from);
        }
        AllPackedNext(Services(), was, earlier, states, steps, dirs, i, complete, before, from);
      } else {
        PackedSinceStays(Services(), was, earlier, states, steps, from);
      }
    }

    /**
     * What has become of the payloads: none but that of the directory was written, over nothing if its
     * name was free, and it holds the directory's sample; others have at most been cleared.
     */
    twostate predicate NameTaken(p: Path, complete: set<Path>, nameOf: map<Path, Path>, disk: Disk, ok: bool,
                                 before: map<Path, Directory>)
      requires p in complete ==> p in nameOf
      reads this
    {
      if p in complete then
        && (forall u :: u in uploads && u != nameOf[p] ==> u in old(uploads) && uploads[u] == old(uploads[u]))
        && (forall u :: u in old(uploads) && u != nameOf[p] ==> u in uploads || disk.Clears(recoveryPeriod / 2, u))
        && (nameOf[p] !in old(uploads) ==> Valid() && NoneOverwritten(states, steps, |old(steps)|))
        && (ok && p in before && before[p].Whole? ==> HoldsIn(uploads, nameOf[p], p))
      else uploads == old(uploads) && Valid() && NoneOverwritten(states, steps, |old(steps)|)
    }

    /** The payloads of a pass over directories so far, if their names are fresh. */
    ghost predicate NamesKept(tars: map<Path, Tar>, disk: Disk, from: nat, dirs: seq<Path>, complete: set<Path>,
                              before: map<Path, Directory>, nameOf: map<Path, Path>)
      requires Valid()
      reads this
    {
      && uploads.Keys <= tars.Keys + NamesOf(dirs, complete, nameOf)
      && AllPackedAs(uploads, disk, recoveryPeriod / 2, dirs, complete, before, nameOf)
      && NoneOverwritten(states, steps, from)
    }

    lemma NamesKeptNext(tars: map<Path, Tar>, wasTars: map<Path, Tar>, was: seq<State>, earlier: seq<Step>,
                        dirs: seq<Path>, i: nat, complete: set<Path>,
                        before: map<Path, Directory>, nameOf: map<Path, Path>, disk: Disk, from: nat, ok: bool)
      requires Valid() && |was| == |earlier| + 1 && was <= states && earlier <= steps && from <= |earlier|
      requires i < |dirs| && dirs[i] !in dirs[..i] && (dirs[i] in complete ==> dirs[i] in nameOf)
      requires FreshNames(tars, dirs, complete, nameOf)
      requires wasTars.Keys <= tars.Keys + NamesOf(dirs[..i], complete, nameOf)
      requires AllPackedAs(wasTars, disk, recoveryPeriod / 2, dirs[..i], complete, before, nameOf)
      requires NoneOverwritten(was, earlier, from)
      requires if dirs[i] in complete then
                 && (forall u :: u in uploads && u != nameOf[dirs[i]] ==> u in wasTars && uploads[u] == wasTars[u])
                 && (forall u :: u in wasTars && u != nameOf[dirs[i]] ==> u in uploads || disk.Clears(recoveryPeriod / 2, u))
                 && (nameOf[dirs[i]] !in wasTars ==> NoneOverwritten(states, steps, |earlier|))
                 && (ok && dirs[i] in before && before[dirs[i]].Whole? ==> HoldsIn(uploads, nameOf[dirs[i]], dirs[i]))
               else uploads == wasTars && NoneOverwritten(states, steps, |earlier|)
      ensures NoneOverwritten(states, steps, from)
      ensures AllPackedAs(uploads, disk, recoveryPeriod / 2, dirs[..i], complete, before, nameOf)
      ensures ok ==> NamesKept(tars, disk, from, dirs[..i + 1], complete, before, nameOf)
    {
      if dirs[i] in complete {
        NameIsFree(tars, wasTars, dirs, i, complete, nameOf);
        PackedAsStays(wasTars, uploads, disk, recoveryPeriod / 2, dirs[..i], complete, before, nameOf, nameOf[dirs[i]]);
      } else {
        PackedAsStays(wasTars, uploads, disk, recoveryPeriod / 2, dirs[..i], complete, before, nameOf, "");
      }
      NoneOverwrittenSince(was, earlier, states, steps, from);
      if ok {
        PackedAsNext(uploads, disk, recoveryPeriod / 2, dirs, i, complete, before, nameOf);
        assert forall p :: p in dirs[..i + 1] <==> p in dirs[..i] || p == dirs[i];
      }
    }

    /** A pass over directories after n of them, if `ok`, or ended in the one behind them. */
    ghost predicate PassAt(dirs: seq<Path>, n: nat, ok: bool, complete: set<Path>, nameOf: map<Path, Path>, disk: Disk,
                           before: map<Path, Directory>, tars: map<Path, Tar>, from: nat)
      reads this
    {
      && Valid() && build.NoBuild? && from <= |steps|
      && n <= |dirs| && (ok || n < |dirs|)
      && sampleSet <= (if ok then {} else {dirs[n]})
      && (if ok then Passed(before, scratch, dirs[..n]) else Passed(before, scratch - {dirs[n]}, dirs[..n + 1]))
      && AllPackedSince(Services(), states, steps, dirs[..n], complete, before, from)
      && (FreshNames(tars, dirs, complete, nameOf) ==>
            && NoneOverwritten(states, steps, from)
            && AllPackedAs(uploads, disk, recoveryPeriod / 2, dirs[..n], complete, before, nameOf)
            && (ok ==> uploads.Keys <= tars.Keys + NamesOf(dirs[..n], complete, nameOf)))
    }

    method RecoverNamed(dirs: seq<Path>, i: nat, complete: set<Path>, nameOf: map<Path, Path>, disk: Disk,
                        ghost before: map<Path, Directory>, ghost tars: map<Path, Tar>, ghost from: nat)
      returns (ok: bool, error: bool)
      requires PassAt(dirs, i, true, complete, nameOf, disk, before, tars, from) && !emitterStarted
      requires SoundVerdict(before, dirs, complete, nameOf) && i < |dirs| && before.Keys <= named
      modifies this
      ensures WentOnBut(Unread(dirs, complete), NamesOf(dirs, complete, nameOf)) && old(named) <= named
      ensures uploadSet <= old(uploadSet)
      ensures PassAt(dirs, if ok then i + 1 else i, ok, complete, nameOf, disk, before, tars, from)
      ensures ok ==> !error
      ensures !ok && !error ==> dirs[i] !in complete && dirs[i] !in scratch && i + 1 < |dirs|
      ensures disk.reliable && disk.HasRoom() ==> ok
    {
      ghost var was, earlier, wasTars := states, steps, uploads;
      assert dirs[i] in dirs && dirs[i] !in dirs[..i];
      ok, error := RecoverNext(dirs, i, complete, nameOf, disk, before, from);
      if FreshNames(tars, dirs, complete, nameOf) {
        NamesKeptNext(tars, wasTars, was, earlier, dirs, i, complete, before, nameOf, disk, from, ok);
      }
    }

    method RecoverEach(dirs: seq<Path>, complete: set<Path>, nameOf: map<Path, Path>, disk: Disk)
      returns (ok: bool, error: bool, handled: nat)
      requires Valid() && build.NoBuild? && !emitterStarted && sampleSet == {}
      requires SoundVerdict(scratch, dirs, complete, nameOf)
      modifies this
      ensures WentOnBut(Unread(dirs, complete), NamesOf(dirs, complete, nameOf)) && uploadSet <= old(uploadSet)
      ensures handled <= |dirs| && (ok <==> handled == |dirs|)
      ensures PassAt(dirs, handled, ok, complete, nameOf, disk, old(scratch), old(uploads), |old(steps)|)
      ensures ok ==> !error
      ensures !ok && !error ==> dirs[handled] !in complete && dirs[handled] !in scratch && handled + 1 < |dirs|
      ensures disk.reliable && disk.HasRoom() ==> ok
    {
      InvNow();
      ghost var before, tars, from := scratch, uploads, |steps|;
      ok, error, handled := true, false, 0;
      while handled < |dirs|
        invariant 0 <= handled <= |dirs| && ok && !error && before.Keys <= named
        invariant WentOnBut(Unread(dirs, complete), NamesOf(dirs, complete, nameOf)) && uploadSet <= old(uploadSet)
        invariant PassAt(dirs, handled, true, complete, nameOf, disk, before, tars, from)
      {
        ok, error := RecoverNamed(dirs, handled, complete, nameOf, disk, before, tars, from);
        if !ok {
          return;
        }
        handled := handled + 1;
      }
    }

    /**
     * Start-up's pass over the directories that the walk gets as far as, with its verdict on each;
     * `handled` are those that it comes through, and it ends in the one behind them, if it does.
     * Directories behind that are as they were. Every intact sample of a good verdict that it comes
     * through is safe, or has been given up since with the payload it was in, and however it ends it
     * has not discarded a complete sample of a good verdict, or one that it does not come to. If the
     * names of the payloads are different and free, no payload is written over, and each of these
     * samples is in the payload of its own name, unless that has been cleared for room.
     */
    method RecoverCompleteSamples(dirs: seq<Path>, complete: set<Path>, nameOf: map<Path, Path>, disk: Disk)
      returns (ok: bool, error: bool, handled: nat)
      requires Valid() && build.NoBuild? && !emitterStarted && sampleSet == {}
      requires SoundVerdict(scratch, dirs, complete, nameOf)
      modifies this
      ensures WentOnBut(Unread(dirs, complete), NamesOf(dirs, complete, nameOf))
      ensures build.NoBuild? && uploadSet <= old(uploadSet)
      ensures handled <= |dirs| && (ok <==> handled == |dirs|)
      ensures ok ==> !error && sampleSet == {} && Passed(old(scratch), scratch, dirs)
      ensures !ok ==> sampleSet <= {dirs[handled]} && Passed(old(scratch), scratch - {dirs[handled]}, dirs[..handled + 1])
      ensures !ok && !error ==> dirs[handled] !in complete && dirs[handled] !in scratch && handled + 1 < |dirs|
      ensures disk.reliable && disk.HasRoom() ==> ok
      ensures forall p :: p in dirs[..handled] && p in complete && p in old(scratch) && old(scratch[p]).Whole? ==>
                            HeldAsPayload(Services(), states, steps, |steps|, |old(steps)|, p)
      ensures forall p :: p in old(scratch) && old(scratch[p]) == Whole(true) && (p in complete || p !in dirs) ==>
                            Spared(Services(), states, steps, |steps|, |old(steps)|, p)
      ensures FreshNames(old(uploads), dirs, complete, nameOf) ==>
                && NoneOverwritten(states, steps, |old(steps)|)
                && AllPackedAs(uploads, disk, recoveryPeriod / 2, dirs[..handled], complete, old(scratch), nameOf)
    {
      ok, error, handled := RecoverEach(dirs, complete, nameOf, disk);
      PackedIsHeld(|old(steps)|);
      AllSpared(old(states), old(steps), old(scratch), Unread(dirs, complete));
      assert dirs[..|dirs|] == dirs;
    }

    /**
     * One deletion of all the directories together, as when the walk finds nothing complete below a
     * single one: it may stop half way.
     */
    method DiscardAll(reliable: bool) returns (ok: bool)
      requires Valid() && build.NoBuild? && sampleSet == {} && forall p :: p in scratch ==> !scratch[p].Filling?
      modifies this
      ensures WentOnBut(old(scratch.Keys), {}) && Now() == old(Now()).(scratch := scratch)
      ensures scratch.Keys <= old(scratch.Keys) && forall p :: p in scratch ==> !scratch[p].Filling?
      ensures ok <==> scratch == map[]
      ensures reliable ==> ok
    {
      var rest := scratch.Keys;
      ok := true;
      while rest != {} && ok
        invariant WentOnBut(old(scratch.Keys), {}) && Now() == old(Now()).(scratch := scratch)
        invariant scratch.Keys <= old(scratch.Keys) && forall p :: p in scratch ==> !scratch[p].Filling?
        invariant if ok then rest == scratch.Keys else scratch != map[] && !reliable
        decreases rest
      {
        var p := TakeAny(rest);
        rest := rest - {p};
        ok := RemoveUnpacked(p, reliable);
      }
    }

    /** The emitter is started once start-up has come through. */
    method StartEmitter()
      requires Valid()
      modifies this`emitterStarted
      ensures Valid() && emitterStarted && Now() == old(Now()) && steps == old(steps)
    {
      emitterStarted := true;
    }

    /** Every sample ever handed over, over all restarts so far, is safe or was given up by a step
        that NoSilentLoss names. */
    lemma EverySampleIsAccountedFor(x: Path)
      requires Valid() && x in handedOver
      ensures Held(Services(), Now(), x)
              || exists i :: 0 <= i < |steps| && GivenUpAt(Services(), states, steps, |steps|, i, x)
    {
      NoSilentLoss(Services(), states, steps, |steps|, x);
    }
  }
}
