/** Any number of writers publishing objects in one directory, interleaved step by step and killed anywhere:
    `publish_object_bytes` and the streamed layers of src/core.cpp, and `download_object` of
    python/av_cli/client.py. Writer i owns the temporary file i, so temporary names are distinct. */
module Publish {
  import opened Sha256Fips
  import opened ObjectStore

  // ---------- states ----------

  /** Checks then writes from memory; streams and then checks; or downloads, verifies and replaces. */
  datatype Kind = Memory | Stream | Download

  /** For a download, `data` is what the server sends, which need not hash to `name`. */
  datatype Job = Job(kind: Kind, name: string, data: seq<byte>)

  datatype Ending = Duplicate | Recheck | Fail

  datatype Phase =
    | Ready | Creating | Writing | Checking | Verifying | Renaming
    | Discarding(next: Ending)     // about to remove its temporary file
    | Rechecking
    | Returned(written: bool)
    | Failed                       // an exception, or False from a download
    | Crashed

  datatype State = State(objects: Objects, temps: map<nat, seq<byte>>, phases: seq<Phase>)

  /** Callers of the C++ publishers pass the digest of the data as its name. */
  predicate Named(jobs: seq<Job>, hash: Digest) {
    forall i :: 0 <= i < |jobs| && jobs[i].kind != Download ==> jobs[i].name == hash(jobs[i].data)
  }

  ghost predicate Init(jobs: seq<Job>, hash: Digest, s: State) {
    Named(jobs, hash) && Intact(s.objects, hash) && s.temps == map[] && |s.phases| == |jobs| &&
    forall i :: 0 <= i < |jobs| ==> s.phases[i] == if jobs[i].kind == Memory then Ready else Creating
  }

  // ---------- steps ----------

  datatype Step =
    | CheckExists(i: nat)
    | Create(i: nat, ok: bool)      // opens the temporary file; a failure leaves none
    | Write(i: nat, n: nat)         // n more bytes reach it
    | Break(i: nat)                 // the write, the source or the connection fails
    | Close(i: nat, ok: bool)       // the last bytes reach it, or are lost
    | Verify(i: nat)
    | Rename(i: nat, ok: bool)
    | Remove(i: nat)
    | CheckAgain(i: nat)
    | Crash(i: nat)

  predicate Finished(p: Phase) { p.Returned? || p == Failed || p == Crashed }

  predicate Enabled(jobs: seq<Job>, s: State, step: Step) {
    |s.phases| == |jobs| && step.i < |jobs| &&
    var i, p := step.i, s.phases[step.i];
    match step
    case CheckExists(_) => p == Ready || p == Checking
    case Create(_, _) => p == Creating
    case Write(_, n) => p == Writing && i in s.temps && |s.temps[i]| + n <= |jobs[i].data|
    case Break(_) => p == Writing
    case Close(_, ok) => p == Writing && i in s.temps && (ok ==> |s.temps[i]| == |jobs[i].data|)
    case Verify(_) => p == Verifying
    case Rename(_, _) => p == Renaming && i in s.temps
    case Remove(_) => p.Discarding?
    case CheckAgain(_) => p == Rechecking
    case Crash(_) => !Finished(p)
  }

  /** The C++ publishers do not look whether closing succeeds; Python raises. */
  function Closed(kind: Kind): Phase {
    match kind case Memory => Renaming case Stream => Checking case Download => Verifying
  }

  function Removed(next: Ending): Phase {
    match next case Duplicate => Returned(false) case Recheck => Rechecking case Fail => Failed
  }

  function Apply(jobs: seq<Job>, hash: Digest, s: State, step: Step): State
    requires Enabled(jobs, s, step)
  {
    var i, job := step.i, jobs[step.i];
    match step
    case CheckExists(_) =>
      s.(phases := s.phases[i :=
        if s.phases[i] == Ready then (if job.name in s.objects then Returned(false) else Creating)
        else if job.name in s.objects then Discarding(Duplicate) else Renaming])
    case Create(_, ok) =>
      if ok then s.(phases := s.phases[i := Writing], temps := s.temps[i := []])
        else s.(phases := s.phases[i := Failed])
    case Write(_, n) => s.(temps := s.temps[i := job.data[..|s.temps[i]| + n]])
    case Break(_) => s.(phases := s.phases[i := Discarding(Fail)])
    case Close(_, ok) => s.(phases :=
      s.phases[i := if ok || job.kind != Download then Closed(job.kind) else Discarding(Fail)])
    case Verify(_) => s.(phases := s.phases[i := if hash(job.data) == job.name then Renaming else Discarding(Fail)])
    case Rename(_, ok) =>
      if ok then
        s.(phases := s.phases[i := Returned(true)], objects := s.objects[job.name := s.temps[i]],
          temps := s.temps - {i})
      else
        s.(phases := s.phases[i := Discarding(if job.kind == Download then Fail else Recheck)])
    case Remove(_) => s.(phases := s.phases[i := Removed(s.phases[i].next)], temps := s.temps - {i})
    case CheckAgain(_) => s.(phases := s.phases[i := if job.name in s.objects then Returned(false) else Failed])
    case Crash(_) => s.(phases := s.phases[i := Crashed])
  }

  // ---------- the invariant ----------

  predicate HoldsTemp(p: Phase) { p == Writing || p == Checking || p == Verifying || p == Renaming || p.Discarding? }

  ghost predicate WriterOk(job: Job, i: nat, hash: Digest, s: State)
    requires i < |s.phases|
  {
    var p := s.phases[i];
    (HoldsTemp(p) ==> i in s.temps) &&
    (i in s.temps ==> (HoldsTemp(p) || p == Crashed) && s.temps[i] <= job.data) &&
    (p == Verifying || (job.kind == Download && p == Renaming) ==> s.temps[i] == job.data) &&
    (p == Renaming ==> hash(job.data) == job.name) &&
    (job.kind == Download ==> p != Ready && p != Checking && p != Rechecking) &&
    (job.kind == Download ==> p != Discarding(Recheck) && p != Discarding(Duplicate)) &&
    (p.Returned? || p == Discarding(Duplicate) ==> job.name in s.objects)
  }

  ghost predicate Inv(jobs: seq<Job>, hash: Digest, s: State) {
    Named(jobs, hash) && |s.phases| == |jobs| && (forall i <- s.temps :: i < |jobs|) &&
    forall i :: 0 <= i < |jobs| ==> WriterOk(jobs[i], i, hash, s)
  }

  lemma InitInv(jobs: seq<Job>, hash: Digest, s: State)
    requires Init(jobs, hash, s)
    ensures Inv(jobs, hash, s)
  {
  }

  /** One step: no name disappears, and a content appears only by the renaming of its writer's temporary file,
      which holds a prefix of the writer's data. */
  lemma StepObjects(jobs: seq<Job>, hash: Digest, s: State, step: Step)
    requires Inv(jobs, hash, s) && Enabled(jobs, s, step)
    ensures var r, job := Apply(jobs, hash, s, step), jobs[step.i];
      r.objects == s.objects ||
      (s.phases[step.i] == Renaming && step.i in s.temps && s.temps[step.i] <= job.data && hash(job.data) == job.name &&
       r.objects == s.objects[job.name := s.temps[step.i]] && r.phases[step.i] == Returned(true))
  {
    assert WriterOk(jobs[step.i], step.i, hash, s);
  }

  lemma OwnStep(jobs: seq<Job>, hash: Digest, s: State, step: Step)
    requires Inv(jobs, hash, s) && Enabled(jobs, s, step)
    ensures WriterOk(jobs[step.i], step.i, hash, Apply(jobs, hash, s, step))
  {
    assert WriterOk(jobs[step.i], step.i, hash, s);
  }

  lemma OthersUntouched(jobs: seq<Job>, hash: Digest, s: State, step: Step, j: nat)
    requires Inv(jobs, hash, s) && Enabled(jobs, s, step) && j < |jobs| && j != step.i
    ensures WriterOk(jobs[j], j, hash, Apply(jobs, hash, s, step))
  {
    assert WriterOk(jobs[j], j, hash, s);
    StepObjects(jobs, hash, s, step);
    var r := Apply(jobs, hash, s, step);
    assert r.phases[j] == s.phases[j] && (j in r.temps <==> j in s.temps) &&
      (j in s.temps ==> r.temps[j] == s.temps[j]);
  }

  lemma StepInv(jobs: seq<Job>, hash: Digest, s: State, step: Step)
    requires Inv(jobs, hash, s) && Enabled(jobs, s, step)
    ensures Inv(jobs, hash, Apply(jobs, hash, s, step))
  {
    OwnStep(jobs, hash, s, step);
    forall j: nat | j < |jobs| && j != step.i ensures WriterOk(jobs[j], j, hash, Apply(jobs, hash, s, step)) {
      OthersUntouched(jobs, hash, s, step, j);
    }
  }

  // ---------- whole runs ----------

  predicate Possible(jobs: seq<Job>, hash: Digest, s: State, steps: seq<Step>)
    decreases steps
  {
    steps == [] || (Enabled(jobs, s, steps[0]) && Possible(jobs, hash, Apply(jobs, hash, s, steps[0]), steps[1..]))
  }

  function After(jobs: seq<Job>, hash: Digest, s: State, steps: seq<Step>): State
    requires Possible(jobs, hash, s, steps)
    decreases steps
  {
    if steps == [] then s else After(jobs, hash, Apply(jobs, hash, s, steps[0]), steps[1..])
  }

  lemma {:induction false} RunInv(jobs: seq<Job>, hash: Digest, s: State, steps: seq<Step>)
    requires Inv(jobs, hash, s) && Possible(jobs, hash, s, steps)
    ensures Inv(jobs, hash, After(jobs, hash, s, steps))
    ensures s.objects.Keys <= After(jobs, hash, s, steps).objects.Keys
    decreases steps
  {
    if steps != [] {
      StepInv(jobs, hash, s, steps[0]);
      StepObjects(jobs, hash, s, steps[0]);
      RunInv(jobs, hash, Apply(jobs, hash, s, steps[0]), steps[1..]);
    }
  }

  /** Where a writer stands when it has ended by itself: if it returned, its object is there; its temporary file
      is not. */
  predicate EndsWell(job: Job, i: nat, s: State)
    requires i < |s.phases|
  {
    (s.phases[i].Returned? ==> job.name in s.objects) &&
    (s.phases[i].Returned? || s.phases[i] == Failed ==> i !in s.temps)
  }

  /** Under every interleaving, with writers killed anywhere and bytes lost at any close: no published name
      disappears, a publisher that returned true or false finds its object there, and a writer that ended by
      itself, whatever its outcome, has left no temporary file. */
  lemma PublishedStays(jobs: seq<Job>, hash: Digest, s: State, steps: seq<Step>)
    requires Init(jobs, hash, s) && Possible(jobs, hash, s, steps)
    ensures var r := After(jobs, hash, s, steps);
      s.objects.Keys <= r.objects.Keys && |r.phases| == |jobs| &&
      forall i: nat :: i < |jobs| ==> EndsWell(jobs[i], i, r)
  {
    InitInv(jobs, hash, s);
    RunInv(jobs, hash, s, steps);
    var r := After(jobs, hash, s, steps);
    forall i: nat | i < |jobs| ensures EndsWell(jobs[i], i, r) {
      assert WriterOk(jobs[i], i, hash, r);
    }
  }

  predicate Published(jobs: seq<Job>, s: State, name: string) {
    exists i :: 0 <= i < |jobs| && i < |s.phases| && jobs[i].name == name && s.phases[i] == Returned(true)
  }

  /** Nothing appears by itself: every new name was published by a writer that returned true. */
  lemma {:induction false} NewNamesArePublished(jobs: seq<Job>, hash: Digest, s: State, steps: seq<Step>, name: string)
    requires Inv(jobs, hash, s) && Possible(jobs, hash, s, steps)
    requires name in After(jobs, hash, s, steps).objects && (name in s.objects ==> Published(jobs, s, name))
    ensures Published(jobs, After(jobs, hash, s, steps), name)
    decreases steps
  {
    if steps != [] {
      var r := Apply(jobs, hash, s, steps[0]);
      StepInv(jobs, hash, s, steps[0]);
      StepObjects(jobs, hash, s, steps[0]);
      if name in s.objects {
        var i :| 0 <= i < |jobs| && jobs[i].name == name && s.phases[i] == Returned(true);
        assert r.phases[i] == Returned(true);
      } else if name in r.objects {
        assert r.phases[steps[0].i] == Returned(true);
      }
      NewNamesArePublished(jobs, hash, r, steps[1..], name);
    }
  }

  // ---------- outcomes ----------

  /** Where a writer can be that has the object in front of it when it first looks. */
  predicate OnlyDuplicate(kind: Kind, p: Phase, hasTemp: bool) {
    match kind
    case Memory => (p == Ready || p == Returned(false) || p == Crashed) && !hasTemp
    case Stream =>
      p == Creating || p == Writing || p == Checking || p == Discarding(Duplicate) || p == Discarding(Fail) ||
      p == Returned(false) || p == Failed || p == Crashed
    case Download => false
  }

  lemma {:induction false} StaysDuplicate(jobs: seq<Job>, hash: Digest, s: State, steps: seq<Step>, i: nat)
    requires Inv(jobs, hash, s) && Possible(jobs, hash, s, steps) && i < |jobs|
    requires jobs[i].name in s.objects && OnlyDuplicate(jobs[i].kind, s.phases[i], i in s.temps)
    ensures var r := After(jobs, hash, s, steps);
      |r.phases| == |jobs| && OnlyDuplicate(jobs[i].kind, r.phases[i], i in r.temps)
    decreases steps
  {
    if steps != [] {
      StepInv(jobs, hash, s, steps[0]);
      StepObjects(jobs, hash, s, steps[0]);
      StaysDuplicate(jobs, hash, Apply(jobs, hash, s, steps[0]), steps[1..], i);
    }
  }

  /** Write-once: a C++ publisher that starts when its object is there never reports that it wrote it, and one that
      publishes from memory does not even create a temporary file. */
  lemma ExistingIsNotRewritten(jobs: seq<Job>, hash: Digest, s: State, steps: seq<Step>, i: nat)
    requires Init(jobs, hash, s) && Possible(jobs, hash, s, steps)
    requires i < |jobs| && jobs[i].kind != Download && jobs[i].name in s.objects
    ensures var r := After(jobs, hash, s, steps);
      |r.phases| == |jobs| && r.phases[i] != Returned(true) && (jobs[i].kind == Memory ==> i !in r.temps)
  {
    InitInv(jobs, hash, s);
    StaysDuplicate(jobs, hash, s, steps, i);
  }

  /** The step is no mishap of writer i: no open, write or close fails it, what it downloads has the right hash, and
      its rename fails only for a C++ publisher whose object is there by then. */
  predicate Untroubled(jobs: seq<Job>, hash: Digest, s: State, step: Step, i: nat)
    requires Enabled(jobs, s, step)
  {
    step.i == i ==>
      var job := jobs[i];
      match step
      case Create(_, ok) => ok
      case Break(_) => false
      case Close(_, ok) => ok || job.kind != Download
      case Verify(_) => hash(job.data) == job.name
      case Rename(_, ok) => ok || (job.kind != Download && job.name in s.objects)
      case _ => true
  }

  predicate AllUntroubled(jobs: seq<Job>, hash: Digest, s: State, steps: seq<Step>, i: nat)
    requires Possible(jobs, hash, s, steps)
    decreases steps
  {
    steps == [] ||
    (Untroubled(jobs, hash, s, steps[0], i) && AllUntroubled(jobs, hash, Apply(jobs, hash, s, steps[0]), steps[1..], i))
  }

  /** On the way to a return value. */
  predicate Fine(job: Job, p: Phase, objects: Objects) {
    p != Failed && p != Discarding(Fail) && (p == Discarding(Recheck) || p == Rechecking ==> job.name in objects)
  }

  /** A writer fails only through a mishap of its own: whatever the others do and wherever they are killed, one without
      mishaps does not fail. */
  lemma {:induction false} FailsOnlyByMishap(jobs: seq<Job>, hash: Digest, s: State, steps: seq<Step>, i: nat)
    requires Inv(jobs, hash, s) && Possible(jobs, hash, s, steps) && i < |jobs|
    requires AllUntroubled(jobs, hash, s, steps, i) && Fine(jobs[i], s.phases[i], s.objects)
    ensures |After(jobs, hash, s, steps).phases| == |jobs|
    ensures Fine(jobs[i], After(jobs, hash, s, steps).phases[i], After(jobs, hash, s, steps).objects)
    decreases steps
  {
    if steps != [] {
      StepInv(jobs, hash, s, steps[0]);
      StepObjects(jobs, hash, s, steps[0]);
      FailsOnlyByMishap(jobs, hash, Apply(jobs, hash, s, steps[0]), steps[1..], i);
    }
  }

  // ---------- intactness ----------

  /** This step does not rename an incomplete temporary file. */
  predicate Complete(jobs: seq<Job>, s: State, step: Step)
    requires Enabled(jobs, s, step)
  {
    step.Rename? && step.ok ==> s.temps[step.i] == jobs[step.i].data
  }

  predicate AllComplete(jobs: seq<Job>, hash: Digest, s: State, steps: seq<Step>)
    requires Possible(jobs, hash, s, steps)
    decreases steps
  {
    steps == [] || (Complete(jobs, s, steps[0]) && AllComplete(jobs, hash, Apply(jobs, hash, s, steps[0]), steps[1..]))
  }

  ghost predicate IntactThroughout(jobs: seq<Job>, hash: Digest, s: State, steps: seq<Step>)
    requires Possible(jobs, hash, s, steps)
    decreases steps
  {
    Intact(s.objects, hash) &&
    (steps == [] || IntactThroughout(jobs, hash, Apply(jobs, hash, s, steps[0]), steps[1..]))
  }

  /** No data hashes like a shorter beginning of it. */
  ghost predicate PrefixesDiffer(jobs: seq<Job>, hash: Digest) {
    forall i, n :: 0 <= i < |jobs| && 0 <= n < |jobs[i].data| ==> hash(jobs[i].data[..n]) != hash(jobs[i].data)
  }

  lemma StepIntactIffComplete(jobs: seq<Job>, hash: Digest, s: State, step: Step)
    requires Inv(jobs, hash, s) && Enabled(jobs, s, step) && Intact(s.objects, hash)
    ensures Complete(jobs, s, step) ==> Intact(Apply(jobs, hash, s, step).objects, hash)
    ensures PrefixesDiffer(jobs, hash) && Intact(Apply(jobs, hash, s, step).objects, hash) ==> Complete(jobs, s, step)
  {
    var r, job := Apply(jobs, hash, s, step), jobs[step.i];
    assert WriterOk(job, step.i, hash, s);
    if step.Rename? && step.ok && s.temps[step.i] != job.data {
      var n := |s.temps[step.i]|;
      assert s.temps[step.i] == job.data[..n] && n < |job.data|;
      assert job.name in r.objects && r.objects[job.name] == job.data[..n];
    }
  }

  /** A run keeps the directory intact at every moment, so that no reader ever sees a name with bytes that do not
      hash to it, if and only if no rename publishes a temporary file that a close has left short. */
  lemma {:induction false} IntactIffComplete(jobs: seq<Job>, hash: Digest, s: State, steps: seq<Step>)
    requires Inv(jobs, hash, s) && Possible(jobs, hash, s, steps) && Intact(s.objects, hash) &&
      PrefixesDiffer(jobs, hash)
    ensures IntactThroughout(jobs, hash, s, steps) <==> AllComplete(jobs, hash, s, steps)
    decreases steps
  {
    if steps != [] {
      StepInv(jobs, hash, s, steps[0]);
      StepIntactIffComplete(jobs, hash, s, steps[0]);
      if Complete(jobs, s, steps[0]) {
        IntactIffComplete(jobs, hash, Apply(jobs, hash, s, steps[0]), steps[1..]);
      }
    }
  }

  /** The step loses no bytes at a close that nobody checks. */
  predicate Flushes(jobs: seq<Job>, s: State, step: Step)
    requires Enabled(jobs, s, step)
  {
    step.Close? && !step.ok && jobs[step.i].kind != Download ==> s.temps[step.i] == jobs[step.i].data
  }

  predicate AllFlush(jobs: seq<Job>, hash: Digest, s: State, steps: seq<Step>)
    requires Possible(jobs, hash, s, steps)
    decreases steps
  {
    steps == [] || (Flushes(jobs, s, steps[0]) && AllFlush(jobs, hash, Apply(jobs, hash, s, steps[0]), steps[1..]))
  }

  /** Closed files are complete. */
  ghost predicate Flushed(jobs: seq<Job>, s: State) {
    forall i <- s.temps :: i < |jobs| && i < |s.phases| && (s.phases[i] == Checking || s.phases[i] == Renaming) ==>
      s.temps[i] == jobs[i].data
  }

  lemma FlushedStep(jobs: seq<Job>, hash: Digest, s: State, step: Step)
    requires Inv(jobs, hash, s) && Enabled(jobs, s, step) && Flushed(jobs, s) && Flushes(jobs, s, step)
    ensures Flushed(jobs, Apply(jobs, hash, s, step)) && Complete(jobs, s, step)
  {
    assert WriterOk(jobs[step.i], step.i, hash, s);
  }

  /** So a run in which every close of a C++ publisher flushes keeps the directory intact, whatever is killed or
      fails otherwise. */
  lemma {:induction false} FlushedRunStaysIntact(jobs: seq<Job>, hash: Digest, s: State, steps: seq<Step>)
    requires Inv(jobs, hash, s) && Possible(jobs, hash, s, steps) && Intact(s.objects, hash)
    requires Flushed(jobs, s) && AllFlush(jobs, hash, s, steps)
    ensures AllComplete(jobs, hash, s, steps) && IntactThroughout(jobs, hash, s, steps)
    ensures Intact(After(jobs, hash, s, steps).objects, hash)
    decreases steps
  {
    if steps != [] {
      FlushedStep(jobs, hash, s, steps[0]);
      StepInv(jobs, hash, s, steps[0]);
      StepIntactIffComplete(jobs, hash, s, steps[0]);
      FlushedRunStaysIntact(jobs, hash, Apply(jobs, hash, s, steps[0]), steps[1..]);
    }
  }

  /** Among the stored objects and the writers' data, equal hashes mean equal bytes. */
  ghost predicate Agree(jobs: seq<Job>, hash: Digest, objects: Objects) {
    (forall i :: 0 <= i < |jobs| && hash(jobs[i].data) in objects ==> objects[hash(jobs[i].data)] == jobs[i].data) &&
    forall i, j :: 0 <= i < |jobs| && 0 <= j < |jobs| && hash(jobs[i].data) == hash(jobs[j].data) ==>
      jobs[i].data == jobs[j].data
  }

  /** Without collisions and lost bytes a published object never changes, even when a racing writer renames over it. */
  lemma {:induction false} ContentNeverChanges(jobs: seq<Job>, hash: Digest, s: State, steps: seq<Step>, name: string)
    requires Inv(jobs, hash, s) && Possible(jobs, hash, s, steps) && Agree(jobs, hash, s.objects)
    requires Flushed(jobs, s) && AllFlush(jobs, hash, s, steps) && name in s.objects
    ensures name in After(jobs, hash, s, steps).objects && After(jobs, hash, s, steps).objects[name] == s.objects[name]
    decreases steps
  {
    if steps != [] {
      FlushedStep(jobs, hash, s, steps[0]);
      StepInv(jobs, hash, s, steps[0]);
      StepObjects(jobs, hash, s, steps[0]);
      ContentNeverChanges(jobs, hash, Apply(jobs, hash, s, steps[0]), steps[1..], name);
    }
  }

  // ---------- two runs ----------

  lemma {:induction false} Extend(jobs: seq<Job>, hash: Digest, s: State, steps: seq<Step>, step: Step)
    requires Possible(jobs, hash, s, steps) && Enabled(jobs, After(jobs, hash, s, steps), step)
    ensures Possible(jobs, hash, s, steps + [step])
    ensures After(jobs, hash, s, steps + [step]) == Apply(jobs, hash, After(jobs, hash, s, steps), step)
    decreases steps
  {
    if steps != [] {
      Extend(jobs, hash, Apply(jobs, hash, s, steps[0]), steps[1..], step);
      assert (steps + [step])[1..] == steps[1..] + [step];
    }
  }

  /** A writer that has seen no object publishes n of its bytes in four more steps; if some are missing, the
      close has lost them. */
  lemma WriterFinishes(jobs: seq<Job>, hash: Digest, s: State, steps: seq<Step>, i: nat, n: nat)
    returns (more: seq<Step>)
    requires Possible(jobs, hash, s, steps) && i < |jobs| && |After(jobs, hash, s, steps).phases| == |jobs|
    requires jobs[i].kind == Memory && After(jobs, hash, s, steps).phases[i] == Creating && n <= |jobs[i].data|
    ensures Possible(jobs, hash, s, steps + more)
    ensures After(jobs, hash, s, steps + more).phases == After(jobs, hash, s, steps).phases[i := Returned(true)]
    ensures After(jobs, hash, s, steps + more).objects ==
      After(jobs, hash, s, steps).objects[jobs[i].name := jobs[i].data[..n]]
  {
    more := [Create(i, true), Write(i, n), Close(i, n == |jobs[i].data|), Rename(i, true)];
    Extend(jobs, hash, s, steps, more[0]);
    Extend(jobs, hash, s, steps + [more[0]], more[1]);
    Extend(jobs, hash, s, steps + [more[0]] + [more[1]], more[2]);
    Extend(jobs, hash, s, steps + [more[0]] + [more[1]] + [more[2]], more[3]);
    assert steps + [more[0]] + [more[1]] + [more[2]] + [more[3]] == steps + more;
  }

  /** Two racing publishers of one object may both be told that they wrote it, since rename overwrites. */
  lemma BothMayReturnTrue(hash: Digest, data: seq<byte>) returns (steps: seq<Step>)
    ensures var job := Job(Memory, hash(data), data);
      var s := State(map[], map[], [Ready, Ready]);
      Init([job, job], hash, s) && Possible([job, job], hash, s, steps) &&
      After([job, job], hash, s, steps).phases == [Returned(true), Returned(true)]
  {
    var job := Job(Memory, hash(data), data);
    var jobs, s := [job, job], State(map[], map[], [Ready, Ready]);
    Extend(jobs, hash, s, [], CheckExists(0));
    Extend(jobs, hash, s, [] + [CheckExists(0)], CheckExists(1));
    steps := [] + [CheckExists(0)] + [CheckExists(1)];
    var first := WriterFinishes(jobs, hash, s, steps, 0, |data|);
    steps := steps + first;
    var second := WriterFinishes(jobs, hash, s, steps, 1, |data|);
    steps := steps + second;
  }

  /** A close that loses the end of an object, which publish_object_bytes does not notice: it returns true, and
      the name stands for the first n bytes. */
  lemma LostAtClose(hash: Digest, data: seq<byte>, n: nat) returns (steps: seq<Step>)
    requires n < |data| && hash(data[..n]) != hash(data)
    ensures var jobs, s := [Job(Memory, hash(data), data)], State(map[], map[], [Ready]);
      Init(jobs, hash, s) && Possible(jobs, hash, s, steps) &&
      After(jobs, hash, s, steps).phases == [Returned(true)] && !Intact(After(jobs, hash, s, steps).objects, hash)
  {
    var jobs, s := [Job(Memory, hash(data), data)], State(map[], map[], [Ready]);
    Extend(jobs, hash, s, [], CheckExists(0));
    steps := [] + [CheckExists(0)];
    var more := WriterFinishes(jobs, hash, s, steps, 0, n);
    steps := steps + more;
    assert hash(data) in After(jobs, hash, s, steps).objects;
  }
}
