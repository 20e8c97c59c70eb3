/** `av registry restore` (python/av_cli/cmd_registry.py): what a run, killed anywhere, sends to a registry,
    when its verdict can be trusted, and the round trip from one registry to another. */
module Restore {
  import opened Sha256Fips
  import opened ObjectStore
  import opened Options
  import opened Client
  import opened Export

  // ---------- the registry ----------

  type Commits = map<string, Commit>

  datatype World = World(objects: Objects, commits: Commits, refs: Refs)

  /** The registry stamps a commit that carries no timestamp. */
  function Stripped(c: Commit): Commit { c.(timestamp := None) }

  const CREATED := 201
  const CONFLICT := 409
  const REFUSED := 400
  const OK := 200

  class Remote {
    const hash: Digest
    var world: World

    constructor (hash: Digest, world: World)
      ensures this.hash == hash && this.world == world
    {
      this.hash, this.world := hash, world;
    }

    /** `serves` says whether this request is served at all. */
    method PostObject(h: string, data: seq<byte>, serves: bool) returns (status: nat)
      requires hash(data) == h
      modifies this
      ensures status == if !serves then REFUSED else if h in old(world.objects) then CONFLICT else CREATED
      ensures world == if status == CREATED then old(world).(objects := old(world).objects[h := data]) else old(world)
    {
      if !serves {
        return REFUSED;
      }
      if h in world.objects {
        return CONFLICT;
      }
      world := world.(objects := world.objects[h := data]);
      return CREATED;
    }

    /** A commit without a hash is malformed. */
    method PostCommit(c: Commit, serves: bool) returns (status: nat)
      modifies this
      ensures status == if !serves || c.hash == "" then REFUSED else if c.hash in old(world.commits) then CONFLICT
        else CREATED
      ensures world == if status == CREATED then old(world).(commits := old(world).commits[c.hash := c]) else old(world)
    {
      if !serves || c.hash == "" {
        return REFUSED;
      }
      if c.hash in world.commits {
        return CONFLICT;
      }
      world := world.(commits := world.commits[c.hash := c]);
      return CREATED;
    }

    method PutRef(name: string, commit: string, serves: bool) returns (status: nat)
      modifies this
      ensures status == if serves then OK else REFUSED
      ensures world == if status == OK then old(world).(refs := old(world).refs[name := commit]) else old(world)
    {
      if !serves {
        return REFUSED;
      }
      world := world.(refs := world.refs[name := commit]);
      return OK;
    }
  }

  // ---------- the state ----------

  /** The state file. */
  datatype Done = Done(objects: set<string>, commits: set<string>, refs: set<string>)

  const NOTHING := Done({}, {}, {})

  /** `--resume` starts from the state file, `--no-resume` from nothing. */
  function Start(saved: Done, resume: bool): Done { if resume then saved else NOTHING }

  /** The state of a run in memory and the state file in the archive. */
  class State {
    var now: Done
    var saved: Done

    constructor (saved: Done)
      ensures this.saved == saved && now == NOTHING
    {
      this.now, this.saved := NOTHING, saved;
    }

    method Load(resume: bool)
      modifies this`now
      ensures now == Start(saved, resume)
    {
      if resume {
        now := saved;
      } else {
        now := Done({}, {}, {});
      }
    }

    method Record(done: Done)
      modifies this
      ensures now == done && saved == done
    {
      now, saved := done, done;
    }
  }

  // ---------- one run, on values ----------

  /** Where a run is: the registry, the state in memory and on disk, whether it is alive, and its failures. */
  datatype Place = Place(world: World, now: Done, saved: Done, running: bool, failed: nat)

  /** The archive a run reads: `names` are the refs of the manifest in its own order. */
  datatype Archived = Archived(manifest: Manifest, names: seq<string>, shards: Objects)

  ghost predicate Ordered(s: Archived) {
    (forall name :: name in s.names <==> name in s.manifest.refs) &&
    forall i, j :: 0 <= i < j < |s.names| ==> s.names[i] != s.names[j]
  }

  /** Which requests the registry serves, and where the run is killed: `alive(2i)` before item i, `alive(2i + 1)`
      between the acceptance of item i and the saving of the state. */
  datatype Answers = Answers(objects: string -> bool, commits: string -> bool, refs: string -> bool)

  datatype Lives = Lives(objects: nat -> bool, commits: nat -> bool, refs: nat -> bool)

  predicate Sendable(shards: Objects, hash: Digest, h: string) { h in shards && hash(shards[h]) == h }

  /** The registry has accepted an item; the state is saved unless the run dies first. */
  function Accepted(p: Place, world: World, next: Done, late: bool): Place {
    if late then p.(world := world, now := next, saved := next) else p.(world := world, running := false)
  }

  /** One object: resumed, missing or corrupt, refused, or accepted. */
  function ObjectStep(p: Place, h: string, shards: Objects, hash: Digest, serves: bool, early: bool,
                      late: bool): Place {
    if !p.running || !early then p.(running := false)
    else if h in p.now.objects then p
    else if !Sendable(shards, hash, h) || !serves then p.(failed := p.failed + 1)
    else
      var objects := if h in p.world.objects then p.world.objects else p.world.objects[h := shards[h]];
      Accepted(p, p.world.(objects := objects), p.now.(objects := p.now.objects + {h}), late)
  }

  function CommitStep(p: Place, c: Commit, serves: bool, early: bool, late: bool): Place {
    if !p.running || !early then p.(running := false)
    else if c.hash != "" && c.hash in p.now.commits then p
    else if !serves || c.hash == "" then p.(failed := p.failed + 1)
    else
      var commits := if c.hash in p.world.commits then p.world.commits else p.world.commits[c.hash := Stripped(c)];
      Accepted(p, p.world.(commits := commits), p.now.(commits := p.now.commits + {c.hash}), late)
  }

  function RefStep(p: Place, name: string, commit: string, serves: bool, early: bool, late: bool): Place {
    if !p.running || !early then p.(running := false)
    else if name in p.now.refs then p
    else if !serves then p.(failed := p.failed + 1)
    else
      Accepted(p, p.world.(refs := p.world.refs[name := commit]), p.now.(refs := p.now.refs + {name}), late)
  }

  function ObjectSteps(p: Place, items: seq<Item>, shards: Objects, hash: Digest, serves: string -> bool,
                       alive: nat -> bool): Place {
    if items == [] then p
    else
      var n := |items| - 1;
      var h := items[n].hash;
      ObjectStep(ObjectSteps(p, items[..n], shards, hash, serves, alive), h, shards, hash, serves(h), alive(2 * n),
        alive(2 * n + 1))
  }

  function CommitSteps(p: Place, commits: seq<Commit>, serves: string -> bool, alive: nat -> bool): Place {
    if commits == [] then p
    else
      var n := |commits| - 1;
      var c := commits[n];
      CommitStep(CommitSteps(p, commits[..n], serves, alive), c, serves(c.hash), alive(2 * n), alive(2 * n + 1))
  }

  function RefSteps(p: Place, names: seq<string>, refs: Refs, serves: string -> bool, alive: nat -> bool): Place
    requires forall name <- names :: name in refs
  {
    if names == [] then p
    else
      var n := |names| - 1;
      var name := names[n];
      RefStep(RefSteps(p, names[..n], refs, serves, alive), name, refs[name], serves(name), alive(2 * n),
        alive(2 * n + 1))
  }

  /** A whole run: objects, then commits, then refs. */
  ghost function Run(p: Place, s: Archived, hash: Digest, answers: Answers, lives: Lives): Place
    requires Ordered(s)
  {
    var objects := ObjectSteps(p, s.manifest.objects, s.shards, hash, answers.objects, lives.objects);
    var commits := CommitSteps(objects, s.manifest.commits, answers.commits, lives.commits);
    RefSteps(commits, s.names, s.manifest.refs, answers.refs, lives.refs)
  }

  ghost function RunFrom(a: World, saved: Done, resume: bool, s: Archived, hash: Digest, answers: Answers,
                         lives: Lives): Place
    requires Ordered(s)
  {
    Run(Place(a, Start(saved, resume), saved, true, 0), s, hash, answers, lives)
  }

  lemma {:induction false} DeadSendsNothing(p: Place, s: Archived, answers: Answers, lives: Lives, n: nat, k: nat)
    requires !p.running && Ordered(s) && n <= |s.manifest.commits| && k <= |s.names|
    ensures CommitSteps(p, s.manifest.commits[..n], answers.commits, lives.commits) == p
    ensures RefSteps(p, s.names[..k], s.manifest.refs, answers.refs, lives.refs) == p
    decreases n + k
  {
    if n > 0 {
      DeadSendsNothing(p, s, answers, lives, n - 1, k);
      assert s.manifest.commits[..n][..n - 1] == s.manifest.commits[..n - 1];
    } else if k > 0 {
      DeadSendsNothing(p, s, answers, lives, n, k - 1);
      assert s.names[..k][..k - 1] == s.names[..k - 1];
    }
  }

  /** A run killed in one loop does not enter the next. */
  lemma ShortRun(p: Place, s: Archived, answers: Answers, lives: Lives)
    requires Ordered(s)
    ensures var c := CommitSteps(p, s.manifest.commits, answers.commits, lives.commits);
      (!p.running ==> c == p) && (!c.running ==> RefSteps(c, s.names, s.manifest.refs, answers.refs, lives.refs) == c)
  {
    var c := CommitSteps(p, s.manifest.commits, answers.commits, lives.commits);
    assert s.manifest.commits[..|s.manifest.commits|] == s.manifest.commits && s.names[..|s.names|] == s.names;
    if !p.running { DeadSendsNothing(p, s, answers, lives, |s.manifest.commits|, |s.names|); }
    if !c.running { DeadSendsNothing(c, s, answers, lives, |s.manifest.commits|, |s.names|); }
  }

  // ---------- the command ----------

  method RestoreObject(h: string, shards: Objects, serves: bool, early: bool, late: bool, remote: Remote, state: State,
                       failed: nat) returns (running: bool, failures: nat)
    modifies remote, state
    ensures Place(remote.world, state.now, state.saved, running, failures) ==
      ObjectStep(Place(old(remote.world), old(state.now), old(state.saved), true, failed), h, shards, remote.hash,
        serves, early, late)
  {
    running, failures := early, failed;
    if early && h !in state.now.objects {
      if h !in shards || remote.hash(shards[h]) != h {
        failures := failed + 1;
      } else {
        var status := remote.PostObject(h, shards[h], serves);
        if status == CREATED || status == CONFLICT {
          running := late;
          if late {
            state.Record(state.now.(objects := state.now.objects + {h}));
          }
        } else {
          failures := failed + 1;
        }
      }
    }
  }

  method RestoreObjects(items: seq<Item>, shards: Objects, serves: string -> bool, alive: nat -> bool, remote: Remote,
                        state: State)
    returns (running: bool, failed: nat)
    modifies remote, state
    ensures Place(remote.world, state.now, state.saved, running, failed) ==
      ObjectSteps(Place(old(remote.world), old(state.now), old(state.saved), true, 0), items, shards, remote.hash,
        serves, alive)
  {
    ghost var start := Place(remote.world, state.now, state.saved, true, 0);
    running, failed := true, 0;
    for i := 0 to |items|
      invariant Place(remote.world, state.now, state.saved, running, failed) ==
        ObjectSteps(start, items[..i], shards, remote.hash, serves, alive)
    {
      assert items[..i + 1][..i] == items[..i];
      if running {
        var h := items[i].hash;
        running, failed := RestoreObject(h, shards, serves(h), alive(2 * i), alive(2 * i + 1), remote, state, failed);
      }
    }
    assert items[..|items|] == items;
  }

  method RestoreCommit(c: Commit, serves: bool, early: bool, late: bool, remote: Remote, state: State, failed: nat)
    returns (running: bool, failures: nat)
    modifies remote, state
    ensures Place(remote.world, state.now, state.saved, running, failures) ==
      CommitStep(Place(old(remote.world), old(state.now), old(state.saved), true, failed), c, serves, early, late)
  {
    running, failures := early, failed;
    if early && (c.hash == "" || c.hash !in state.now.commits) {
      var status := remote.PostCommit(Stripped(c), serves);
      if status == CREATED || status == CONFLICT {
        running := late;
        if late {
          state.Record(state.now.(commits := state.now.commits + {c.hash}));
        }
      } else {
        failures := failed + 1;
      }
    }
  }

  method RestoreCommits(commits: seq<Commit>, serves: string -> bool, alive: nat -> bool, remote: Remote, state: State,
                        failures: nat)
    returns (running: bool, failed: nat)
    modifies remote, state
    ensures Place(remote.world, state.now, state.saved, running, failed) ==
      CommitSteps(Place(old(remote.world), old(state.now), old(state.saved), true, failures), commits, serves, alive)
  {
    ghost var start := Place(remote.world, state.now, state.saved, true, failures);
    running, failed := true, failures;
    for i := 0 to |commits|
      invariant Place(remote.world, state.now, state.saved, running, failed) ==
        CommitSteps(start, commits[..i], serves, alive)
    {
      assert commits[..i + 1][..i] == commits[..i];
      if running {
        var c := commits[i];
        running, failed := RestoreCommit(c, serves(c.hash), alive(2 * i), alive(2 * i + 1), remote, state, failed);
      }
    }
    assert commits[..|commits|] == commits;
  }

  method RestoreRef(name: string, commit: string, serves: bool, early: bool, late: bool, remote: Remote, state: State,
                    failed: nat)
    returns (running: bool, failures: nat)
    modifies remote, state
    ensures Place(remote.world, state.now, state.saved, running, failures) ==
      RefStep(Place(old(remote.world), old(state.now), old(state.saved), true, failed), name, commit, serves, early,
        late)
  {
    running, failures := early, failed;
    if early && name !in state.now.refs {
      var status := remote.PutRef(name, commit, serves);
      if status == OK {
        running := late;
        if late {
          state.Record(state.now.(refs := state.now.refs + {name}));
        }
      } else {
        failures := failed + 1;
      }
    }
  }

  method RestoreRefs(names: seq<string>, refs: Refs, serves: string -> bool, alive: nat -> bool, remote: Remote,
                     state: State,
                     failures: nat)
    returns (running: bool, failed: nat)
    requires forall name <- names :: name in refs
    modifies remote, state
    ensures Place(remote.world, state.now, state.saved, running, failed) ==
      RefSteps(Place(old(remote.world), old(state.now), old(state.saved), true, failures), names, refs, serves, alive)
  {
    ghost var start := Place(remote.world, state.now, state.saved, true, failures);
    running, failed := true, failures;
    for i := 0 to |names|
      invariant Place(remote.world, state.now, state.saved, running, failed) ==
        RefSteps(start, names[..i], refs, serves, alive)
    {
      assert names[..i + 1][..i] == names[..i];
      if running {
        var name := names[i];
        running, failed := RestoreRef(name, refs[name], serves(name), alive(2 * i), alive(2 * i + 1), remote, state,
          failed);
      }
    }
    assert names[..|names|] == names;
  }

  datatype Verdict = NotStarted | Interrupted | Ended(failed: nat)

  function VerdictOf(p: Place): Verdict { if p.running then Ended(p.failed) else Interrupted }

  /** The restore command; without the registry or a readable manifest it does nothing. */
  method Restore(available: bool, file: ManifestFile, names: seq<string>, shards: Objects, resume: bool,
                 answers: Answers,
                 lives: Lives, remote: Remote, state: State) returns (v: Verdict)
    requires file.Written? ==> Ordered(Archived(file.manifest, names, shards))
    modifies remote, state
    ensures v == NotStarted <==> !available || !file.Written?
    ensures v == NotStarted ==> remote.world == old(remote.world) && state.saved == old(state.saved)
    ensures available && file.Written? ==>
      var p := RunFrom(old(remote.world), old(state.saved), resume, Archived(file.manifest, names, shards),
        remote.hash, answers, lives);
      v == VerdictOf(p) && remote.world == p.world && state.saved == p.saved
  {
    if !available || !file.Written? {
      return NotStarted;
    }
    state.Load(resume);
    var m := file.manifest;
    ghost var s := Archived(m, names, shards);
    ghost var start := Place(remote.world, state.now, state.saved, true, 0);
    var running, failed := RestoreObjects(m.objects, shards, answers.objects, lives.objects, remote, state);
    if running {
      running, failed := RestoreCommits(m.commits, answers.commits, lives.commits, remote, state, failed);
    }
    if running {
      running, failed := RestoreRefs(names, m.refs, answers.refs, lives.refs, remote, state, failed);
    }
    v := if running then Ended(failed) else Interrupted;
    ghost var objects := ObjectSteps(start, m.objects, shards, remote.hash, answers.objects, lives.objects);
    ShortRun(objects, s, answers, lives);
  }

  // ---------- what a run does to the registry ----------

  predicate Listed(items: seq<Item>, h: string) { exists item <- items :: item.hash == h }

  /** A stored commit is a sent one, field by field, without a timestamp. */
  predicate SameButTime(stored: Commit, c: Commit) {
    stored.hash == c.hash && stored.body == c.body && stored.tree == c.tree && stored.timestamp == None
  }

  predicate Carries(commits: seq<Commit>, c: Commit) { exists original <- commits :: SameButTime(c, original) }

  predicate HasCommit(commits: seq<Commit>, h: string) { exists c <- commits :: c.hash == h }

  predicate HasRef(m: Manifest, w: World, name: string) {
    name in m.refs && name in w.refs && w.refs[name] == m.refs[name]
  }

  ghost predicate SentObjects(s: Archived, hash: Digest, a: Objects, b: Objects) {
    (forall h <- a :: h in b && b[h] == a[h]) &&
    (forall h <- b :: h in a || (Listed(s.manifest.objects, h) && Sendable(s.shards, hash, h) && b[h] == s.shards[h]))
  }

  ghost predicate SentCommits(m: Manifest, a: Commits, b: Commits) {
    (forall h <- a :: h in b && b[h] == a[h]) &&
    (forall h <- b :: h in a || (b[h].hash == h && Carries(m.commits, b[h])))
  }

  ghost predicate SentRefs(m: Manifest, a: Refs, b: Refs) {
    (forall name <- a :: name in b) &&
    (forall name <- b :: (name in a && b[name] == a[name]) || (name in m.refs && b[name] == m.refs[name]))
  }

  /** Nothing but verified manifest objects, manifest commits without timestamp and manifest refs is sent; what
      the registry had it keeps, refs of the manifest apart. */
  ghost predicate Sent(s: Archived, hash: Digest, a: World, b: World) {
    SentObjects(s, hash, a.objects, b.objects) && SentCommits(s.manifest, a.commits, b.commits) &&
      SentRefs(s.manifest, a.refs, b.refs)
  }

  /** Nothing that `from` claims is sent. */
  ghost predicate Untouched(from: Done, a: World, b: World) {
    (forall h <- from.objects :: h in b.objects ==> h in a.objects) &&
    (forall h <- from.commits :: h in b.commits ==> h in a.commits) &&
    (forall name <- from.refs :: name in b.refs ==> name in a.refs && b.refs[name] == a.refs[name])
  }

  /** Everything recorded as done was recorded before or has been accepted by this registry. */
  ghost predicate Backed(m: Manifest, was: Done, done: Done, w: World) {
    (forall h <- done.objects :: h in was.objects || h in w.objects) &&
    (forall h <- done.commits :: h in was.commits || h in w.commits) &&
    (forall name <- done.refs :: name in was.refs || HasRef(m, w, name))
  }

  predicate Within(x: Done, y: Done) { x.objects <= y.objects && x.commits <= y.commits && x.refs <= y.refs }

  /** A run that started with registry a, file `was` and memory `from` has come to p. */
  ghost predicate Reached(s: Archived, hash: Digest, was: Done, from: Done, a: World, p: Place) {
    Sent(s, hash, a, p.world) && Untouched(from, a, p.world) && Within(from, was) && Within(from, p.now) &&
    Backed(s.manifest, from, p.now, p.world) && Backed(s.manifest, was, p.saved, p.world)
  }

  lemma ObjectStepReached(s: Archived, hash: Digest, was: Done, from: Done, a: World, p: Place, h: string,
                          serves: bool, early: bool, late: bool)
    requires Reached(s, hash, was, from, a, p) && Listed(s.manifest.objects, h)
    ensures Reached(s, hash, was, from, a, ObjectStep(p, h, s.shards, hash, serves, early, late))
  {
  }

  lemma CommitStepReached(s: Archived, hash: Digest, was: Done, from: Done, a: World, p: Place, c: Commit,
                          serves: bool, early: bool, late: bool)
    requires Reached(s, hash, was, from, a, p) && c in s.manifest.commits
    ensures Reached(s, hash, was, from, a, CommitStep(p, c, serves, early, late))
  {
    assert SameButTime(Stripped(c), c) && Carries(s.manifest.commits, Stripped(c));
  }

  lemma RefStepReached(s: Archived, hash: Digest, was: Done, from: Done, a: World, p: Place, name: string,
                       serves: bool, early: bool, late: bool)
    requires Reached(s, hash, was, from, a, p) && name in s.manifest.refs
    ensures Reached(s, hash, was, from, a, RefStep(p, name, s.manifest.refs[name], serves, early, late))
  {
  }

  lemma {:induction false} ObjectStepsReached(s: Archived, hash: Digest, was: Done, from: Done, a: World, p: Place,
                                              items: seq<Item>,
                                              serves: string -> bool, alive: nat -> bool)
    requires Reached(s, hash, was, from, a, p) && forall item <- items :: Listed(s.manifest.objects, item.hash)
    ensures Reached(s, hash, was, from, a, ObjectSteps(p, items, s.shards, hash, serves, alive))
  {
    if items != [] {
      var n := |items| - 1;
      ObjectStepsReached(s, hash, was, from, a, p, items[..n], serves, alive);
      ObjectStepReached(s, hash, was, from, a, ObjectSteps(p, items[..n], s.shards, hash, serves, alive), items[n].hash,
                        serves(items[n].hash), alive(2 * n), alive(2 * n + 1));
    }
  }

  lemma {:induction false} CommitStepsReached(s: Archived, hash: Digest, was: Done, from: Done, a: World, p: Place,
                                              commits: seq<Commit>,
                                              serves: string -> bool, alive: nat -> bool)
    requires Reached(s, hash, was, from, a, p) && forall c <- commits :: c in s.manifest.commits
    ensures Reached(s, hash, was, from, a, CommitSteps(p, commits, serves, alive))
  {
    if commits != [] {
      var n := |commits| - 1;
      CommitStepsReached(s, hash, was, from, a, p, commits[..n], serves, alive);
      CommitStepReached(s, hash, was, from, a, CommitSteps(p, commits[..n], serves, alive), commits[n],
                        serves(commits[n].hash), alive(2 * n), alive(2 * n + 1));
    }
  }

  lemma {:induction false} RefStepsReached(s: Archived, hash: Digest, was: Done, from: Done, a: World, p: Place,
                                           names: seq<string>,
                                           serves: string -> bool, alive: nat -> bool)
    requires Reached(s, hash, was, from, a, p) && forall name <- names :: name in s.manifest.refs
    ensures Reached(s, hash, was, from, a, RefSteps(p, names, s.manifest.refs, serves, alive))
  {
    if names != [] {
      var n := |names| - 1;
      RefStepsReached(s, hash, was, from, a, p, names[..n], serves, alive);
      RefStepReached(s, hash, was, from, a, RefSteps(p, names[..n], s.manifest.refs, serves, alive), names[n],
                     serves(names[n]), alive(2 * n), alive(2 * n + 1));
    }
  }

  /** A run, killed anywhere: it sends only verified manifest items, nothing that its state claims, and its state
      file never claims more than it did before or than this registry has accepted. */
  lemma RunReached(a: World, saved: Done, resume: bool, s: Archived, hash: Digest, answers: Answers, lives: Lives)
    requires Ordered(s)
    ensures var p := RunFrom(a, saved, resume, s, hash, answers, lives);
      Sent(s, hash, a, p.world) && Untouched(Start(saved, resume), a, p.world) &&
      Backed(s.manifest, Start(saved, resume), p.now, p.world) && Backed(s.manifest, saved, p.saved, p.world)
  {
    var from := Start(saved, resume);
    var start := Place(a, from, saved, true, 0);
    var objects := ObjectSteps(start, s.manifest.objects, s.shards, hash, answers.objects, lives.objects);
    var commits := CommitSteps(objects, s.manifest.commits, answers.commits, lives.commits);
    ObjectStepsReached(s, hash, saved, from, a, start, s.manifest.objects, answers.objects, lives.objects);
    CommitStepsReached(s, hash, saved, from, a, objects, s.manifest.commits, answers.commits, lives.commits);
    RefStepsReached(s, hash, saved, from, a, commits, s.names, answers.refs, lives.refs);
  }

  // ---------- what the verdict counts ----------

  lemma {:induction false} ObjectStepsCount(p: Place, items: seq<Item>, shards: Objects, hash: Digest,
                                            serves: string -> bool, alive: nat -> bool)
    ensures var q := ObjectSteps(p, items, shards, hash, serves, alive);
      Within(p.now, q.now) && p.failed <= q.failed && (q.running ==> p.running) &&
      (q.running && q.failed == p.failed ==> forall item <- items :: item.hash in q.now.objects)
  {
    if items != [] {
      var n := |items| - 1;
      ObjectStepsCount(p, items[..n], shards, hash, serves, alive);
      assert items == items[..n] + [items[n]];
    }
  }

  lemma {:induction false} CommitStepsCount(p: Place, commits: seq<Commit>, serves: string -> bool, alive: nat -> bool)
    ensures var q := CommitSteps(p, commits, serves, alive);
      Within(p.now, q.now) && p.failed <= q.failed && (q.running ==> p.running) &&
      (q.running && q.failed == p.failed ==> forall c <- commits :: c.hash != "" && c.hash in q.now.commits)
  {
    if commits != [] {
      var n := |commits| - 1;
      CommitStepsCount(p, commits[..n], serves, alive);
      assert commits == commits[..n] + [commits[n]];
    }
  }

  lemma {:induction false} RefStepsCount(p: Place, names: seq<string>, refs: Refs, serves: string -> bool,
                                         alive: nat -> bool)
    requires forall name <- names :: name in refs
    ensures var q := RefSteps(p, names, refs, serves, alive);
      Within(p.now, q.now) && p.failed <= q.failed && (q.running ==> p.running) &&
      (q.running && q.failed == p.failed ==> forall name <- names :: name in q.now.refs)
  {
    if names != [] {
      var n := |names| - 1;
      RefStepsCount(p, names[..n], refs, serves, alive);
      assert names == names[..n] + [names[n]];
    }
  }

  /** Everything in the manifest is recorded. */
  ghost predicate Recorded(m: Manifest, done: Done) {
    (forall item <- m.objects :: item.hash in done.objects) &&
      (forall c <- m.commits :: c.hash != "" && c.hash in done.commits) &&
    forall name <- m.refs :: name in done.refs
  }

  /** A run that ends without failures has recorded everything. */
  lemma CleanRunRecordsAll(p: Place, s: Archived, hash: Digest, answers: Answers, lives: Lives)
    requires Ordered(s)
    ensures var q := Run(p, s, hash, answers, lives);
      q.running && q.failed == p.failed ==> Recorded(s.manifest, q.now)
  {
    var objects := ObjectSteps(p, s.manifest.objects, s.shards, hash, answers.objects, lives.objects);
    var commits := CommitSteps(objects, s.manifest.commits, answers.commits, lives.commits);
    ObjectStepsCount(p, s.manifest.objects, s.shards, hash, answers.objects, lives.objects);
    CommitStepsCount(objects, s.manifest.commits, answers.commits, lives.commits);
    RefStepsCount(commits, s.names, s.manifest.refs, answers.refs, lives.refs);
  }

  // ---------- when the verdict can be trusted ----------

  /** The registry has everything that the state claims about this manifest. */
  ghost predicate Truthful(m: Manifest, done: Done, w: World) {
    (forall h <- done.objects :: Listed(m.objects, h) ==> h in w.objects) &&
    (forall h <- done.commits :: HasCommit(m.commits, h) ==> h in w.commits) &&
    (forall name <- done.refs :: name in m.refs ==> HasRef(m, w, name))
  }

  ghost predicate AllAccepted(m: Manifest, w: World) {
    (forall item <- m.objects :: item.hash in w.objects) &&
    (forall c <- m.commits :: c.hash in w.commits) &&
    (forall name <- m.refs :: HasRef(m, w, name))
  }

  lemma AcceptedIfTruthful(s: Archived, hash: Digest, from: Done, now: Done, a: World, b: World)
    requires Sent(s, hash, a, b) && Backed(s.manifest, from, now, b) && Recorded(s.manifest, now) &&
      Truthful(s.manifest, from, a)
    ensures AllAccepted(s.manifest, b)
  {
    var m := s.manifest;
    forall item <- m.objects ensures item.hash in b.objects { assert Listed(m.objects, item.hash); }
    forall c <- m.commits ensures c.hash in b.commits { assert HasCommit(m.commits, c.hash); }
    forall name <- m.refs ensures HasRef(m, b, name) { assert name in now.refs; }
  }

  lemma TruthfulIfAccepted(m: Manifest, from: Done, a: World, b: World)
    requires Untouched(from, a, b) && AllAccepted(m, b)
    ensures Truthful(m, from, a)
  {
    forall h <- from.objects | Listed(m.objects, h) ensures h in a.objects { }
    forall h <- from.commits | HasCommit(m.commits, h) ensures h in a.commits { }
  }

  /** A run that reports no failures has got the whole manifest accepted if and only if, when it began, the
      registry had everything that the state file claims. A file left by a restore into another registry, or
      into one that has lost data since, makes the verdict wrong. */
  lemma NoFailuresMeansAllAcceptedIff(a: World, saved: Done, resume: bool, s: Archived, hash: Digest, answers: Answers,
                                      lives: Lives)
    requires Ordered(s) && VerdictOf(RunFrom(a, saved, resume, s, hash, answers, lives)) == Ended(0)
    ensures AllAccepted(s.manifest, RunFrom(a, saved, resume, s, hash, answers, lives).world) <==>
      Truthful(s.manifest, Start(saved, resume), a)
  {
    var from, p := Start(saved, resume), RunFrom(a, saved, resume, s, hash, answers, lives);
    RunReached(a, saved, resume, s, hash, answers, lives);
    CleanRunRecordsAll(Place(a, from, saved, true, 0), s, hash, answers, lives);
    if Truthful(s.manifest, from, a) {
      AcceptedIfTruthful(s, hash, from, p.now, a, p.world);
    }
    if AllAccepted(s.manifest, p.world) {
      TruthfulIfAccepted(s.manifest, from, a, p.world);
    }
  }

  const EMPTY := World(map[], map[], map[])

  lemma OneItem(p: Place, h: string, shards: Objects, hash: Digest, serves: string -> bool, alive: nat -> bool)
    ensures ObjectSteps(p, [Item(h, true)], shards, hash, serves, alive) ==
      ObjectStep(p, h, shards, hash, serves(h), alive(0), alive(1))
  {
    assert [Item(h, true)][..0] == [];
  }

  /** One object, restored into a first registry and then, with the state file of that run, into an empty
      second one: the second run reports no failures and sends nothing. */
  lemma StaleStateFile(h: string, data: seq<byte>, hash: Digest, answers: Answers, lives: Lives)
    requires hash(data) == h && answers.objects(h) && lives.objects(0) && lives.objects(1)
    ensures var s := Archived(Manifest([], map[], [], [Item(h, true)]), [], map[h := data]);
      var first := RunFrom(EMPTY, NOTHING, true, s, hash, answers, lives);
      var second := RunFrom(EMPTY, first.saved, true, s, hash, answers, lives);
      VerdictOf(first) == Ended(0) && AllAccepted(s.manifest, first.world) &&
      VerdictOf(second) == Ended(0) && second.world == EMPTY && !AllAccepted(s.manifest, second.world)
  {
    var m := Manifest([], map[], [], [Item(h, true)]);
    var s := Archived(m, [], map[h := data]);
    var p := Place(EMPTY, NOTHING, NOTHING, true, 0);
    OneItem(p, h, s.shards, hash, answers.objects, lives.objects);
    var first := RunFrom(EMPTY, NOTHING, true, s, hash, answers, lives);
    assert first.world.objects == map[h := data] && first.saved.objects == {h};
    OneItem(Place(EMPTY, first.saved, first.saved, true, 0), h, s.shards, hash, answers.objects, lives.objects);
    assert m.objects[0].hash !in EMPTY.objects;
  }

  // ---------- when a run succeeds ----------

  /** Everything the run does not skip can be sent and is served. */
  ghost predicate Unhindered(s: Archived, hash: Digest, from: Done, answers: Answers) {
    (forall item <- s.manifest.objects :: item.hash in from.objects ||
      (Sendable(s.shards, hash, item.hash) && answers.objects(item.hash))) &&
    (forall c <- s.manifest.commits :: c.hash != "" && (c.hash in from.commits || answers.commits(c.hash))) &&
    forall name <- s.names :: name in from.refs || answers.refs(name)
  }

  ghost predicate NeverKilled(lives: Lives) {
    forall i: nat :: lives.objects(i) && lives.commits(i) && lives.refs(i)
  }

  lemma {:induction false} ObjectStepsClean(p: Place, items: seq<Item>, shards: Objects, hash: Digest,
                                            serves: string -> bool, alive: nat -> bool)
    requires forall item <- items ::
      item.hash in p.now.objects || (Sendable(shards, hash, item.hash) && serves(item.hash))
    ensures var q := ObjectSteps(p, items, shards, hash, serves, alive);
      q.failed == p.failed && ((forall i: nat :: alive(i)) ==> q.running == p.running) &&
      ((forall item <- items :: item.hash in p.now.objects) ==> q.world == p.world)
  {
    if items != [] {
      var n := |items| - 1;
      assert items == items[..n] + [items[n]];
      ObjectStepsClean(p, items[..n], shards, hash, serves, alive);
      ObjectStepsCount(p, items[..n], shards, hash, serves, alive);
    }
  }

  lemma {:induction false} CommitStepsClean(p: Place, commits: seq<Commit>, serves: string -> bool, alive: nat -> bool)
    requires forall c <- commits :: c.hash != "" && (c.hash in p.now.commits || serves(c.hash))
    ensures var q := CommitSteps(p, commits, serves, alive);
      q.failed == p.failed && ((forall i: nat :: alive(i)) ==> q.running == p.running) &&
      ((forall c <- commits :: c.hash in p.now.commits) ==> q.world == p.world)
  {
    if commits != [] {
      var n := |commits| - 1;
      assert commits == commits[..n] + [commits[n]];
      CommitStepsClean(p, commits[..n], serves, alive);
      CommitStepsCount(p, commits[..n], serves, alive);
    }
  }

  lemma {:induction false} RefStepsClean(p: Place, names: seq<string>, refs: Refs, serves: string -> bool,
                                         alive: nat -> bool)
    requires forall name <- names :: name in refs && (name in p.now.refs || serves(name))
    ensures var q := RefSteps(p, names, refs, serves, alive);
      q.failed == p.failed && ((forall i: nat :: alive(i)) ==> q.running == p.running) &&
      ((forall name <- names :: name in p.now.refs) ==> q.world == p.world)
  {
    if names != [] {
      var n := |names| - 1;
      assert names == names[..n] + [names[n]];
      RefStepsClean(p, names[..n], refs, serves, alive);
      RefStepsCount(p, names[..n], refs, serves, alive);
    }
  }

  /** A run whose items can be sent and are served counts no failure, and ends unless it is killed; one whose
      state claims the whole manifest sends nothing at all. */
  lemma UnhinderedRunIsClean(a: World, saved: Done, resume: bool, s: Archived, hash: Digest, answers: Answers,
                             lives: Lives)
    requires Ordered(s) && Unhindered(s, hash, Start(saved, resume), answers)
    ensures var p := RunFrom(a, saved, resume, s, hash, answers, lives);
      p.failed == 0 && (NeverKilled(lives) ==> VerdictOf(p) == Ended(0)) &&
      (Recorded(s.manifest, Start(saved, resume)) ==> p.world == a)
  {
    var start := Place(a, Start(saved, resume), saved, true, 0);
    var objects := ObjectSteps(start, s.manifest.objects, s.shards, hash, answers.objects, lives.objects);
    var commits := CommitSteps(objects, s.manifest.commits, answers.commits, lives.commits);
    ObjectStepsCount(start, s.manifest.objects, s.shards, hash, answers.objects, lives.objects);
    CommitStepsCount(objects, s.manifest.commits, answers.commits, lives.commits);
    ObjectStepsClean(start, s.manifest.objects, s.shards, hash, answers.objects, lives.objects);
    CommitStepsClean(objects, s.manifest.commits, answers.commits, lives.commits);
    RefStepsClean(commits, s.names, s.manifest.refs, answers.refs, lives.refs);
  }

  // ---------- killed and resumed runs ----------

  datatype Attempt = Attempt(resume: bool, answers: Answers, lives: Lives)

  /** After several attempts against one registry, each killed or not. */
  ghost function AfterAttempts(a: World, s: Archived, hash: Digest, attempts: seq<Attempt>): Place
    requires Ordered(s)
  {
    if attempts == [] then Place(a, NOTHING, NOTHING, true, 0)
    else
      var before, last := AfterAttempts(a, s, hash, attempts[..|attempts| - 1]), attempts[|attempts| - 1];
      RunFrom(before.world, before.saved, last.resume, s, hash, last.answers, last.lives)
  }

  lemma SentComposes(s: Archived, hash: Digest, a: World, b: World, c: World)
    requires Sent(s, hash, a, b) && Sent(s, hash, b, c)
    ensures Sent(s, hash, a, c)
  {
  }

  lemma TruthfulStays(s: Archived, hash: Digest, was: Done, saved: Done, a: World, b: World)
    requires Truthful(s.manifest, was, a) && Sent(s, hash, a, b) && Backed(s.manifest, was, saved, b)
    ensures Truthful(s.manifest, saved, b)
  {
  }

  lemma {:induction false} AttemptsStayTruthful(a: World, s: Archived, hash: Digest, attempts: seq<Attempt>)
    requires Ordered(s)
    ensures var p := AfterAttempts(a, s, hash, attempts);
      Truthful(s.manifest, p.saved, p.world) && Sent(s, hash, a, p.world)
  {
    if attempts != [] {
      var n := |attempts| - 1;
      var before, last := AfterAttempts(a, s, hash, attempts[..n]), attempts[n];
      AttemptsStayTruthful(a, s, hash, attempts[..n]);
      RunReached(before.world, before.saved, last.resume, s, hash, last.answers, last.lives);
      var p := RunFrom(before.world, before.saved, last.resume, s, hash, last.answers, last.lives);
      TruthfulStays(s, hash, before.saved, p.saved, before.world, p.world);
      SentComposes(s, hash, a, before.world, p.world);
    }
  }

  /** Started without a state file, any number of killed or failing attempts followed by one without failures,
      resumed or not, get the whole manifest accepted, and send nothing else. */
  lemma ResumedRestoreIsComplete(a: World, s: Archived, hash: Digest, attempts: seq<Attempt>)
    requires Ordered(s) && attempts != [] && VerdictOf(AfterAttempts(a, s, hash, attempts)) == Ended(0)
    ensures var end := AfterAttempts(a, s, hash, attempts).world;
      AllAccepted(s.manifest, end) && Sent(s, hash, a, end)
  {
    var n := |attempts| - 1;
    var before, last := AfterAttempts(a, s, hash, attempts[..n]), attempts[n];
    AttemptsStayTruthful(a, s, hash, attempts[..n]);
    AttemptsStayTruthful(a, s, hash, attempts);
    NoFailuresMeansAllAcceptedIff(before.world, before.saved, last.resume, s, hash, last.answers, last.lives);
  }

  // ---------- the round trip ----------

  predicate DistinctCommits(commits: seq<Commit>) {
    forall i, j :: 0 <= i < j < |commits| ==> commits[i].hash != commits[j].hash
  }

  ghost predicate Reproduced(server: Server, end: World) {
    (forall h :: h in end.objects <==> Wants(server.commits, h)) &&
    (forall h <- end.objects :: h in server.objects && end.objects[h] == server.objects[h]) &&
    (forall c <- server.commits :: c.hash in end.commits && SameButTime(end.commits[c.hash], c)) &&
    (forall h <- end.commits :: HasCommit(server.commits, h)) &&
    end.refs == RefMap(server.refs)
  }

  lemma ListedIffWanted(server: Server, sorted: set<string> -> seq<string>, objects: Objects, m: Manifest, h: string)
    requires Enumerates(sorted) && IsManifest(server, sorted, objects, m)
    ensures Listed(m.objects, h) <==> Wants(server.commits, h)
  {
    var hashes: set<string> :| IsWanted(server.commits, hashes) && m.objects == Items(sorted(hashes), objects);
    if h in hashes {
      var i :| 0 <= i < |sorted(hashes)| && sorted(hashes)[i] == h;
      assert m.objects[i].hash == h;
    }
  }

  lemma CommitsRoundTrip(s: Archived, hash: Digest, end: World)
    requires DistinctCommits(s.manifest.commits) && AllAccepted(s.manifest, end) && Sent(s, hash, EMPTY, end)
    ensures forall c <- s.manifest.commits :: c.hash in end.commits && SameButTime(end.commits[c.hash], c)
    ensures forall h <- end.commits :: HasCommit(s.manifest.commits, h)
  {
    var m := s.manifest;
    forall i | 0 <= i < |m.commits| ensures SameButTime(end.commits[m.commits[i].hash], m.commits[i]) {
      var stored := end.commits[m.commits[i].hash];
      var j :| 0 <= j < |m.commits| && SameButTime(stored, m.commits[j]);
      assert m.commits[j].hash == m.commits[i].hash;
      assert i == j;
    }
    forall h <- end.commits ensures HasCommit(m.commits, h) {
      var c :| c in m.commits && SameButTime(end.commits[h], c);
    }
  }

  /** A failure-free export into a fresh directory, restored without failures into an empty registry, in one
      attempt or several, yields the collected objects byte for byte and no others, every commit minus its
      timestamp, and the refs. */
  lemma RoundTrip(server: Server, hash: Digest, sorted: set<string> -> seq<string>, archive: Contents,
                  names: seq<string>,
                  attempts: seq<Attempt>)
    requires Enumerates(sorted) && DistinctCommits(server.commits)
    requires Complete(server, hash, sorted, Contents(map[], {}, Missing), archive)
    requires Failures(archive.manifest.manifest.objects) == 0
    requires Ordered(Archived(archive.manifest.manifest, names, archive.objects)) && attempts != []
    requires VerdictOf(AfterAttempts(EMPTY, Archived(archive.manifest.manifest, names, archive.objects), hash,
      attempts)) == Ended(0)
    ensures var end := AfterAttempts(EMPTY, Archived(archive.manifest.manifest, names, archive.objects), hash,
      attempts).world;
      Reproduced(server, end)
  {
    var m := archive.manifest.manifest;
    var s := Archived(m, names, archive.objects);
    var end := AfterAttempts(EMPTY, s, hash, attempts).world;
    ResumedRestoreIsComplete(EMPTY, s, hash, attempts);
    NoFailuresMeansAllThere(server, sorted, archive.objects, m);
    forall h ensures h in end.objects <==> Wants(server.commits, h) {
      ListedIffWanted(server, sorted, archive.objects, m, h);
    }
    CommitsRoundTrip(s, hash, end);
    assert end.refs.Keys == m.refs.Keys;
  }
}
