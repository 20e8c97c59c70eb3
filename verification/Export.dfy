/** `av registry export` (python/av_cli/cmd_registry.py): which objects a backup asks for, and what killed
    and resumed runs leave in the archive. A server is stable: its lists and objects do not change. */
module Export {
  import opened Sha256Fips
  import opened ObjectStore
  import opened Options
  import opened Client
  import Cdc

  // ---------- what an export wants ----------

  /** One tree entry: the hashes of its parts, or, without parts, its own hash. */
  datatype Info = Info(hash: Option<string>, layers: seq<string>, chunks: seq<string>)

  /** `body` is the rest of the commit; the tree is its entries in order. */
  datatype Commit = Commit(hash: string, timestamp: Option<string>, body: string, tree: seq<Info>)

  predicate InfoWants(info: Info, h: string) {
    h in info.layers || h in info.chunks || (info.layers == [] && info.chunks == [] && info.hash == Some(h) && h != "")
  }

  predicate Wants(commits: seq<Commit>, h: string) {
    exists c <- commits :: exists info <- c.tree :: InfoWants(info, h)
  }

  predicate WantsBefore(commits: seq<Commit>, i: nat, j: nat, h: string)
    requires i < |commits| && j <= |commits[i].tree|
  {
    Wants(commits[..i], h) || exists info <- commits[i].tree[..j] :: InfoWants(info, h)
  }

  ghost predicate IsWanted(commits: seq<Commit>, hashes: set<string>) { forall h :: h in hashes <==> Wants(commits, h) }

  method AddAll(hashes: set<string>, parts: seq<string>) returns (more: set<string>)
    ensures forall h :: h in more <==> h in hashes || h in parts
  {
    more := hashes;
    for i := 0 to |parts|
      invariant forall h :: h in more <==> h in hashes || h in parts[..i]
    {
      assert parts[..i + 1] == parts[..i] + [parts[i]];
      more := more + {parts[i]};
    }
    assert parts[..|parts|] == parts;
  }

  method AddInfo(hashes: set<string>, info: Info) returns (more: set<string>)
    ensures forall h :: h in more <==> h in hashes || InfoWants(info, h)
  {
    more := hashes;
    if info.layers != [] || info.chunks != [] {
      more := AddAll(more, info.layers);
      more := AddAll(more, info.chunks);
    } else if info.hash != None && info.hash.value != "" {
      more := more + {info.hash.value};
    }
  }

  /** _collect_exportable_object_hashes: a split entry counts by its parts and never by its whole-file hash. */
  method CollectHashes(commits: seq<Commit>) returns (hashes: set<string>)
    ensures IsWanted(commits, hashes)
  {
    hashes := {};
    for i := 0 to |commits|
      invariant forall h :: h in hashes <==> Wants(commits[..i], h)
    {
      var tree := commits[i].tree;
      for j := 0 to |tree|
        invariant forall h :: h in hashes <==> WantsBefore(commits, i, j, h)
      {
        ghost var before := hashes;
        hashes := AddInfo(hashes, tree[j]);
        assert tree[..j + 1] == tree[..j] + [tree[j]];
        assert forall h :: WantsBefore(commits, i, j + 1, h) <==>
          WantsBefore(commits, i, j, h) || InfoWants(tree[j], h);
      }
      assert tree[..|tree|] == tree && commits[..i + 1] == commits[..i] + [commits[i]];
      assert forall h :: Wants(commits[..i + 1], h) <==> WantsBefore(commits, i, |tree|, h);
    }
    assert commits[..|commits|] == commits;
  }

  // ---------- the server ----------

  /** `runs` are newest first; None when that endpoint fails, which an export tolerates. */
  datatype Server = Server(commits: seq<Commit>, refs: seq<Ref>, runs: Option<seq<string>>, objects: Objects)

  const COMMIT_LIMIT := 200

  function CommitPage(commits: seq<Commit>, offset: nat): seq<Commit> {
    if |commits| <= offset then []
    else if |commits| - offset <= COMMIT_LIMIT then commits[offset..] else commits[offset..offset + COMMIT_LIMIT]
  }

  const RUN_LIMIT := 1000

  /** The reply to the one request for runs. */
  function RunPage(runs: seq<string>): seq<string> { if |runs| <= RUN_LIMIT then runs else runs[..RUN_LIMIT] }

  /** The loop over /api/commits. */
  method FetchCommits(server: Server) returns (commits: seq<Commit>)
    ensures commits == server.commits
  {
    var offset := 0;
    commits := [];
    while true
      invariant offset <= |server.commits| && commits == server.commits[..offset]
      decreases |server.commits| - offset
    {
      var rows := CommitPage(server.commits, offset);
      commits := commits + rows;
      if |rows| < COMMIT_LIMIT {
        return;
      }
      offset := offset + COMMIT_LIMIT;
    }
  }

  /** The object can be fetched and verified. */
  predicate Sound(server: Server, hash: Digest, h: string) { h in server.objects && hash(server.objects[h]) == h }

  /** A complete reply carries the server's object; anything else is a failure of this one request. */
  ghost predicate Faithful(server: Server, replies: string -> Reply) {
    forall h :: replies(h).Body? && !replies(h).broken ==>
      h in server.objects && Cdc.Concat(replies(h).chunks) == server.objects[h]
  }

  /** No request fails: every object the server has arrives whole. */
  ghost predicate Reliable(server: Server, replies: string -> Reply) {
    Faithful(server, replies) &&
    forall h :: if h in server.objects then replies(h).Body? && !replies(h).broken else replies(h) == NotFound
  }

  ghost predicate Denies(replies: string -> Reply) { exists h :: replies(h) == Unauthorized }

  ghost predicate Kills(alive: nat -> bool) { exists i: nat :: !alive(i) }

  // ---------- the archive ----------

  datatype Item = Item(hash: string, ok: bool)

  datatype Manifest = Manifest(commits: seq<Commit>, refs: Refs, runs: seq<string>, objects: seq<Item>)

  /** manifest.json is written in place, so a kill may leave a torn file. */
  datatype ManifestFile = Missing | Torn | Written(manifest: Manifest)

  datatype Contents = Contents(objects: Objects, done: set<string>, manifest: ManifestFile)

  /** The output directory: its objects, the completed_objects of its state file, and its manifest. */
  class Archive {
    const directory: Directory
    var done: set<string>
    var manifest: ManifestFile

    constructor (directory: Directory)
      ensures this.directory == directory && done == {} && manifest == Missing
    {
      this.directory := directory;
      done, manifest := {}, Missing;
    }

    ghost function Now(): Contents
      reads this, directory
    {
      Contents(directory.objects, done, manifest)
    }
  }

  /** `sorted`: some enumeration of a set without repetition. */
  ghost predicate Enumerates(sorted: set<string> -> seq<string>) {
    forall s :: (forall h :: h in sorted(s) <==> h in s) && forall i, j :: 0 <= i < j < |sorted(s)| ==>
      sorted(s)[i] != sorted(s)[j]
  }

  ghost predicate Kept(a: Contents, b: Contents) {
    forall h <- a.objects :: h in b.objects && b.objects[h] == a.objects[h]
  }

  /** What any run, also one killed halfway, does to an archive: it keeps every object and adds only wanted
      ones, with the server's bytes, verified; its state file names only objects that are there. */
  ghost predicate Progress(server: Server, hash: Digest, a: Contents, b: Contents) {
    Kept(a, b) &&
    (forall h <- b.objects ::
      h in a.objects || (Wants(server.commits, h) && Sound(server, hash, h) && b.objects[h] == server.objects[h])) &&
    (forall h <- b.done :: h in a.done || (Wants(server.commits, h) && h in b.objects))
  }

  function Items(order: seq<string>, objects: Objects): seq<Item> {
    seq(|order|, i requires 0 <= i < |order| => Item(order[i], order[i] in objects))
  }

  function Failures(items: seq<Item>): nat {
    if items == [] then 0 else Failures(items[..|items| - 1]) + if items[|items| - 1].ok then 0 else 1
  }

  lemma {:induction false} NoFailuresIff(items: seq<Item>)
    ensures Failures(items) == 0 <==> forall item <- items :: item.ok
  {
    if items != [] {
      NoFailuresIff(items[..|items| - 1]);
      assert items == items[..|items| - 1] + [items[|items| - 1]];
    }
  }

  ghost predicate IsManifest(server: Server, sorted: set<string> -> seq<string>, objects: Objects, m: Manifest) {
    m.commits == server.commits && m.refs == RefMap(server.refs) &&
    m.runs == (if server.runs == None then [] else RunPage(server.runs.value)) &&
    exists hashes: set<string> :: IsWanted(server.commits, hashes) && m.objects == Items(sorted(hashes), objects)
  }

  /** What a resumed run that met no failure leaves. */
  ghost predicate Complete(server: Server, hash: Digest, sorted: set<string> -> seq<string>, a: Contents, b: Contents) {
    Progress(server, hash, a, b) &&
    (forall h :: Wants(server.commits, h) && Sound(server, hash, h) ==> h in b.objects) &&
    (forall h :: h in b.done <==> h in a.done || (Wants(server.commits, h) && h in b.objects)) &&
    b.manifest.Written? && IsManifest(server, sorted, b.objects, b.manifest.manifest)
  }

  datatype Outcome = Killed | Raised | Finished(failed: nat)

  // ---------- one run ----------

  /** One object: already there, or downloaded, or failed. */
  method ExportOne(server: Server, h: string, reply: Reply, directory: Directory) returns (present: bool, raised: bool)
    requires reply.Body? && !reply.broken ==> h in server.objects && Cdc.Concat(reply.chunks) == server.objects[h]
    modifies directory
    ensures present <==> h in directory.objects
    ensures h in old(directory.objects) || !present ==> directory.objects == old(directory.objects)
    ensures h !in old(directory.objects) && present ==>
      Sound(server, directory.hash, h) && directory.objects == old(directory.objects)[h := server.objects[h]]
    ensures raised <==> h !in old(directory.objects) && reply == Unauthorized
    ensures reply.Body? && !reply.broken && Sound(server, directory.hash, h) ==> present
  {
    present, raised := true, false;
    if h !in directory.objects {
      var got := DownloadObject(directory, h, reply, _ => true);
      present, raised := got == Downloaded, got == AuthenticationError;
    }
  }

  /** The items of the first i objects tell what is in the archive, and nothing fetchable is missing. */
  ghost predicate Seen(server: Server, hash: Digest, reliable: bool, order: seq<string>, i: nat, objects: Objects,
                       items: seq<Item>, failed: nat)
    requires i <= |order|
  {
    items == Items(order[..i], objects) && failed == Failures(items) &&
    (reliable ==> forall j :: 0 <= j < i && Sound(server, hash, order[j]) ==> order[j] in objects)
  }

  lemma SeenNext(server: Server, hash: Digest, reliable: bool, order: seq<string>, i: nat, objects: Objects,
                 items: seq<Item>,
                 failed: nat, after: Objects)
    requires i < |order| && Seen(server, hash, reliable, order, i, objects, items, failed)
    requires forall j :: 0 <= j < i ==> order[j] != order[i]
    requires after == objects || (order[i] in after && after == objects[order[i] := after[order[i]]])
    requires reliable && Sound(server, hash, order[i]) ==> order[i] in after
    ensures Seen(server, hash, reliable, order, i + 1, after, items + [Item(order[i], order[i] in after)],
                 if order[i] in after then failed else failed + 1)
  {
    var more := items + [Item(order[i], order[i] in after)];
    assert more[..|more| - 1] == items;
    assert more == Items(order[..i + 1], after);
  }

  /** The archive has every run of the registry if and only if there are at most a thousand; of more it has the
      newest thousand. A failing endpoint leaves none. */
  lemma RunsAllThereIff(server: Server, sorted: set<string> -> seq<string>, objects: Objects, m: Manifest)
    requires IsManifest(server, sorted, objects, m)
    ensures server.runs.Some? ==> m.runs <= server.runs.value
    ensures server.runs.Some? ==> (m.runs == server.runs.value <==> |server.runs.value| <= 1000)
    ensures server.runs.Some? && |server.runs.value| > 1000 ==> m.runs == server.runs.value[..1000]
    ensures server.runs.None? ==> m.runs == []
  {
  }

  /** No failures, if and only if every wanted object is in the archive. */
  lemma NoFailuresMeansAllThere(server: Server, sorted: set<string> -> seq<string>, objects: Objects, m: Manifest)
    requires Enumerates(sorted) && IsManifest(server, sorted, objects, m)
    ensures Failures(m.objects) == 0 <==> forall h :: Wants(server.commits, h) ==> h in objects
  {
    var hashes: set<string> :| IsWanted(server.commits, hashes) && m.objects == Items(sorted(hashes), objects);
    NoFailuresIff(m.objects);
    if Failures(m.objects) == 0 {
      forall h | Wants(server.commits, h) ensures h in objects {
        var i :| 0 <= i < |sorted(hashes)| && sorted(hashes)[i] == h;
        assert m.objects[i] in m.objects;
      }
    }
  }

  ghost predicate Recorded(order: seq<string>, i: nat, was: Contents, now: Contents, done: set<string>, resume: bool)
    requires i <= |order|
  {
    (forall h <- done :: (resume && h in was.done) || (h in order && h in now.objects)) &&
    (resume ==> was.done <= done == now.done) &&
    forall j :: 0 <= j < i && order[j] in now.objects ==> order[j] in done
  }

  lemma ProgressFetched(server: Server, hash: Digest, was: Contents, now: Contents, h: string, after: Objects)
    requires Progress(server, hash, was, now) && Wants(server.commits, h)
    requires after == now.objects ||
      (h !in now.objects && Sound(server, hash, h) && after == now.objects[h := server.objects[h]])
    ensures Progress(server, hash, was, now.(objects := after))
  {
  }

  lemma ProgressSaved(server: Server, hash: Digest, order: seq<string>, i: nat, was: Contents, now: Contents,
                      done: set<string>, resume: bool)
    requires Progress(server, hash, was, now) && i < |order| && Recorded(order, i, was, now, done, resume)
    requires order[i] in now.objects && forall h :: h in order <==> Wants(server.commits, h)
    ensures var saved := now.(done := done + {order[i]});
      Progress(server, hash, was, saved) && Recorded(order, i + 1, was, saved, done + {order[i]}, resume)
  {
  }

  lemma RecordedMore(order: seq<string>, i: nat, was: Contents, now: Contents, done: set<string>, resume: bool,
                     after: Objects)
    requires i < |order| && Recorded(order, i, was, now, done, resume) && forall j :: 0 <= j < i ==>
      order[j] != order[i]
    requires after == now.objects || (order[i] in after && after == now.objects[order[i] := after[order[i]]])
    ensures Recorded(order, i, was, now.(objects := after), done, resume)
    ensures order[i] !in after ==> Recorded(order, i + 1, was, now.(objects := after), done, resume)
  {
  }

  datatype Life = Alive | Dead | Threw

  /** One round of the object loop: fetch, then save the state. A run may be killed before and between. */
  method ExportRound(server: Server, ghost order: seq<string>, ghost i: nat, h: string, reply: Reply, early: bool,
                     late: bool,
                     archive: Archive, done: set<string>, items: seq<Item>, failed: nat,
                     ghost was: Contents, ghost resume: bool, ghost reliable: bool)
    returns (life: Life, recorded: set<string>, listed: seq<Item>, failures: nat)
    requires i < |order| && h == order[i] && (forall x :: x in order <==> Wants(server.commits, x))
    requires forall j :: 0 <= j < i ==> order[j] != h
    requires reply.Body? && !reply.broken ==> h in server.objects && Cdc.Concat(reply.chunks) == server.objects[h]
    requires Progress(server, archive.directory.hash, was, archive.Now())
    requires Recorded(order, i, was, archive.Now(), done, resume)
    requires Seen(server, archive.directory.hash, reliable, order, i, archive.directory.objects, items, failed)
    requires reliable && h in server.objects ==> reply.Body? && !reply.broken
    modifies archive`done, archive.directory
    ensures Progress(server, archive.directory.hash, was, archive.Now())
    ensures life == Alive ==> Recorded(order, i + 1, was, archive.Now(), recorded, resume)
    ensures life == Alive ==>
      Seen(server, archive.directory.hash, reliable, order, i + 1, archive.directory.objects, listed, failures)
    ensures life == Dead ==> !early || !late
    ensures life == Threw ==> reply == Unauthorized
  {
    recorded, listed, failures := done, items, failed;
    if !early {
      return Dead, done, items, failed;
    }
    ghost var now := archive.Now();
    var present, raised := ExportOne(server, h, reply, archive.directory);
    ProgressFetched(server, archive.directory.hash, was, now, h, archive.directory.objects);
    RecordedMore(order, i, was, now, done, resume, archive.directory.objects);
    SeenNext(server, archive.directory.hash, reliable, order, i, now.objects, items, failed, archive.directory.objects);
    listed, failures := items + [Item(h, present)], if present then failed else failed + 1;
    life := if raised then Threw else if present && !late then Dead else Alive;
    if life == Alive && present {
      ProgressSaved(server, archive.directory.hash, order, i, was, archive.Now(), done, resume);
      recorded := done + {h};
      archive.done := recorded;
    }
  }

  /** The object loop of the export. `alive(2i)` says whether the run is still alive when it comes to object i,
      `alive(2i + 1)` when it has the object but has not saved its state. */
  method ExportObjects(server: Server, order: seq<string>, replies: string -> Reply, resume: bool, alive: nat -> bool,
                       archive: Archive) returns (outcome: Outcome, items: seq<Item>)
    requires Faithful(server, replies)
    requires forall h :: h in order <==> Wants(server.commits, h)
    requires forall i, j :: 0 <= i < j < |order| ==> order[i] != order[j]
    modifies archive`done, archive.directory
    ensures Progress(server, archive.directory.hash, old(archive.Now()), archive.Now())
    ensures outcome.Finished? ==>
      Seen(server, archive.directory.hash, Reliable(server, replies), order, |order|, archive.directory.objects, items,
        outcome.failed)
    ensures outcome.Finished? && resume ==>
      Recorded(order, |order|, old(archive.Now()), archive.Now(), archive.done, resume)
    ensures outcome.Killed? ==> Kills(alive)
    ensures outcome.Raised? ==> Denies(replies)
  {
    var failed := 0;
    var done := if resume then archive.done else {};
    items := [];
    ghost var was := archive.Now();
    for i := 0 to |order|
      invariant archive.manifest == was.manifest
      invariant Progress(server, archive.directory.hash, was, archive.Now())
      invariant Recorded(order, i, was, archive.Now(), done, resume)
      invariant Seen(server, archive.directory.hash, Reliable(server, replies), order, i, archive.directory.objects,
        items, failed)
    {
      var h := order[i];
      var life;
      life, done, items, failed := ExportRound(server, order, i, h, replies(h), alive(2 * i), alive(2 * i + 1), archive,
                                               done, items, failed, was, resume, Reliable(server, replies));
      if life != Alive {
        outcome := if life == Dead then Killed else Raised;
        return;
      }
    }
    assert order[..|order|] == order;
    outcome := Finished(failed);
  }

  /** What the finished loop and the manifest amount to. */
  lemma LoopComplete(server: Server, hash: Digest, sorted: set<string> -> seq<string>, hashes: set<string>,
                     reliable: bool, resume: bool, was: Contents, now: Contents, m: Manifest, failed: nat)
    requires Enumerates(sorted) && IsWanted(server.commits, hashes) && Progress(server, hash, was, now)
    requires Seen(server, hash, reliable, sorted(hashes), |sorted(hashes)|, now.objects, m.objects, failed)
    requires resume ==> Recorded(sorted(hashes), |sorted(hashes)|, was, now, now.done, resume)
    requires m.commits == server.commits && m.refs == RefMap(server.refs) &&
      m.runs == if server.runs == None then [] else RunPage(server.runs.value)
    ensures IsManifest(server, sorted, now.objects, m) && failed == Failures(m.objects)
    ensures resume && reliable ==> Complete(server, hash, sorted, was, now.(manifest := Written(m)))
  {
    var order := sorted(hashes);
    assert order[..|order|] == order;
    assert m.objects == Items(sorted(hashes), now.objects);
  }

  /** manifest.json, written in place: a kill may come before or during the writing. */
  method WriteManifest(archive: Archive, m: Manifest, before: bool, during: bool) returns (written: bool)
    modifies archive`manifest
    ensures written <==> before && during
    ensures archive.manifest == if !before then old(archive.manifest) else if !during then Torn else Written(m)
  {
    written := before && during;
    if before {
      archive.manifest := Torn;
      if during {
        archive.manifest := Written(m);
      }
    }
  }

  /** Commits, refs and the one page of runs. */
  method FetchLists(server: Server) returns (commits: seq<Commit>, refs: Refs, runs: seq<string>)
    ensures commits == server.commits && refs == RefMap(server.refs)
    ensures runs == if server.runs == None then [] else RunPage(server.runs.value)
  {
    commits := FetchCommits(server);
    PagingWalkIsComplete(server.refs);
    var walk := WalkRefs(PagingServer(server.refs), |server.refs| / PAGE_SIZE + 1);
    refs := walk.merged;
    runs := if server.runs == None then [] else RunPage(server.runs.value);
  }

  /** The export command. `available` is the health check and `listed` says whether the listings succeed; the
      last two points of `alive` are before and during the writing of the manifest. */
  method Export(server: Server, available: bool, listed: bool, replies: string -> Reply, resume: bool,
                alive: nat -> bool,
                sorted: set<string> -> seq<string>, archive: Archive) returns (outcome: Outcome)
    requires Faithful(server, replies) && Enumerates(sorted)
    modifies archive, archive.directory
    ensures Progress(server, archive.directory.hash, old(archive.Now()), archive.Now())
    ensures outcome.Finished? && resume && Reliable(server, replies) ==>
      Complete(server, archive.directory.hash, sorted, old(archive.Now()), archive.Now())
    ensures outcome.Finished? ==>
      archive.manifest.Written? && IsManifest(server, sorted, archive.directory.objects, archive.manifest.manifest)
    ensures outcome.Finished? ==> outcome.failed == Failures(archive.manifest.manifest.objects)
    ensures outcome.Killed? ==> Kills(alive)
    ensures outcome.Raised? ==> !available || !listed || Denies(replies)
    ensures !available || !listed ==> outcome.Raised? && archive.Now() == old(archive.Now())
  {
    if !available || !listed {
      return Raised;
    }
    var commits, refs, runs := FetchLists(server);
    var hashes := CollectHashes(commits);
    var order := sorted(hashes);
    var items;
    outcome, items := ExportObjects(server, order, replies, resume, alive, archive);
    if !outcome.Finished? {
      return;
    }
    var m := Manifest(commits, refs, runs, items);
    LoopComplete(server, archive.directory.hash, sorted, hashes, Reliable(server, replies), resume, old(archive.Now()),
      archive.Now(), m, outcome.failed);
    var written := WriteManifest(archive, m, alive(2 * |order|), alive(2 * |order| + 1));
    if !written {
      outcome := Killed;
    }
  }

  // ---------- any number of killed runs ----------

  ghost predicate Chain(server: Server, hash: Digest, runs: seq<Contents>) {
    runs != [] && forall i :: 0 <= i < |runs| - 1 ==> Progress(server, hash, runs[i], runs[i + 1])
  }

  lemma ProgressComposes(server: Server, hash: Digest, a: Contents, b: Contents, c: Contents)
    requires Progress(server, hash, a, b) && Progress(server, hash, b, c)
    ensures Progress(server, hash, a, c)
  {
  }

  lemma {:induction false} ChainProgress(server: Server, hash: Digest, runs: seq<Contents>)
    requires Chain(server, hash, runs)
    ensures Progress(server, hash, runs[0], runs[|runs| - 1])
  {
    if |runs| > 1 {
      var n := |runs| - 1;
      ChainProgress(server, hash, runs[..n]);
      ProgressComposes(server, hash, runs[0], runs[n - 1], runs[n]);
    }
  }

  lemma SameObjects(server: Server, hash: Digest, start: Contents, a: Contents, b: Contents)
    requires Progress(server, hash, start, a) && Progress(server, hash, start, b)
    requires forall h :: Wants(server.commits, h) && Sound(server, hash, h) ==> h in a.objects && h in b.objects
    ensures a.objects == b.objects
  {
    forall h ensures h in a.objects <==> h in b.objects { }
    forall h | h in a.objects ensures a.objects[h] == b.objects[h] { }
  }

  /** In a directory whose state file is true to it (a fresh one, say), any number of killed or failing runs,
      resumed or not, followed by a complete one leave exactly the archive that one
      uninterrupted run leaves: the same objects, state file and manifest. */
  lemma ResumedIsUninterrupted(server: Server, hash: Digest, sorted: set<string> -> seq<string>, runs: seq<Contents>,
                               resumed: Contents, uninterrupted: Contents)
    requires Chain(server, hash, runs) && Complete(server, hash, sorted, runs[|runs| - 1], resumed)
    requires Complete(server, hash, sorted, runs[0], uninterrupted)
    requires forall h <- runs[0].done :: Wants(server.commits, h) && h in runs[0].objects
    ensures resumed == uninterrupted
  {
    var start, last := runs[0], runs[|runs| - 1];
    ChainProgress(server, hash, runs);
    ProgressComposes(server, hash, start, last, resumed);
    SameObjects(server, hash, start, resumed, uninterrupted);
    assert resumed.objects == uninterrupted.objects;
    assert resumed.done == uninterrupted.done;
    var a: set<string> :| IsWanted(server.commits, a) &&
      resumed.manifest.manifest.objects == Items(sorted(a), resumed.objects);
    var b: set<string> :| IsWanted(server.commits, b) &&
      uninterrupted.manifest.manifest.objects == Items(sorted(b), resumed.objects);
    assert a == b;
  }

  /** Runs never verify what they find: the archive is intact afterwards exactly if it was before. */
  lemma IntactIffItWas(server: Server, hash: Digest, a: Contents, b: Contents)
    requires Progress(server, hash, a, b)
    ensures Intact(b.objects, hash) <==> Intact(a.objects, hash)
  {
    if Intact(b.objects, hash) {
      forall h <- a.objects ensures hash(a.objects[h]) == h { assert h in b.objects; }
    }
  }
}
