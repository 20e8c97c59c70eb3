/** The repair of orphaned and stale pointers in `av doctor` (python/av_cli/cmd_maintenance.py): `--fix`, and
    the `--fix --dry-run` that claims to predict it. The server is stable. */
module Doctor {
  import opened Sha256Fips
  import opened ObjectStore
  import opened Options
  import opened Client
  import Cdc

  // ---------- the repository and the server ----------

  /** An index entry; an artifact has a pointer file, and its content is its layers, its chunks or one object. */
  datatype Entry = Entry(hash: string, size: nat, pointer: Option<string>, layers: seq<string>, chunks: seq<string>)

  /** The index in its own order, and the object store. */
  datatype Repo = Repo(paths: seq<string>, entries: map<string, Entry>, objects: Objects)

  ghost predicate Valid(r: Repo) {
    (forall i, j :: 0 <= i < j < |r.paths| ==> r.paths[i] != r.paths[j]) &&
      (forall path :: path in r.paths <==> path in r.entries)
  }

  datatype Target = Target(hash: string, size: nat)

  /** A pointer file on disk: the path it stands for, and its hash and size if it parses. */
  datatype Pointer = Pointer(path: string, original: string, parsed: Option<Target>)

  datatype Server = Server(reachable: bool, objects: Objects)

  predicate Has(server: Server, h: string) { server.reachable && h in server.objects }

  /** What the server replies to a download. */
  function Serve(server: Server, h: string): Reply {
    if !server.reachable then Unreachable else if h in server.objects then Body([server.objects[h]], false)
      else NotFound
  }

  // ---------- what is missing ----------

  predicate Split(e: Entry) { e.layers != [] || e.chunks != [] }

  function Parts(e: Entry): seq<string> {
    if e.layers != [] then e.layers else if e.chunks != [] then e.chunks else [e.hash]
  }

  function Missing(parts: seq<string>, objects: Objects): (missing: seq<string>)
    ensures forall h :: h in missing <==> h in parts && h !in objects
    ensures missing == [] <==> forall h <- parts :: h in objects
  {
    if parts == [] then []
    else
      var n := |parts| - 1;
      Missing(parts[..n], objects) + if parts[n] !in objects then [parts[n]] else []
  }

  function Select<T(!new)>(items: seq<T>, keep: T -> bool): (r: seq<T>)
    ensures forall x :: x in r <==> x in items && keep(x)
  {
    if items == [] then []
    else
      var n := |items| - 1;
      Select(items[..n], keep) + if keep(items[n]) then [items[n]] else []
  }

  lemma SelectNext<T(!new)>(items: seq<T>, i: nat, keep: T -> bool)
    requires i < |items|
    ensures Select(items[..i + 1], keep) == Select(items[..i], keep) + if keep(items[i]) then [items[i]] else []
  {
    assert items[..i + 1][..i] == items[..i];
  }

  predicate Orphan(e: Entry, objects: Objects) { e.pointer != None && Missing(Parts(e), objects) != [] }

  predicate IsOrphan(r: Repo, path: string) { path in r.entries && Orphan(r.entries[path], r.objects) }

  function Orphans(r: Repo): seq<string> { Select(r.paths, path => IsOrphan(r, path)) }

  function Stale(r: Repo, pointers: seq<Pointer>): seq<Pointer> {
    Select(pointers, (p: Pointer) => p.original !in r.entries)
  }

  /** An orphan, part by part: a split artifact is judged by its layers, or, without layers, by its chunks, and never
      by its whole-file hash. */
  lemma OrphanMeans(e: Entry, objects: Objects)
    ensures e.layers != [] ==> (Orphan(e, objects) <==> e.pointer != None && exists h <- e.layers :: h !in objects)
    ensures e.layers == [] && e.chunks != [] ==>
      (Orphan(e, objects) <==> e.pointer != None && exists h <- e.chunks :: h !in objects)
    ensures e.layers == [] && e.chunks == [] ==> (Orphan(e, objects) <==> e.pointer != None && e.hash !in objects)
  {
  }

  // ---------- what can be recovered, judged before any repair ----------

  predicate Recoverable(e: Entry, objects: Objects, server: Server) {
    server.reachable && forall h <- Parts(e) :: h in objects || Has(server, h)
  }

  predicate CanRecover(r: Repo, path: string, server: Server) {
    path in r.entries && Recoverable(r.entries[path], r.objects, server)
  }

  predicate Relinkable(p: Pointer, objects: Objects, server: Server) {
    p.parsed != None && (p.parsed.value.hash in objects || Has(server, p.parsed.value.hash))
  }

  // ---------- what a repair does to the store ----------

  /** Downloads in order up to the first failure. */
  function FetchAll(objects: Objects, parts: seq<string>, server: Server): Objects
    decreases |parts|
  {
    if parts == [] || !Has(server, parts[0]) then objects
    else FetchAll(objects[parts[0] := server.objects[parts[0]]], parts[1..], server)
  }

  /** A whole object is requested again even if another repair has brought it meanwhile. */
  function Todo(e: Entry, objects: Objects): seq<string> { if Split(e) then Missing(Parts(e), objects) else [e.hash] }

  function Repaired(objects: Objects, e: Entry, server: Server): Objects { FetchAll(objects, Todo(e, objects), server) }

  function AllRepaired(objects: Objects, entries: map<string, Entry>, paths: seq<string>, server: Server): Objects {
    if paths == [] then objects
    else
      var n := |paths| - 1;
      var before := AllRepaired(objects, entries, paths[..n], server);
      if paths[n] in entries then Repaired(before, entries[paths[n]], server) else before
  }

  /** Relinking downloads the object if it is not there, and adds an index entry without parts. */
  function Relinked(r: Repo, p: Pointer, server: Server): Repo {
    if p.parsed == None then r
    else
      var h := p.parsed.value.hash;
      var objects := if h !in r.objects && Has(server, h) then r.objects[h := server.objects[h]] else r.objects;
      if h !in objects then r
      else
        Repo(if p.original in r.entries then r.paths else r.paths + [p.original],
             r.entries[p.original := Entry(h, p.parsed.value.size, Some(p.path), [], [])], objects)
  }

  function AllRelinked(r: Repo, pointers: seq<Pointer>, server: Server): Repo {
    if pointers == [] then r else Relinked(AllRelinked(r, pointers[..|pointers| - 1], server),
      pointers[|pointers| - 1], server)
  }

  function AfterOrphans(r: Repo, server: Server): Repo {
    r.(objects := AllRepaired(r.objects, r.entries, Orphans(r), server))
  }

  /** The repository after `--fix`. */
  function AfterFix(r: Repo, pointers: seq<Pointer>, server: Server): Repo {
    AllRelinked(AfterOrphans(r, server), Stale(r, pointers), server)
  }

  // ---------- repairs do not disturb each other's outcome ----------

  /** `now` is `was` plus objects of the server. */
  ghost predicate Grown(was: Objects, server: Server, now: Objects) {
    (forall h <- was :: h in now && now[h] == was[h]) &&
    (forall h <- now :: h in was || (Has(server, h) && now[h] == server.objects[h]))
  }

  predicate AllOn(server: Server, parts: seq<string>) { forall h <- parts :: Has(server, h) }

  lemma GrownTrans(was: Objects, server: Server, a: Objects, b: Objects)
    requires Grown(was, server, a) && Grown(a, server, b)
    ensures Grown(was, server, b)
  {
  }

  lemma {:induction false} FetchAllGrows(was: Objects, objects: Objects, parts: seq<string>, server: Server)
    requires Grown(was, server, objects) && forall h <- parts :: h !in was
    ensures var now := FetchAll(objects, parts, server);
      Grown(objects, server, now) && (AllOn(server, parts) ==> forall h <- parts :: h in now)
    decreases |parts|
  {
    if parts != [] && Has(server, parts[0]) {
      var next := objects[parts[0] := server.objects[parts[0]]];
      FetchAllGrows(was, next, parts[1..], server);
      assert parts == [parts[0]] + parts[1..];
      assert parts[0] in next;
    }
  }

  lemma {:induction false} FetchAllAppend(objects: Objects, parts: seq<string>, h: string, server: Server)
    ensures FetchAll(objects, parts + [h], server) ==
      if AllOn(server, parts) then FetchAll(FetchAll(objects, parts, server), [h], server)
        else FetchAll(objects, parts, server)
    decreases |parts|
  {
    if parts == [] {
      assert parts + [h] == [h];
    } else {
      assert parts == [parts[0]] + parts[1..];
      assert (parts + [h])[1..] == parts[1..] + [h];
      if Has(server, parts[0]) {
        FetchAllAppend(objects[parts[0] := server.objects[parts[0]]], parts[1..], h, server);
      }
    }
  }

  /** Everything before part k is there, and part k is nowhere. */
  predicate StuckAt(parts: seq<string>, k: nat, objects: Objects, server: Server) {
    k < |parts| && parts[k] !in objects && !Has(server, parts[k]) && forall j :: 0 <= j < k ==> parts[j] in objects
  }

  ghost predicate Stuck(e: Entry, objects: Objects, server: Server) { exists k ::
      StuckAt(Parts(e), k, objects, server) }

  lemma StuckShorter(parts: seq<string>, k: nat, objects: Objects, server: Server)
    requires StuckAt(parts, k, objects, server) && k < |parts| - 1
    ensures StuckAt(parts[..|parts| - 1], k, objects, server)
  {
  }

  lemma {:induction false} MissingHead(parts: seq<string>, k: nat, objects: Objects, server: Server)
    requires StuckAt(parts, k, objects, server)
    ensures Missing(parts, objects) != [] && Missing(parts, objects)[0] == parts[k]
    decreases |parts|
  {
    var init := parts[..|parts| - 1];
    if k < |parts| - 1 {
      StuckShorter(parts, k, objects, server);
      MissingHead(init, k, objects, server);
    } else {
      assert forall h <- init :: h in objects;
      assert Missing(init, objects) == [];
    }
  }

  /** A stuck entry downloads nothing. */
  lemma StuckRepairsNothing(e: Entry, objects: Objects, server: Server)
    requires Stuck(e, objects, server)
    ensures Repaired(objects, e, server) == objects
  {
    var k :| StuckAt(Parts(e), k, objects, server);
    MissingHead(Parts(e), k, objects, server);
  }

  lemma StuckStays(e: Entry, objects: Objects, server: Server, now: Objects)
    requires Stuck(e, objects, server) && Grown(objects, server, now)
    ensures Stuck(e, now, server)
  {
    var k :| StuckAt(Parts(e), k, objects, server);
    assert StuckAt(Parts(e), k, now, server);
  }

  /** Downloading what is missing ends with everything there, or stuck. */
  lemma {:induction false} FetchMissing(parts: seq<string>, objects: Objects, server: Server)
    ensures var now := FetchAll(objects, Missing(parts, objects), server);
      Grown(objects, server, now) && (AllOn(server, Missing(parts, objects)) ==> forall h <- parts :: h in now)
  {
    FetchAllGrows(objects, objects, Missing(parts, objects), server);
  }

  /** The last part is the first that cannot be had. */
  lemma LastStuck(parts: seq<string>, objects: Objects, server: Server)
    requires parts != [] && AllOn(server, Missing(parts[..|parts| - 1], objects)) &&
      !AllOn(server, Missing(parts, objects))
    ensures StuckAt(parts, |parts| - 1, FetchAll(objects, Missing(parts, objects), server), server)
  {
    var n := |parts| - 1;
    var before := Missing(parts[..n], objects);
    assert Missing(parts, objects) == before + [parts[n]] && !Has(server, parts[n]);
    FetchAllAppend(objects, before, parts[n], server);
    FetchMissing(parts[..n], objects, server);
    var now := FetchAll(objects, before, server);
    assert FetchAll(now, [parts[n]], server) == now;
    assert forall j :: 0 <= j < n ==> parts[..n][j] == parts[j];
  }

  /** Downloads that stop before the last part stop at the same place without it. */
  lemma StopsEarlier(parts: seq<string>, objects: Objects, server: Server)
    requires parts != [] && !AllOn(server, Missing(parts[..|parts| - 1], objects))
    ensures FetchAll(objects, Missing(parts, objects), server) ==
      FetchAll(objects, Missing(parts[..|parts| - 1], objects), server)
  {
    var before, h := Missing(parts[..|parts| - 1], objects), parts[|parts| - 1];
    assert Missing(parts, objects) == if h in objects then before else before + [h];
    FetchAllAppend(objects, before, h, server);
  }

  lemma StuckLonger(parts: seq<string>, k: nat, objects: Objects, server: Server)
    requires parts != [] && StuckAt(parts[..|parts| - 1], k, objects, server)
    ensures StuckAt(parts, k, objects, server)
  {
    assert forall j :: 0 <= j < |parts| - 1 ==> parts[j] == parts[..|parts| - 1][j];
  }

  lemma EarlierStuck(parts: seq<string>, k: nat, objects: Objects, server: Server)
    requires parts != [] && !AllOn(server, Missing(parts[..|parts| - 1], objects))
    requires StuckAt(parts[..|parts| - 1], k, FetchAll(objects, Missing(parts[..|parts| - 1], objects), server), server)
    ensures StuckAt(parts, k, FetchAll(objects, Missing(parts, objects), server), server)
  {
    StopsEarlier(parts, objects, server);
    StuckLonger(parts, k, FetchAll(objects, Missing(parts[..|parts| - 1], objects), server), server);
  }

  lemma {:induction false} FetchMissingStuck(parts: seq<string>, objects: Objects, server: Server) returns (k: nat)
    requires parts != [] && !AllOn(server, Missing(parts, objects))
    ensures StuckAt(parts, k, FetchAll(objects, Missing(parts, objects), server), server)
    decreases |parts|
  {
    var init := parts[..|parts| - 1];
    if AllOn(server, Missing(init, objects)) {
      LastStuck(parts, objects, server);
      k := |parts| - 1;
    } else {
      k := FetchMissingStuck(init, objects, server);
      EarlierStuck(parts, k, objects, server);
    }
  }

  /** Repairing an orphan after other repairs succeeds exactly if it was judged recoverable before them all. */
  lemma RepairedOutcome(was: Objects, now: Objects, e: Entry, server: Server)
    requires Orphan(e, was) && Grown(was, server, now)
    ensures var next := Repaired(now, e, server);
      Grown(now, server, next) && Grown(was, server, next) &&
      (Recoverable(e, was, server) <==> server.reachable && AllOn(server, Todo(e, now))) &&
      if Recoverable(e, was, server) then forall h <- Parts(e) :: h in next else Stuck(e, next, server)
  {
    var todo, next := Todo(e, now), Repaired(now, e, server);
    assert forall h <- todo :: h !in was by { if !Split(e) { assert Parts(e) == [e.hash]; } }
    FetchAllGrows(was, now, todo, server);
    GrownTrans(was, server, now, next);
    if Split(e) {
      if AllOn(server, todo) {
        FetchMissing(Parts(e), now, server);
      } else {
        var k := FetchMissingStuck(Parts(e), now, server);
      }
    } else {
      assert Parts(e) == [e.hash];
      if !Has(server, e.hash) { assert StuckAt(Parts(e), 0, next, server); }
    }
  }

  ghost predicate Settled(e: Entry, was: Objects, now: Objects, server: Server) {
    if Recoverable(e, was, server) then forall h <- Parts(e) :: h in now else Stuck(e, now, server)
  }

  lemma SettledStays(e: Entry, was: Objects, mid: Objects, now: Objects, server: Server)
    requires Settled(e, was, mid, server) && Grown(mid, server, now)
    ensures Settled(e, was, now, server)
  {
    if !Recoverable(e, was, server) { StuckStays(e, mid, server, now); }
  }

  ghost predicate AllSettled(entries: map<string, Entry>, paths: seq<string>, was: Objects, now: Objects,
                             server: Server) {
    forall path <- paths :: path in entries && Settled(entries[path], was, now, server)
  }

  lemma OneMoreSettled(was: Objects, entries: map<string, Entry>, paths: seq<string>, path: string, mid: Objects,
                       now: Objects, server: Server)
    requires AllSettled(entries, paths, was, mid, server) && Grown(mid, server, now)
    requires path in entries && Settled(entries[path], was, now, server)
    ensures AllSettled(entries, paths + [path], was, now, server)
  {
    forall p <- paths ensures Settled(entries[p], was, now, server) {
      SettledStays(entries[p], was, mid, now, server);
    }
  }

  lemma RepairOneMore(was: Objects, entries: map<string, Entry>, paths: seq<string>, path: string, mid: Objects,
                      server: Server)
    requires Grown(was, server, mid) && AllSettled(entries, paths, was, mid, server)
    requires path in entries && Orphan(entries[path], was)
    ensures var now := Repaired(mid, entries[path], server);
      Grown(was, server, now) && AllSettled(entries, paths + [path], was, now, server)
  {
    RepairedOutcome(was, mid, entries[path], server);
    OneMoreSettled(was, entries, paths, path, mid, Repaired(mid, entries[path], server), server);
  }

  lemma AllRepairedNext(objects: Objects, entries: map<string, Entry>, paths: seq<string>, path: string, server: Server)
    requires path in entries
    ensures AllRepaired(objects, entries, paths + [path], server) ==
      Repaired(AllRepaired(objects, entries, paths, server), entries[path], server)
  {
    assert (paths + [path])[..|paths|] == paths;
  }

  lemma {:induction false} AllRepairedFacts(was: Objects, entries: map<string, Entry>, paths: seq<string>,
                                            server: Server)
    requires forall path <- paths :: path in entries && Orphan(entries[path], was)
    ensures Grown(was, server, AllRepaired(was, entries, paths, server))
    ensures AllSettled(entries, paths, was, AllRepaired(was, entries, paths, server), server)
  {
    if paths != [] {
      var init, last := paths[..|paths| - 1], paths[|paths| - 1];
      assert paths == init + [last];
      AllRepairedFacts(was, entries, init, server);
      RepairOneMore(was, entries, init, last, AllRepaired(was, entries, init, server), server);
      AllRepairedNext(was, entries, init, last, server);
    }
  }

  function Originals(pointers: seq<Pointer>): seq<string> { seq(|pointers|,
                     i requires 0 <= i < |pointers| => pointers[i].original) }

  predicate DistinctOriginals(pointers: seq<Pointer>) {
    forall i, j :: 0 <= i < j < |pointers| ==> pointers[i].original != pointers[j].original
  }

  function Relinkables(pointers: seq<Pointer>, objects: Objects, server: Server): seq<Pointer> {
    Select(pointers, (p: Pointer) => Relinkable(p, objects, server))
  }

  /** The index after relinking: the old entries, and at the end one whole-object entry per relinkable pointer. */
  ghost predicate Extended(r: Repo, pointers: seq<Pointer>, was: Objects, server: Server, f: Repo) {
    f.paths == r.paths + Originals(Relinkables(pointers, was, server)) &&
    (forall path <- r.entries :: path in f.entries && f.entries[path] == r.entries[path]) &&
    (forall path <- f.entries :: path in r.entries || path in Originals(Relinkables(pointers, was, server))) &&
    (forall p <- Relinkables(pointers, was, server) :: p.original in f.entries && p.parsed != None &&
      f.entries[p.original] == Entry(p.parsed.value.hash, p.parsed.value.size, Some(p.path), [], []) &&
        p.parsed.value.hash in f.objects)
  }

  lemma RelinkableAppend(pointers: seq<Pointer>, p: Pointer, was: Objects, server: Server)
    ensures Relinkables(pointers + [p], was, server) ==
      Relinkables(pointers, was, server) + if Relinkable(p, was, server) then [p] else []
    ensures Originals(Relinkables(pointers, was, server) + [p]) ==
      Originals(Relinkables(pointers, was, server)) + [p.original]
  {
    assert (pointers + [p])[..|pointers|] == pointers;
  }

  /** Relinking one pointer after repairs succeeds exactly if it was judged relinkable before them. */
  lemma RelinkedOutcome(r: Repo, p: Pointer, was: Objects, server: Server)
    requires Grown(was, server, r.objects) && p.original !in r.entries
    ensures var f := Relinked(r, p, server);
      Grown(r.objects, server, f.objects) &&
      if Relinkable(p, was, server) then
        p.parsed.value.hash in f.objects && f.paths == r.paths + [p.original] &&
        f.entries == r.entries[p.original := Entry(p.parsed.value.hash, p.parsed.value.size, Some(p.path), [], [])]
      else f == r
  {
  }

  lemma ExtendedByOne(r: Repo, pointers: seq<Pointer>, p: Pointer, was: Objects, server: Server, mid: Repo, f: Repo)
    requires Extended(r, pointers, was, server, mid) && Relinkable(p, was, server) &&
      Grown(mid.objects, server, f.objects)
    requires p.original !in mid.entries && f.paths == mid.paths + [p.original] && p.parsed.value.hash in f.objects
    requires f.entries == mid.entries[p.original :=
      Entry(p.parsed.value.hash, p.parsed.value.size, Some(p.path), [], [])]
    ensures Extended(r, pointers + [p], was, server, f)
  {
    RelinkableAppend(pointers, p, was, server);
    assert f.paths == r.paths + (Originals(Relinkables(pointers, was, server)) + [p.original]);
    assert forall q <- Relinkables(pointers, was, server) :: q.original != p.original;
  }

  lemma NotRelinkedBefore(r: Repo, pointers: seq<Pointer>, p: Pointer, was: Objects, server: Server, mid: Repo)
    requires Extended(r, pointers, was, server, mid) && p.original !in r.entries
    requires forall q <- pointers :: q.original != p.original
    ensures p.original !in mid.entries
  {
    var before := Relinkables(pointers, was, server);
    forall i | 0 <= i < |before| ensures Originals(before)[i] != p.original { assert before[i] in before; }
  }

  lemma RelinkOneMore(r: Repo, pointers: seq<Pointer>, p: Pointer, was: Objects, server: Server, mid: Repo)
    requires Grown(was, server, r.objects) && Grown(r.objects, server, mid.objects)
    requires Extended(r, pointers, was, server, mid) && p.original !in r.entries
    requires forall q <- pointers :: q.original != p.original
    ensures Grown(r.objects, server, Relinked(mid, p, server).objects)
    ensures Extended(r, pointers + [p], was, server, Relinked(mid, p, server))
  {
    var f := Relinked(mid, p, server);
    NotRelinkedBefore(r, pointers, p, was, server, mid);
    GrownTrans(was, server, r.objects, mid.objects);
    RelinkedOutcome(mid, p, was, server);
    GrownTrans(r.objects, server, mid.objects, f.objects);
    if Relinkable(p, was, server) {
      ExtendedByOne(r, pointers, p, was, server, mid, f);
    } else {
      RelinkableAppend(pointers, p, was, server);
      assert Relinkables(pointers + [p], was, server) == Relinkables(pointers, was, server);
    }
  }

  lemma {:induction false} AllRelinkedFacts(r: Repo, pointers: seq<Pointer>, was: Objects, server: Server)
    requires Grown(was, server, r.objects) && DistinctOriginals(pointers)
    requires forall p <- pointers :: p.original !in r.entries
    ensures Grown(r.objects, server, AllRelinked(r, pointers, server).objects)
    ensures Extended(r, pointers, was, server, AllRelinked(r, pointers, server))
  {
    if pointers == [] {
      assert Relinkables(pointers, was, server) == [];
    } else {
      var n := |pointers| - 1;
      AllRelinkedFacts(r, pointers[..n], was, server);
      RelinkOneMore(r, pointers[..n], pointers[n], was, server, AllRelinked(r, pointers[..n], server));
      assert pointers == pointers[..n] + [pointers[n]];
    }
  }

  // ---------- selections ----------

  lemma SelectLast<T(!new)>(items: seq<T>, last: T, keep: T -> bool)
    ensures Select(items + [last], keep) == Select(items, keep) + if keep(last) then [last] else []
  {
    assert (items + [last])[..|items|] == items;
  }

  lemma Regroup<T>(a: seq<T>, b: seq<T>, c: seq<T>)
    ensures (a + b) + c == a + (b + c)
  {
  }

  lemma SelectAppendOne<T(!new)>(a: seq<T>, b: seq<T>, last: T, keep: T -> bool)
    requires Select(a + b, keep) == Select(a, keep) + Select(b, keep)
    ensures Select((a + b) + [last], keep) == Select(a, keep) + Select(b + [last], keep)
  {
    SelectLast(a + b, last, keep);
    SelectLast(b, last, keep);
    Regroup(Select(a, keep), Select(b, keep), if keep(last) then [last] else []);
  }

  lemma {:induction false} SelectAppend<T(!new)>(a: seq<T>, b: seq<T>, keep: T -> bool)
    ensures Select(a + b, keep) == Select(a, keep) + Select(b, keep)
    decreases |b|
  {
    if |b| == 0 {
      assert a + b == a;
    } else {
      var init, last := b[..|b| - 1], b[|b| - 1];
      SelectAppend(a, init, keep);
      SelectAppendOne(a, init, last, keep);
      Regroup(a, init, [last]);
      assert init + [last] == b;
    }
  }

  lemma {:induction false} SelectAgree<T(!new)>(items: seq<T>, p: T -> bool, q: T -> bool)
    requires forall x <- items :: p(x) == q(x)
    ensures Select(items, p) == Select(items, q)
  {
    if items != [] { SelectAgree(items[..|items| - 1], p, q); }
  }

  lemma {:induction false} SelectTwice<T(!new)>(items: seq<T>, p: T -> bool, q: T -> bool)
    ensures Select(Select(items, p), q) == Select(items, x => p(x) && q(x))
  {
    if items != [] {
      var n := |items| - 1;
      SelectTwice(items[..n], p, q);
      SelectAppend(Select(items[..n], p), if p(items[n]) then [items[n]] else [], q);
    }
  }

  lemma {:induction false} SelectNone<T(!new)>(items: seq<T>, keep: T -> bool)
    requires forall x <- items :: !keep(x)
    ensures Select(items, keep) == []
  {
    if items != [] { SelectNone(items[..|items| - 1], keep); }
  }

  lemma SelectAfter<T(!new)>(kept: seq<T>, added: seq<T>, p: T -> bool, q: T -> bool, after: T -> bool)
    requires forall x <- kept :: after(x) == (p(x) && q(x))
    requires forall x <- added :: !after(x)
    ensures Select(kept + added, after) == Select(Select(kept, p), q)
  {
    SelectAppend(kept, added, after);
    SelectNone(added, after);
    SelectTwice(kept, p, q);
    SelectAgree(kept, after, x => p(x) && q(x));
  }

  lemma {:induction false} SelectKeepsDistinct(pointers: seq<Pointer>, keep: Pointer -> bool)
    requires DistinctOriginals(pointers)
    ensures DistinctOriginals(Select(pointers, keep))
  {
    if pointers != [] {
      var n := |pointers| - 1;
      SelectKeepsDistinct(pointers[..n], keep);
      assert forall p <- Select(pointers[..n], keep) :: p in pointers[..n] && p.original != pointers[n].original;
    }
  }

  // ---------- after the fix ----------

  lemma AfterFixFacts(r: Repo, pointers: seq<Pointer>, server: Server)
    requires Valid(r) && DistinctOriginals(pointers)
    ensures var f := AfterFix(r, pointers, server);
      Grown(r.objects, server, f.objects) && AllSettled(r.entries, Orphans(r), r.objects, f.objects, server) &&
      Extended(r, Stale(r, pointers), r.objects, server, f)
  {
    var orphans, stale, mid, f := Orphans(r), Stale(r, pointers), AfterOrphans(r, server),
      AfterFix(r, pointers, server);
    AllRepairedFacts(r.objects, r.entries, orphans, server);
    SelectKeepsDistinct(pointers, (p: Pointer) => p.original !in r.entries);
    AllRelinkedFacts(mid, stale, r.objects, server);
    GrownTrans(r.objects, server, mid.objects, f.objects);
    forall path <- orphans ensures Settled(r.entries[path], r.objects, f.objects, server) {
      SettledStays(r.entries[path], r.objects, mid.objects, f.objects, server);
    }
  }

  lemma OldOrphanAfterFix(r: Repo, pointers: seq<Pointer>, server: Server, path: string)
    requires Valid(r) && DistinctOriginals(pointers) && path in r.paths
    ensures IsOrphan(AfterFix(r, pointers, server), path) <==> IsOrphan(r, path) && !CanRecover(r, path, server)
  {
    var f, e := AfterFix(r, pointers, server), r.entries[path];
    AfterFixFacts(r, pointers, server);
    if IsOrphan(r, path) {
      assert path in Orphans(r);
      if !CanRecover(r, path, server) {
        var k :| StuckAt(Parts(e), k, f.objects, server);
      }
    }
  }

  lemma RelinkedIsNoOrphan(r: Repo, pointers: seq<Pointer>, server: Server, path: string)
    requires Valid(r) && DistinctOriginals(pointers)
    requires path in Originals(Relinkables(Stale(r, pointers), r.objects, server))
    ensures !IsOrphan(AfterFix(r, pointers, server), path)
  {
    AfterFixFacts(r, pointers, server);
    var relinked := Relinkables(Stale(r, pointers), r.objects, server);
    var i :| 0 <= i < |relinked| && relinked[i].original == path;
    assert relinked[i] in relinked;
  }

  /** After `--fix` the orphans are exactly the ones it could not recover. */
  lemma OrphansAfterFix(r: Repo, pointers: seq<Pointer>, server: Server)
    requires Valid(r) && DistinctOriginals(pointers)
    ensures Orphans(AfterFix(r, pointers, server)) == Select(Orphans(r), path => !CanRecover(r, path, server))
  {
    var f := AfterFix(r, pointers, server);
    var added := Originals(Relinkables(Stale(r, pointers), r.objects, server));
    AfterFixFacts(r, pointers, server);
    assert f.paths == r.paths + added;
    forall path <- r.paths ensures IsOrphan(f, path) == (IsOrphan(r, path) && !CanRecover(r, path, server)) {
      OldOrphanAfterFix(r, pointers, server, path);
    }
    forall path <- added ensures !IsOrphan(f, path) { RelinkedIsNoOrphan(r, pointers, server, path); }
    SelectAfter(r.paths, added, path => IsOrphan(r, path), path => !CanRecover(r, path, server),
      path => IsOrphan(f, path));
  }

  lemma ValidAfterFix(r: Repo, pointers: seq<Pointer>, server: Server)
    requires Valid(r) && DistinctOriginals(pointers)
    ensures Valid(AfterFix(r, pointers, server))
  {
    var f := AfterFix(r, pointers, server);
    var relinked := Relinkables(Stale(r, pointers), r.objects, server);
    var added := Originals(relinked);
    AfterFixFacts(r, pointers, server);
    SelectKeepsDistinct(pointers, (p: Pointer) => p.original !in r.entries);
    SelectKeepsDistinct(Stale(r, pointers), (p: Pointer) => Relinkable(p, r.objects, server));
    forall i | 0 <= i < |added| ensures added[i] !in r.paths && added[i] in f.entries {
      assert relinked[i] in relinked;
    }
  }

  lemma {:induction false} StuckRepairNothing(objects: Objects, entries: map<string, Entry>, paths: seq<string>,
                                              server: Server)
    requires forall path <- paths :: path in entries && Stuck(entries[path], objects, server)
    ensures AllRepaired(objects, entries, paths, server) == objects
  {
    if paths != [] {
      StuckRepairNothing(objects, entries, paths[..|paths| - 1], server);
      StuckRepairsNothing(entries[paths[|paths| - 1]], objects, server);
    }
  }

  lemma {:induction false} NothingToRelink(r: Repo, pointers: seq<Pointer>, server: Server)
    requires forall p <- pointers :: !Relinkable(p, r.objects, server)
    ensures AllRelinked(r, pointers, server) == r
  {
    if pointers != [] {
      assert pointers[|pointers| - 1] in pointers;
      NothingToRelink(r, pointers[..|pointers| - 1], server);
    }
  }

  lemma StuckAfterFix(r: Repo, pointers: seq<Pointer>, server: Server, path: string)
    requires Valid(r) && DistinctOriginals(pointers) && path in Orphans(AfterFix(r, pointers, server))
    ensures var f := AfterFix(r, pointers, server);
      Stuck(f.entries[path], f.objects, server) && !CanRecover(f, path, server)
  {
    var f := AfterFix(r, pointers, server);
    AfterFixFacts(r, pointers, server);
    OrphansAfterFix(r, pointers, server);
    assert path in Orphans(r) && !CanRecover(r, path, server);
    assert Settled(r.entries[path], r.objects, f.objects, server);
    var k :| StuckAt(Parts(f.entries[path]), k, f.objects, server);
  }

  lemma SameOriginal(pointers: seq<Pointer>, p: Pointer, q: Pointer)
    requires DistinctOriginals(pointers) && p in pointers && q in pointers && p.original == q.original
    ensures p == q
  {
  }

  lemma StaleAfterFix(r: Repo, pointers: seq<Pointer>, server: Server, p: Pointer)
    requires Valid(r) && DistinctOriginals(pointers)
    ensures var f := AfterFix(r, pointers, server);
      p in Stale(f, pointers) <==> p in Stale(r, pointers) && !Relinkable(p, r.objects, server)
    ensures var f := AfterFix(r, pointers, server);
      p in Stale(f, pointers) ==> !Relinkable(p, f.objects, server)
  {
    var f := AfterFix(r, pointers, server);
    var relinked := Relinkables(Stale(r, pointers), r.objects, server);
    AfterFixFacts(r, pointers, server);
    if p in Stale(r, pointers) && p.original in f.entries {
      var i :| 0 <= i < |relinked| && relinked[i].original == p.original;
      assert relinked[i] in relinked;
      SameOriginal(pointers, p, relinked[i]);
    }
  }

  /** A second `--fix` recovers nothing and changes nothing, not even by partial downloads. */
  lemma SecondFixRecoversNothing(r: Repo, pointers: seq<Pointer>, server: Server)
    requires Valid(r) && DistinctOriginals(pointers)
    ensures var f := AfterFix(r, pointers, server);
      Valid(f) && AfterFix(f, pointers, server) == f &&
      (forall path <- Orphans(f) :: !CanRecover(f, path, server)) &&
      (forall p <- Stale(f, pointers) :: !Relinkable(p, f.objects, server))
  {
    var f := AfterFix(r, pointers, server);
    ValidAfterFix(r, pointers, server);
    forall path <- Orphans(f) ensures Stuck(f.entries[path], f.objects, server) && !CanRecover(f, path, server) {
      StuckAfterFix(r, pointers, server, path);
    }
    StuckRepairNothing(f.objects, f.entries, Orphans(f), server);
    assert AfterOrphans(f, server) == f;
    forall p <- Stale(f, pointers) ensures !Relinkable(p, f.objects, server) { StaleAfterFix(r, pointers, server, p); }
    NothingToRelink(f, Stale(f, pointers), server);
  }

  // ---------- rounds ----------

  datatype Mode = Report | DryRun | Fix

  predicate Wanted(p: Pointer, objects: Objects, mode: Mode, server: Server) { mode != Report &&
      Relinkable(p, objects, server) }

  function Relinks(stale: seq<Pointer>, objects: Objects, mode: Mode, server: Server): seq<Pointer> {
    Select(stale, (p: Pointer) => Wanted(p, objects, mode, server))
  }

  /** The orphans to recover, judged before any repair, and the others. A report recovers none. */
  predicate Chosen(r: Repo, path: string, mode: Mode, server: Server) { mode != Report && CanRecover(r, path, server) }

  function Recovered(r: Repo, orphans: seq<string>, mode: Mode, server: Server): seq<string> {
    Select(orphans, path => Chosen(r, path, mode, server))
  }

  /** What `--fix --dry-run` lists is what `--fix` lists: the orphans and stale pointers whose content is, part
      by part, in the store or on the server before any repair. */
  lemma DryRunPredictsFix(r: Repo, pointers: seq<Pointer>, server: Server)
    ensures Recovered(r, Orphans(r), DryRun, server) == Recovered(r, Orphans(r), Fix, server)
    ensures Relinks(Stale(r, pointers), r.objects, DryRun, server) ==
      Relinks(Stale(r, pointers), r.objects, Fix, server)
    ensures forall path :: path in Recovered(r, Orphans(r), DryRun, server) <==>
      path in Orphans(r) && CanRecover(r, path, server)
    ensures forall p :: p in Relinks(Stale(r, pointers), r.objects, DryRun, server) <==>
      p in Stale(r, pointers) && Relinkable(p, r.objects, server)
  {
    SelectAgree(Orphans(r), path => Chosen(r, path, DryRun, server), path => Chosen(r, path, Fix, server));
    SelectAgree(Stale(r, pointers), (p: Pointer) => Wanted(p, r.objects, DryRun, server),
      (p: Pointer) => Wanted(p, r.objects, Fix, server));
  }

  /** The index and store after some rounds of the relinking. */
  function LinkedSoFar(start: Repo, stale: seq<Pointer>, mode: Mode, server: Server): Repo {
    if mode == Fix then AllRelinked(start, stale, server) else start
  }

  function Leaves(stale: seq<Pointer>, objects: Objects, mode: Mode, server: Server): seq<Pointer> {
    Select(stale, (p: Pointer) => !Wanted(p, objects, mode, server))
  }

  lemma RelinksNext(stale: seq<Pointer>, p: Pointer, objects: Objects, mode: Mode, server: Server)
    ensures Relinks(stale + [p], objects, mode, server) ==
      Relinks(stale, objects, mode, server) + if Wanted(p, objects, mode, server) then [p] else []
    ensures Leaves(stale + [p], objects, mode, server) ==
      Leaves(stale, objects, mode, server) + if Wanted(p, objects, mode, server) then [] else [p]
  {
    assert (stale + [p])[..|stale|] == stale;
  }

  lemma StaleUpTo(stale: seq<Pointer>, i: nat, start: Repo)
    requires i < |stale| && DistinctOriginals(stale) && forall p <- stale :: p.original !in start.entries
    ensures DistinctOriginals(stale[..i]) && forall p <- stale[..i] :: p.original !in start.entries
    ensures stale[..i + 1] == stale[..i] + [stale[i]]
  {
  }

  lemma GrownByOrphans(r: Repo, server: Server)
    ensures Grown(r.objects, server, AllRepaired(r.objects, r.entries, Orphans(r), server))
  {
    AllRepairedFacts(r.objects, r.entries, Orphans(r), server);
  }

  lemma StaleNext(start: Repo, stale: seq<Pointer>, p: Pointer, was: Objects, server: Server)
    requires DistinctOriginals(stale) && (forall q <- stale :: q.original !in start.entries) &&
      Grown(was, server, start.objects)
    ensures AllRelinked(start, stale + [p], server) == Relinked(AllRelinked(start, stale, server), p, server)
    ensures Relinkable(p, AllRelinked(start, stale, server).objects, server) <==> Relinkable(p, was, server)
    ensures Relinkable(p, start.objects, server) <==> Relinkable(p, was, server)
  {
    assert (stale + [p])[..|stale|] == stale;
    AllRelinkedFacts(start, stale, was, server);
    GrownTrans(was, server, start.objects, AllRelinked(start, stale, server).objects);
  }

  /** The store after some rounds of the repair. */
  function SoFar(was: Repo, paths: seq<string>, mode: Mode, server: Server): Objects {
    if mode == Fix then AllRepaired(was.objects, was.entries, paths, server) else was.objects
  }

  function Unrecovered(r: Repo, orphans: seq<string>, mode: Mode, server: Server): seq<string> {
    Select(orphans, path => !Chosen(r, path, mode, server))
  }

  lemma RecoveredNext(r: Repo, orphans: seq<string>, path: string, mode: Mode, server: Server)
    ensures Recovered(r, orphans + [path], mode, server) ==
      Recovered(r, orphans, mode, server) + if Chosen(r, path, mode, server) then [path] else []
    ensures Unrecovered(r, orphans + [path], mode, server) ==
      Unrecovered(r, orphans, mode, server) + if Chosen(r, path, mode, server) then [] else [path]
  {
    assert (orphans + [path])[..|orphans|] == orphans;
  }

  /** A round finds what was judged before the first one, both on the untouched store of a dry run and after
      the repairs of earlier rounds. */
  lemma RepairRound(was: Repo, earlier: seq<string>, path: string, fix: bool, server: Server)
    requires IsOrphan(was, path) && forall p <- earlier :: IsOrphan(was, p)
    ensures var now := if fix then AllRepaired(was.objects, was.entries, earlier, server) else was.objects;
      CanRecover(was, path, server) <==> AllOn(server, Todo(was.entries[path], now)) && (fix ==> server.reachable)
  {
    var e := was.entries[path];
    if fix {
      AllRepairedFacts(was.objects, was.entries, earlier, server);
      RepairedOutcome(was.objects, AllRepaired(was.objects, was.entries, earlier, server), e, server);
    } else {
      RepairedOutcome(was.objects, was.objects, e, server);
      assert Todo(e, was.objects)[0] in Todo(e, was.objects);
    }
  }

  lemma OrphansUpTo(r: Repo, orphans: seq<string>, i: nat)
    requires orphans == Orphans(r) && i < |orphans|
    ensures IsOrphan(r, orphans[i]) && forall path <- orphans[..i] :: IsOrphan(r, path)
    ensures orphans[..i + 1] == orphans[..i] + [orphans[i]]
  {
    assert orphans[i] in orphans;
    forall path <- orphans[..i] ensures IsOrphan(r, path) { assert path in orphans; }
  }

  // ---------- the command ----------

  ghost predicate Sound(server: Server, hash: Digest) { Intact(server.objects, hash) }

  /** _missing_parts */
  method MissingParts(parts: seq<string>, directory: Directory) returns (missing: seq<string>)
    ensures missing == Missing(parts, directory.objects)
  {
    missing := [];
    for i := 0 to |parts|
      invariant missing == Missing(parts[..i], directory.objects)
    {
      assert parts[..i + 1][..i] == parts[..i];
      if parts[i] !in directory.objects {
        missing := missing + [parts[i]];
      }
    }
    assert parts[..|parts|] == parts;
  }

  /** _artifact_content_missing */
  method ContentMissing(e: Entry, directory: Directory) returns (b: bool)
    ensures b <==> Missing(Parts(e), directory.objects) != []
  {
    if e.layers != [] {
      var missing := MissingParts(e.layers, directory);
      b := missing != [];
    } else if e.chunks != [] {
      var missing := MissingParts(e.chunks, directory);
      b := missing != [];
    } else {
      b := e.hash !in directory.objects;
      assert b <==> exists h <- [e.hash] :: h !in directory.objects;
    }
  }

  /** `all(object_exists(...))` */
  method AllExist(parts: seq<string>, server: Server) returns (all: bool)
    ensures all <==> AllOn(server, parts)
  {
    all := true;
    var i := 0;
    while i < |parts| && all
      invariant i <= |parts| && (all <==> AllOn(server, parts[..i]))
    {
      all := Has(server, parts[i]);
      assert parts[i] in parts && parts[..i + 1] == parts[..i] + [parts[i]];
      i := i + 1;
    }
    if all { assert parts[..i] == parts; }
  }

  method FetchOne(directory: Directory, h: string, server: Server) returns (got: bool)
    requires Sound(server, directory.hash)
    modifies directory
    ensures got <==> Has(server, h)
    ensures directory.objects == FetchAll(old(directory.objects), [h], server)
  {
    if Has(server, h) {
      assert Cdc.Concat([server.objects[h]]) == server.objects[h];
    }
    var r := DownloadObject(directory, h, Serve(server, h), _ => true);
    got := r == Downloaded;
  }

  lemma {:induction false} StoppedEarly(objects: Objects, parts: seq<string>, i: nat, server: Server)
    requires i <= |parts| && !AllOn(server, parts[..i])
    ensures FetchAll(objects, parts, server) == FetchAll(objects, parts[..i], server) && !AllOn(server, parts)
    decreases |parts| - i
  {
    if i < |parts| {
      assert parts[..i + 1] == parts[..i] + [parts[i]];
      FetchAllAppend(objects, parts[..i], parts[i], server);
      StoppedEarly(objects, parts, i + 1, server);
    } else {
      assert parts[..i] == parts;
    }
  }

  /** `all(download_object(...))` stops at the first failure. */
  method DownloadAll(directory: Directory, parts: seq<string>, server: Server) returns (all: bool)
    requires Sound(server, directory.hash)
    modifies directory
    ensures all <==> AllOn(server, parts)
    ensures directory.objects == FetchAll(old(directory.objects), parts, server)
  {
    all := true;
    var i := 0;
    while i < |parts| && all
      invariant i <= |parts| && (all <==> AllOn(server, parts[..i]))
      invariant directory.objects == FetchAll(old(directory.objects), parts[..i], server)
    {
      FetchAllAppend(old(directory.objects), parts[..i], parts[i], server);
      all := FetchOne(directory, parts[i], server);
      assert parts[..i + 1] == parts[..i] + [parts[i]];
      i := i + 1;
    }
    if all {
      assert parts[..i] == parts;
    } else {
      StoppedEarly(old(directory.objects), parts, i, server);
    }
  }

  class Workspace {
    const directory: Directory
    var paths: seq<string>
    var entries: map<string, Entry>

    constructor (directory: Directory, paths: seq<string>, entries: map<string, Entry>)
      ensures this.directory == directory && this.paths == paths && this.entries == entries
    {
      this.directory, this.paths, this.entries := directory, paths, entries;
    }

    ghost function Now(): Repo
      reads this, directory
    {
      Repo(paths, entries, directory.objects)
    }

    method FindOrphans() returns (orphaned: seq<string>)
      ensures orphaned == Orphans(Now())
    {
      orphaned := [];
      ghost var now := Now();
      ghost var keep := path => IsOrphan(now, path);
      for i := 0 to |paths|
        invariant orphaned == Select(paths[..i], keep)
      {
        SelectNext(paths, i, keep);
        if paths[i] in entries && entries[paths[i]].pointer != None {
          var incomplete := ContentMissing(entries[paths[i]], directory);
          if incomplete {
            orphaned := orphaned + [paths[i]];
          }
        }
      }
      assert paths[..|paths|] == paths;
    }

    /** One orphan: what `--fix --dry-run` predicts, and what `--fix` does. */
    method RecoverOrphan(e: Entry, mode: Mode, server: Server) returns (canRecover: bool)
      requires Sound(server, directory.hash)
      modifies directory
      ensures directory.objects == if mode == Fix then Repaired(old(directory.objects), e, server)
        else old(directory.objects)
      ensures canRecover <==>
        mode != Report && AllOn(server, Todo(e, old(directory.objects))) && (mode == Fix ==> server.reachable)
    {
      canRecover := false;
      if e.layers != [] || e.chunks != [] {
        var missing := MissingParts(if e.layers != [] then e.layers else e.chunks, directory);
        if mode == DryRun {
          canRecover := AllExist(missing, server);
        } else if mode == Fix && server.reachable {
          canRecover := DownloadAll(directory, missing, server);
        }
      } else if mode == DryRun {
        canRecover := Has(server, e.hash);
      } else if mode == Fix && server.reachable {
        canRecover := FetchOne(directory, e.hash, server);
      }
    }

    /** One round of the repair, which finds what was judged before the first. */
    method RepairOne(path: string, mode: Mode, server: Server, ghost was: Repo, ghost earlier: seq<string>,
                     recovered: seq<string>, unrecovered: seq<string>)
                       returns (nowRecovered: seq<string>, nowUnrecovered: seq<string>)
      requires Sound(server, directory.hash) && path in entries && entries == was.entries
      requires IsOrphan(was, path) && forall p <- earlier :: IsOrphan(was, p)
      requires directory.objects == SoFar(was, earlier, mode, server)
      requires recovered == Recovered(was, earlier, mode, server) &&
        unrecovered == Unrecovered(was, earlier, mode, server)
      modifies directory
      ensures directory.objects == SoFar(was, earlier + [path], mode, server)
      ensures nowRecovered == Recovered(was, earlier + [path], mode, server)
      ensures nowUnrecovered == Unrecovered(was, earlier + [path], mode, server)
    {
      RepairRound(was, earlier, path, mode == Fix, server);
      AllRepairedNext(was.objects, was.entries, earlier, path, server);
      RecoveredNext(was, earlier, path, mode, server);
      var canRecover := RecoverOrphan(entries[path], mode, server);
      nowRecovered := if canRecover then recovered + [path] else recovered;
      nowUnrecovered := if canRecover then unrecovered else unrecovered + [path];
    }

    method RepairOrphans(orphaned: seq<string>, mode: Mode, server: Server)
      returns (recovered: seq<string>, unrecovered: seq<string>)
      requires orphaned == Orphans(Now()) && Sound(server, directory.hash)
      modifies directory
      ensures directory.objects == SoFar(old(Now()), orphaned, mode, server)
      ensures recovered == Recovered(old(Now()), orphaned, mode, server)
      ensures unrecovered == Unrecovered(old(Now()), orphaned, mode, server)
    {
      recovered, unrecovered := [], [];
      ghost var was := Now();
      ghost var seen: seq<string> := [];
      for i := 0 to |orphaned|
        invariant seen == orphaned[..i]
        invariant directory.objects == SoFar(was, seen, mode, server)
        invariant recovered == Recovered(was, seen, mode, server) && unrecovered == Unrecovered(was, seen, mode, server)
      {
        OrphansUpTo(was, orphaned, i);
        recovered, unrecovered := RepairOne(orphaned[i], mode, server, was, seen, recovered, unrecovered);
        seen := seen + [orphaned[i]];
      }
      assert seen == orphaned;
    }

    method FindStale(pointers: seq<Pointer>) returns (stale: seq<Pointer>)
      ensures stale == Stale(Now(), pointers)
    {
      stale := [];
      ghost var now := Now();
      ghost var keep := (p: Pointer) => p.original !in now.entries;
      for i := 0 to |pointers|
        invariant stale == Select(pointers[..i], keep)
      {
        SelectNext(pointers, i, keep);
        if pointers[i].original !in entries {
          stale := stale + [pointers[i]];
        }
      }
      assert pointers[..|pointers|] == pointers;
    }

    method AddEntry(path: string, e: Entry)
      modifies this
      ensures entries == old(entries)[path := e]
      ensures paths == if path in old(entries) then old(paths) else old(paths) + [path]
    {
      if path !in entries {
        paths := paths + [path];
      }
      entries := entries[path := e];
    }

    /** One stale pointer: parse, look for the object, fetch it if need be, and put it back into the index. */
    method RelinkPointer(p: Pointer, mode: Mode, server: Server) returns (recovered: bool)
      requires Sound(server, directory.hash)
      modifies this, directory
      ensures Now() == if mode == Fix then Relinked(old(Now()), p, server) else old(Now())
      ensures recovered <==> mode != Report && Relinkable(p, old(directory.objects), server)
    {
      if p.parsed == None {
        return false;
      }
      var h := p.parsed.value.hash;
      var available := h in directory.objects;
      if !available && mode == DryRun {
        available := Has(server, h);
      } else if !available && mode == Fix && server.reachable {
        available := FetchOne(directory, h, server);
      }
      recovered := available && mode != Report;
      if available && mode == Fix {
        AddEntry(p.original, Entry(h, p.parsed.value.size, Some(p.path), [], []));
      }
    }

    /** One round of the relinking, which finds what was judged before any repair. */
    method RelinkOne(p: Pointer, mode: Mode, server: Server, ghost was: Objects, ghost start: Repo,
                     ghost earlier: seq<Pointer>)
      returns (recovered: bool)
      requires Sound(server, directory.hash) && Grown(was, server, start.objects)
      requires DistinctOriginals(earlier) && forall q <- earlier :: q.original !in start.entries
      requires Now() == LinkedSoFar(start, earlier, mode, server)
      modifies this, directory
      ensures Now() == LinkedSoFar(start, earlier + [p], mode, server)
      ensures recovered <==> Wanted(p, was, mode, server)
    {
      StaleNext(start, earlier, p, was, server);
      recovered := RelinkPointer(p, mode, server);
    }

    method RelinkStale(stale: seq<Pointer>, mode: Mode, server: Server, ghost was: Objects)
      returns (recovered: seq<Pointer>, unrecovered: seq<Pointer>)
      requires Sound(server, directory.hash) && DistinctOriginals(stale) && forall p <- stale :: p.original !in entries
      requires Grown(was, server, directory.objects)
      modifies this, directory
      ensures Now() == LinkedSoFar(old(Now()), stale, mode, server)
      ensures recovered == Relinks(stale, was, mode, server)
      ensures unrecovered == Leaves(stale, was, mode, server)
    {
      recovered, unrecovered := [], [];
      ghost var start := Now();
      for i := 0 to |stale|
        invariant Now() == LinkedSoFar(start, stale[..i], mode, server)
        invariant recovered == Relinks(stale[..i], was, mode, server)
        invariant unrecovered == Leaves(stale[..i], was, mode, server)
      {
        var p := stale[i];
        StaleUpTo(stale, i, start);
        RelinksNext(stale[..i], p, was, mode, server);
        var ok := RelinkOne(p, mode, server, was, start, stale[..i]);
        if ok {
          recovered := recovered + [p];
        } else {
          unrecovered := unrecovered + [p];
        }
      }
      assert stale[..|stale|] == stale;
    }

    /** Both repairs. A dry run lists exactly what a fix recovers, and changes nothing; a fix leaves AfterFix. */
    method Repair(pointers: seq<Pointer>, mode: Mode, server: Server)
      returns (recovered: seq<string>, unrecovered: seq<string>, relinked: seq<Pointer>, unlinked: seq<Pointer>)
      requires Sound(server, directory.hash) && DistinctOriginals(pointers)
      modifies this, directory
      ensures Now() == if mode == Fix then AfterFix(old(Now()), pointers, server) else old(Now())
      ensures recovered == Recovered(old(Now()), Orphans(old(Now())), mode, server)
      ensures unrecovered == Unrecovered(old(Now()), Orphans(old(Now())), mode, server)
      ensures relinked == Relinks(Stale(old(Now()), pointers), old(directory.objects), mode, server)
      ensures unlinked == Leaves(Stale(old(Now()), pointers), old(directory.objects), mode, server)
    {
      ghost var was := Now();
      var orphaned := FindOrphans();
      recovered, unrecovered := RepairOrphans(orphaned, mode, server);
      GrownByOrphans(was, server);
      var stale := FindStale(pointers);
      SelectKeepsDistinct(pointers, (p: Pointer) => p.original !in was.entries);
      relinked, unlinked := RelinkStale(stale, mode, server, was.objects);
    }

    /** `--fix --dry-run` and then `--fix`, against the same server: both print the same lists. */
    method DryRunThenFix(pointers: seq<Pointer>, server: Server)
      returns (orphans: seq<string>, stale: seq<Pointer>, recovered: seq<string>, relinked: seq<Pointer>)
      requires Sound(server, directory.hash) && DistinctOriginals(pointers)
      modifies this, directory
      ensures orphans == recovered && stale == relinked
      ensures Now() == AfterFix(old(Now()), pointers, server)
    {
      ghost var r := Now();
      var others, left;
      orphans, others, stale, left := Repair(pointers, DryRun, server);
      recovered, others, relinked, left := Repair(pointers, Fix, server);
      DryRunPredictsFix(r, pointers, server);
    }
  }
}
