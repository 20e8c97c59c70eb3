/** Two loops of python/av_cli/client.py: the verified download of one object, and the paged walk over a
    registry's refs. A server is what it replies. */
module Client {
  import opened Sha256Fips
  import opened ObjectStore
  import Cdc

  // ---------- download_object ----------

  /** The reply to an object request; `broken` when the connection fails after the chunks that did arrive. */
  datatype Reply = Body(chunks: seq<seq<byte>>, broken: bool) | NotFound | Unauthorized | Unreachable

  datatype Download = Downloaded | NotDownloaded | AuthenticationError | OsError

  /** The whole content arrives and hashes to the requested name. */
  predicate Delivers(reply: Reply, name: string, hash: Digest) {
    reply.Body? && !reply.broken && hash(Cdc.Concat(reply.chunks)) == name
  }

  lemma {:induction false} ConcatNext(chunks: seq<seq<byte>>, n: nat)
    requires n < |chunks|
    ensures Cdc.Concat(chunks[..n + 1]) == Cdc.Concat(chunks[..n]) + chunks[n]
  {
    if n > 0 {
      ConcatNext(chunks[1..], n - 1);
      assert chunks[..n + 1][1..] == chunks[1..][..n] && chunks[..n][1..] == chunks[1..][..n - 1];
    }
  }

  /** Every file operation of a download of n chunks succeeds: the opening, each write, and the replacement. */
  predicate Works(disk: nat -> bool, n: nat) { forall k :: 0 <= k <= n + 1 ==> disk(k) }

  /** The opening or a write fails, or the replacement of an object that has arrived whole. */
  predicate DiskFails(reply: Reply, name: string, hash: Digest, disk: nat -> bool) {
    reply.Body? && ((exists k :: 0 <= k <= |reply.chunks| && !disk(k)) ||
      (Delivers(reply, name, hash) && !disk(|reply.chunks| + 1)))
  }

  /** The loop over the received chunks, up to the first write that fails. */
  method WriteChunks(directory: Directory, tmp: nat, chunks: seq<seq<byte>>, disk: nat -> bool)
    returns (ok: bool, text: string)
    requires tmp in directory.temps && directory.temps[tmp] == [] && disk(0)
    modifies directory`temps
    ensures ok <==> forall k :: 0 <= k <= |chunks| ==> disk(k)
    ensures tmp in directory.temps && directory.temps == old(directory.temps)[tmp := directory.temps[tmp]]
    ensures ok ==> directory.temps[tmp] == Cdc.Concat(chunks) && text == directory.hash(Cdc.Concat(chunks))
  {
    var digest := new Hashing(directory.hash);
    ghost var before := directory.temps;
    text := "";
    for i := 0 to |chunks|
      invariant directory.temps == before[tmp := digest.fed] && digest.fed == Cdc.Concat(chunks[..i])
      invariant digest.hash == directory.hash && forall k :: 0 <= k <= i ==> disk(k)
    {
      if !disk(i + 1) {
        return false, text;
      }
      ConcatNext(chunks, i);
      directory.temps := directory.temps[tmp := directory.temps[tmp] + chunks[i]];
      digest.Update(chunks[i]);
    }
    assert chunks[..|chunks|] == chunks;
    text := digest.HexDigest();
    ok := true;
  }

  /** Writes and hashes chunk by chunk into a temporary file; only verified bytes get the object's name, and the
      temporary file is gone on every exit, whichever operation fails. `disk(k)` says whether operation k does. */
  method DownloadObject(directory: Directory, name: string, reply: Reply, disk: nat -> bool) returns (r: Download)
    modifies directory
    ensures directory.temps == old(directory.temps)
    ensures r == Downloaded <==> Delivers(reply, name, directory.hash) && Works(disk, |reply.chunks|)
    ensures r == AuthenticationError <==> reply == Unauthorized
    ensures r == OsError <==> DiskFails(reply, name, directory.hash, disk)
    ensures directory.objects ==
      if r == Downloaded then old(directory.objects)[name := Cdc.Concat(reply.chunks)] else old(directory.objects)
    ensures Intact(old(directory.objects), directory.hash) ==> Intact(directory.objects, directory.hash)
  {
    match reply
    case Unauthorized => r := AuthenticationError;
    case Unreachable => r := NotDownloaded;
    case NotFound => r := NotDownloaded;
    case Body(chunks, broken) =>
      if !disk(0) {
        return OsError;
      }
      FreshName(directory.temps.Keys);
      var tmp :| tmp !in directory.temps;
      ghost var before := directory.temps;
      directory.temps := directory.temps[tmp := []];
      var wrote, text := WriteChunks(directory, tmp, chunks, disk);
      if !wrote {
        r := OsError;
      } else if broken || text != name {
        r := NotDownloaded;
      } else if !disk(|chunks| + 1) {
        r := OsError;
      } else {
        directory.objects := directory.objects[name := directory.temps[tmp]];
        r := Downloaded;
      }
      directory.temps := directory.temps - {tmp};
      assert directory.temps == before;
  }

  // ---------- the paged walk over refs ----------

  const PAGE_SIZE := 5000

  datatype Ref = Ref(name: string, commit: string)

  type Refs = map<string, string>

  /** dict.update with the items of a page. */
  function Update(merged: Refs, page: seq<Ref>): Refs {
    if page == [] then merged
    else
      var last := page[|page| - 1];
      Update(merged, page[..|page| - 1])[last.name := last.commit]
  }

  lemma {:induction false} UpdateAppend(merged: Refs, a: seq<Ref>, b: seq<Ref>)
    ensures Update(merged, a + b) == Update(Update(merged, a), b)
  {
    if b == [] {
      assert a + b == a;
    } else {
      UpdateAppend(merged, a, b[..|b| - 1]);
      assert (a + b)[..|a + b| - 1] == a + b[..|b| - 1];
    }
  }

  lemma {:induction false} UpdateHas(merged: Refs, page: seq<Ref>, name: string)
    ensures name in Update(merged, page) <==> name in merged || exists i :: 0 <= i < |page| && page[i].name == name
  {
    if page != [] {
      UpdateHas(merged, page[..|page| - 1], name);
    }
  }

  /** The entry of a name is that of its last row, and without a row the one before. */
  lemma {:induction false} UpdateTakesLast(merged: Refs, page: seq<Ref>, i: nat)
    requires i < |page| && forall j :: i < j < |page| ==> page[j].name != page[i].name
    ensures page[i].name in Update(merged, page) && Update(merged, page)[page[i].name] == page[i].commit
  {
    if i < |page| - 1 {
      UpdateTakesLast(merged, page[..|page| - 1], i);
    }
  }

  lemma {:induction false} UpdateKeepsOthers(merged: Refs, page: seq<Ref>, name: string)
    requires name in merged && forall i :: 0 <= i < |page| ==> page[i].name != name
    ensures name in Update(merged, page) && Update(merged, page)[name] == merged[name]
  {
    if page != [] {
      UpdateKeepsOthers(merged, page[..|page| - 1], name);
    }
  }

  datatype Listing = Page(refs: seq<Ref>) | Rejected | Denied | Lost

  /** What the server replies to the request at each offset. */
  type Fetch = nat -> Listing

  /** The walk after some requests: at an offset, past its short page, or stopped by a reply that is no page. */
  datatype Walk = Going(merged: Refs, offset: nat) | Whole(merged: Refs) | Stopped(merged: Refs, reply: Listing)

  function Next(fetch: Fetch, walk: Walk): Walk {
    if !walk.Going? then walk
    else
      match fetch(walk.offset)
      case Page(refs) =>
        var merged := Update(walk.merged, refs);
        if |refs| < PAGE_SIZE then Whole(merged) else Going(merged, walk.offset + PAGE_SIZE)
      case other => Stopped(walk.merged, other)
  }

  function WalkAfter(fetch: Fetch, requests: nat): Walk {
    if requests == 0 then Going(map[], 0) else Next(fetch, WalkAfter(fetch, requests - 1))
  }

  lemma {:induction false} StaysEnded(fetch: Fetch, n: nat, m: nat)
    requires n <= m && !WalkAfter(fetch, n).Going?
    ensures WalkAfter(fetch, m) == WalkAfter(fetch, n)
    decreases m - n
  {
    if n < m { StaysEnded(fetch, n, m - 1); }
  }

  /** The loop of list_refs and of the export. It ends exactly when the walk does; `requests` says when. */
  method WalkRefs(fetch: Fetch, ghost requests: nat) returns (walk: Walk)
    requires !WalkAfter(fetch, requests).Going?
    ensures walk == WalkAfter(fetch, requests)
  {
    var merged: Refs, offset: nat := map[], 0;
    ghost var sent := 0;
    while true
      invariant sent <= requests && WalkAfter(fetch, sent) == Going(merged, offset)
      decreases requests - sent
    {
      var reply := fetch(offset);
      if !reply.Page? {
        StaysEnded(fetch, sent + 1, requests);
        return Stopped(merged, reply);
      }
      merged := Update(merged, reply.refs);
      if |reply.refs| < PAGE_SIZE {
        StaysEnded(fetch, sent + 1, requests);
        return Whole(merged);
      }
      offset := offset + PAGE_SIZE;
      sent := sent + 1;
    }
  }

  /** list_refs: any reply but a page ends the walk with what was merged so far; only 401 raises. */
  method ListRefs(fetch: Fetch, ghost requests: nat) returns (refs: Refs, raised: bool)
    requires !WalkAfter(fetch, requests).Going?
    ensures refs == WalkAfter(fetch, requests).merged
    ensures raised <==> WalkAfter(fetch, requests).Stopped? && WalkAfter(fetch, requests).reply == Denied
  {
    var walk := WalkRefs(fetch, requests);
    refs := walk.merged;
    raised := walk.Stopped? && walk.reply == Denied;
  }

  // ---------- servers ----------

  function Cut(refs: seq<Ref>, offset: nat): seq<Ref> {
    if |refs| <= offset then []
    else if |refs| - offset <= PAGE_SIZE then refs[offset..] else refs[offset..offset + PAGE_SIZE]
  }

  function RefMap(refs: seq<Ref>): Refs { Update(map[], refs) }

  /** A server that honours limit and offset, and an older one that ignores them. */
  function PagingServer(refs: seq<Ref>): Fetch { (offset: nat) => Page(Cut(refs, offset)) }
  function OldServer(refs: seq<Ref>): Fetch { (offset: nat) => Page(refs) }

  /** One honest page takes the walk from the refs before it to the refs up to its end. */
  lemma OnePage(refs: seq<Ref>, fetch: Fetch, at: nat)
    requires at <= |refs| && fetch(at) == Page(Cut(refs, at))
    ensures Next(fetch, Going(RefMap(refs[..at]), at)) ==
      if |refs| - at < PAGE_SIZE then Whole(RefMap(refs)) else Going(RefMap(refs[..at + PAGE_SIZE]), at + PAGE_SIZE)
  {
    UpdateAppend(map[], refs[..at], Cut(refs, at));
    assert refs[..at] + Cut(refs, at) == if |refs| - at < PAGE_SIZE then refs else refs[..at + PAGE_SIZE];
  }

  lemma {:induction false} GoingWhileFull(refs: seq<Ref>, fetch: Fetch, n: nat)
    requires n * PAGE_SIZE <= |refs|
    requires forall i: nat :: i < n ==> fetch(i * PAGE_SIZE) == Page(Cut(refs, i * PAGE_SIZE))
    ensures WalkAfter(fetch, n) == Going(RefMap(refs[..n * PAGE_SIZE]), n * PAGE_SIZE)
  {
    if n > 0 {
      GoingWhileFull(refs, fetch, n - 1);
      OnePage(refs, fetch, (n - 1) * PAGE_SIZE);
    }
  }

  predicate Distinct(refs: seq<Ref>) {
    forall i, j :: 0 <= i < j < |refs| ==> refs[i].name != refs[j].name
  }

  /** The mapping of a server's refs, which have different names: every ref with its commit, and nothing else. */
  lemma RefMapIs(refs: seq<Ref>)
    requires Distinct(refs)
    ensures forall i :: 0 <= i < |refs| ==> refs[i].name in RefMap(refs) && RefMap(refs)[refs[i].name] == refs[i].commit
    ensures forall name <- RefMap(refs) :: exists i :: 0 <= i < |refs| && refs[i].name == name
  {
    forall i | 0 <= i < |refs|
      ensures refs[i].name in RefMap(refs) && RefMap(refs)[refs[i].name] == refs[i].commit
    {
      UpdateTakesLast(map[], refs, i);
    }
    forall name <- RefMap(refs) ensures exists i :: 0 <= i < |refs| && refs[i].name == name {
      UpdateHas(map[], refs, name);
    }
  }

  /** Against a paging server the walk ends, after exactly one short page, with every ref. */
  lemma PagingWalkIsComplete(refs: seq<Ref>)
    ensures var pages := |refs| / PAGE_SIZE;
      WalkAfter(PagingServer(refs), pages + 1) == Whole(RefMap(refs)) && WalkAfter(PagingServer(refs), pages).Going?
  {
    var fetch, pages := PagingServer(refs), |refs| / PAGE_SIZE;
    GoingWhileFull(refs, fetch, pages);
    OnePage(refs, fetch, pages * PAGE_SIZE);
    assert WalkAfter(fetch, pages + 1) == Next(fetch, WalkAfter(fetch, pages));
  }

  lemma {:induction false} OldServerKeepsGoing(refs: seq<Ref>, n: nat)
    requires |refs| >= PAGE_SIZE
    ensures WalkAfter(OldServer(refs), n).Going?
  {
    if n > 0 { OldServerKeepsGoing(refs, n - 1); }
  }

  /** Against a server without paging the walk ends exactly if all refs together are fewer than a page. */
  lemma OldServerWalkEndsIff(refs: seq<Ref>)
    ensures (exists n: nat :: !WalkAfter(OldServer(refs), n).Going?) <==> |refs| < 5000
    ensures |refs| < 5000 ==> WalkAfter(OldServer(refs), 1) == Whole(RefMap(refs))
  {
    if |refs| < PAGE_SIZE {
      assert WalkAfter(OldServer(refs), 0) == Going(map[], 0);
      assert !WalkAfter(OldServer(refs), 1).Going?;
    } else {
      forall n: nat ensures WalkAfter(OldServer(refs), n).Going? { OldServerKeepsGoing(refs, n); }
    }
  }

  /** A failure on page k is silent: list_refs returns the first k pages, and none of the refs after them. */
  lemma FailureTruncates(refs: seq<Ref>, fetch: Fetch, k: nat)
    requires Distinct(refs) && k * PAGE_SIZE <= |refs| && !fetch(k * PAGE_SIZE).Page?
    requires forall i: nat :: i < k ==> fetch(i * PAGE_SIZE) == Page(Cut(refs, i * PAGE_SIZE))
    ensures WalkAfter(fetch, k + 1) == Stopped(RefMap(refs[..k * PAGE_SIZE]), fetch(k * PAGE_SIZE))
    ensures forall i :: 0 <= i < |refs| ==> (refs[i].name in WalkAfter(fetch, k + 1).merged <==> i < k * PAGE_SIZE)
  {
    GoingWhileFull(refs, fetch, k);
    forall i | 0 <= i < |refs| ensures refs[i].name in RefMap(refs[..k * PAGE_SIZE]) <==> i < k * PAGE_SIZE {
      UpdateHas(map[], refs[..k * PAGE_SIZE], refs[i].name);
      assert i < k * PAGE_SIZE ==> refs[..k * PAGE_SIZE][i] == refs[i];
    }
  }
}
