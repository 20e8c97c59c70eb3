/** The two safetensors stagers of src/core.cpp: `split_and_hash_safetensors_core`, which re-reads
    the file once per layer, and `stage_safetensors_core_parts_only`, which walks it once. */
module Safetensors {
  import opened Sha256Fips
  import opened ObjectStore
  import opened Options
  import Cdc

  /** One tensor of the JSON header that carries two data offsets. */
  datatype Entry = Entry(name: string, start: nat, end: nat)

  datatype Layer = Layer(name: string, absStart: nat, size: nat)

  /** The parsed header, or None where the JSON parser throws. */
  type Parser = seq<byte> -> Option<seq<Entry>>

  type Sorter = seq<Layer> -> seq<Layer>

  const HEADER := "__header__"

  // ---------- the layer table ----------

  ghost predicate Sorted(layers: seq<Layer>) {
    forall i, j :: 0 <= i < j < |layers| ==> layers[i].absStart <= layers[j].absStart
  }

  /** std::sort by start: some rearrangement in ascending order, always the same one. */
  ghost predicate Sorts(sort: Sorter) {
    forall layers: seq<Layer> :: Sorted(sort(layers)) && multiset(sort(layers)) == multiset(layers)
  }

  /** The 64-bit little-endian header length. */
  function LittleEndianValue(b: seq<byte>): nat {
    if b == [] then 0 else b[0] as nat + 256 * LittleEndianValue(b[1..])
  }

  predicate BadEntry(e: Entry, base: nat, total: nat) { e.end < e.start || base + e.end > total }

  function LayerOf(e: Entry, base: nat): Layer
    requires e.start <= e.end
  {
    Layer(e.name, base + e.start, e.end - e.start)
  }

  /** The header pseudo-layer followed by the tensors, or the first bad entry's error. */
  function Table(entries: seq<Entry>, base: nat, total: nat): Result<seq<Layer>> {
    if entries == [] then Ok([Layer(HEADER, 0, base)])
    else
      var n := |entries| - 1;
      match Table(entries[..n], base, total)
      case Err(e) => Err(e)
      case Ok(layers) => if BadEntry(entries[n], base, total) then Err(BadLayer)
        else Ok(layers + [LayerOf(entries[n], base)])
  }

  /** What both stagers make of the header: `total` is the size the file system reported before the read. */
  function ReadTable(content: seq<byte>, total: nat, parse: Parser, sort: Sorter): Result<seq<Layer>> {
    if total < 8 then Err(NotSafetensors)
    else if |content| < 8 then Err(BadHeader)
    else
      var n := LittleEndianValue(content[..8]);
      if n > total - 8 || |content| < 8 + n then Err(BadHeader)
      else
        match parse(content[8..8 + n])
        case None => Err(BadHeader)
        case Some(entries) =>
          match Table(entries, 8 + n, total)
          case Err(e) => Err(e)
          case Ok(layers) => Ok(sort(layers))
  }

  function HeaderSize(content: seq<byte>): nat
    requires |content| >= 8
  {
    8 + LittleEndianValue(content[..8])
  }

  lemma {:induction false} TableFacts(entries: seq<Entry>, base: nat, total: nat)
    requires Table(entries, base, total).Ok? && base <= total
    ensures var layers := Table(entries, base, total).value;
      |layers| == |entries| + 1 && layers[0] == Layer(HEADER, 0, base) &&
      forall i :: 1 <= i < |layers| ==> base <= layers[i].absStart && layers[i].absStart + layers[i].size <= total
  {
    if entries != [] {
      TableFacts(entries[..|entries| - 1], base, total);
    }
  }

  /** A rearrangement in ascending order keeps the one layer that starts at zero in front. */
  lemma SmallestStaysFirst(table: seq<Layer>, layers: seq<Layer>)
    requires |table| > 0 && multiset(layers) == multiset(table) && Sorted(layers)
    requires table[0].absStart == 0 && forall l <- table[1..] :: l.absStart > 0
    ensures |layers| == |table| && layers[0] == table[0] && multiset(layers[1..]) == multiset(table[1..])
  {
    assert |multiset(layers)| == |layers| && |multiset(table)| == |table|;
    var header := table[0];
    assert header in multiset(layers);
    var k :| 0 <= k < |layers| && layers[k] == header;
    assert layers[0].absStart <= layers[k].absStart;
    assert layers[0] in multiset(table);
    assert table == [header] + table[1..];
    assert forall l <- table :: l == header || l.absStart > 0;
    assert layers[0] in table;
    assert layers == [header] + layers[1..];
    assert multiset(layers[1..]) == multiset(layers) - multiset{header};
    assert multiset(table[1..]) == multiset(table) - multiset{header};
  }

  ghost predicate WellPlaced(layers: seq<Layer>, base: nat, total: nat) {
    |layers| > 0 && layers[0] == Layer(HEADER, 0, base) && Sorted(layers) &&
    forall l <- layers[1..] :: base <= l.absStart && l.absStart + l.size <= total
  }

  /** The walk starts at the second layer because the first one, once sorted, is the header. */
  lemma HeaderComesFirst(content: seq<byte>, total: nat, parse: Parser, sort: Sorter)
    requires Sorts(sort) && ReadTable(content, total, parse, sort).Ok?
    ensures 8 <= HeaderSize(content) <= total && HeaderSize(content) <= |content|
    ensures WellPlaced(ReadTable(content, total, parse, sort).value, HeaderSize(content), total)
  {
    var base := HeaderSize(content);
    var table := Table(parse(content[8..base]).value, base, total).value;
    var layers := sort(table);
    TableFacts(parse(content[8..base]).value, base, total);
    SmallestStaysFirst(table, layers);
    forall l | l in layers[1..]
      ensures base <= l.absStart && l.absStart + l.size <= total
    {
      assert l in multiset(table[1..]);
      var j :| 0 <= j < |table[1..]| && table[1..][j] == l;
      assert l == table[j + 1];
    }
  }

  /** The bytes of a layer. */
  function Slice(content: seq<byte>, l: Layer): seq<byte> {
    if l.absStart + l.size <= |content| then content[l.absStart..l.absStart + l.size] else []
  }

  function Slices(content: seq<byte>, layers: seq<Layer>): (s: seq<seq<byte>>)
    ensures |s| == |layers| && forall i :: 0 <= i < |layers| ==> s[i] == Slice(content, layers[i])
  {
    seq(|layers|, i requires 0 <= i < |layers| => Slice(content, layers[i]))
  }

  // ---------- the length prefix ----------

  ghost function Power256(k: nat): (p: nat)
    ensures p > 0
  {
    if k == 0 then 1 else 256 * Power256(k - 1)
  }

  /** Byte i is the i-th digit of the number in base 256, the lowest first. */
  ghost predicate Holds(b: seq<byte>, n: nat) {
    n < Power256(|b|) && forall i :: 0 <= i < |b| ==> b[i] as nat == n / Power256(i) % 256
  }

  lemma DivideTwice(n: nat, p: nat)
    requires p > 0
    ensures n / 256 / p == n / (256 * p)
  {
    var q := n / 256 / p;
    var r, s := n / 256 % p, n % 256;
    assert n == 256 * (p * q + r) + s;
    assert n == (256 * p) * q + (256 * r + s);
    Cdc.RemainderUnique(n, 256 * p, q, 256 * r + s);
  }

  lemma HoldsRest(b: seq<byte>, n: nat)
    requires b != []
    ensures Holds(b, n) <==> b[0] as nat == n % 256 && Holds(b[1..], n / 256)
  {
    assert Power256(0) == 1;
    forall i: nat ensures n / Power256(i + 1) == n / 256 / Power256(i) { DivideTwice(n, Power256(i)); }
    assert forall i :: 0 <= i < |b| - 1 ==> b[1..][i] == b[i + 1];
  }

  /** The bytes hold exactly the number that is read from them. */
  lemma {:induction false} LengthInverts(b: seq<byte>, n: nat)
    ensures LittleEndianValue(b) == n <==> Holds(b, n)
  {
    if b != [] {
      HoldsRest(b, n);
      LengthInverts(b[1..], n / 256);
    }
  }

  ghost predicate Misplaced(entries: seq<Entry>, base: nat, total: nat) {
    exists e <- entries :: e.end < e.start || base + e.end > total
  }

  function Placed(entries: seq<Entry>, base: nat): seq<Layer>
    requires forall e <- entries :: e.start <= e.end
  {
    seq(|entries|, i requires 0 <= i < |entries| =>
      Layer(entries[i].name, base + entries[i].start, entries[i].end - entries[i].start))
  }

  lemma MisplacedNext(entries: seq<Entry>, last: Entry, base: nat, total: nat)
    ensures Misplaced(entries + [last], base, total) <==>
      Misplaced(entries, base, total) || last.end < last.start || base + last.end > total
  {
    assert (entries + [last])[|entries|] == last;
    if e :| e in entries && (e.end < e.start || base + e.end > total) {
      assert e in entries + [last];
    }
  }

  lemma PlacedNext(entries: seq<Entry>, last: Entry, base: nat)
    requires (forall e <- entries :: e.start <= e.end) && last.start <= last.end
    ensures (forall e <- entries + [last] :: e.start <= e.end) &&
      Placed(entries + [last], base) ==
        Placed(entries, base) + [Layer(last.name, base + last.start, last.end - last.start)]
  {
  }

  lemma {:induction false} TableIs(entries: seq<Entry>, base: nat, total: nat)
    ensures Table(entries, base, total) ==
      if Misplaced(entries, base, total) then Err(BadLayer)
      else Ok([Layer("__header__", 0, base)] + Placed(entries, base))
  {
    var header := [Layer("__header__", 0, base)];
    if entries != [] {
      var init, last := entries[..|entries| - 1], entries[|entries| - 1];
      TableIs(init, base, total);
      assert entries == init + [last];
      MisplacedNext(init, last, base, total);
      if !Misplaced(entries, base, total) {
        PlacedNext(init, last, base);
        assert (header + Placed(init, base)) + [LayerOf(last, base)] ==
          header + (Placed(init, base) + [LayerOf(last, base)]);
      }
    } else {
      assert header + Placed(entries, base) == header;
    }
  }

  lemma PrefixRead(prefix: seq<byte>, json: seq<byte>, rest: seq<byte>)
    requires |prefix| == 8 && Holds(prefix, |json|)
    ensures var content := prefix + json + rest;
      HeaderSize(content) == 8 + |json| && content[8..8 + |json|] == json
  {
    LengthInverts(prefix, |json|);
    assert (prefix + json + rest)[..8] == prefix;
  }

  /** A file made of a length prefix, that many header bytes and any rest is read as such: the parser gets exactly
      those bytes, and every entry within the file becomes a layer behind prefix and header. */
  lemma PrefixedFileIsRead(prefix: seq<byte>, json: seq<byte>, rest: seq<byte>, parse: Parser, sort: Sorter)
    requires |prefix| == 8 && Holds(prefix, |json|)
    ensures var content, base := prefix + json + rest, 8 + |json|;
      ReadTable(content, |content|, parse, sort) ==
        match parse(json)
        case None => Err(BadHeader)
        case Some(entries) =>
          if Misplaced(entries, base, |content|) then Err(BadLayer)
          else Ok(sort([Layer("__header__", 0, base)] + Placed(entries, base)))
  {
    PrefixRead(prefix, json, rest);
    if parse(json) != None {
      TableIs(parse(json).value, 8 + |json|, 8 + |json| + |rest|);
    }
  }

  // ---------- reading the header ----------

  lemma {:induction false} FirstErrorStays(entries: seq<Entry>, n: nat, base: nat, total: nat)
    requires n <= |entries| && Table(entries[..n], base, total) == Err(BadLayer)
    ensures Table(entries, base, total) == Err(BadLayer)
  {
    if n == |entries| {
      assert entries[..n] == entries;
    } else {
      var shorter := entries[..|entries| - 1];
      assert shorter[..n] == entries[..n];
      FirstErrorStays(shorter, n, base, total);
    }
  }

  /** The loop over the header's items. */
  method BuildTable(entries: seq<Entry>, base: nat, total: nat) returns (r: Result<seq<Layer>>)
    ensures r == Table(entries, base, total)
  {
    var layers := [Layer(HEADER, 0, base)];
    for i := 0 to |entries|
      invariant Table(entries[..i], base, total) == Ok(layers)
    {
      var e := entries[i];
      assert entries[..i + 1][..i] == entries[..i];
      if e.end < e.start || base + e.end > total {
        assert Table(entries[..i + 1], base, total) == Err(BadLayer);
        FirstErrorStays(entries, i + 1, base, total);
        return Err(BadLayer);
      }
      layers := layers + [Layer(e.name, base + e.start, e.end - e.start)];
    }
    assert entries[..|entries|] == entries;
    return Ok(layers);
  }

  /** The eight bytes as a little-endian machine holds them in an integer. */
  method ReadLength(b: seq<byte>) returns (n: nat)
    ensures n == LittleEndianValue(b)
  {
    n := 0;
    var i := |b|;
    while i > 0
      invariant 0 <= i <= |b| && n == LittleEndianValue(b[i..])
    {
      i := i - 1;
      assert b[i..][1..] == b[i + 1..];
      n := 256 * n + b[i] as nat;
    }
    assert b[0..] == b;
  }

  method ReadLayers(file: Input, total: nat, parse: Parser, sort: Sorter)
    returns (raw: seq<byte>, r: Result<seq<Layer>>)
    requires file.at == 0
    modifies file
    ensures r == ReadTable(file.content, total, parse, sort)
    ensures r.Ok? ==> file.at == |raw| <= |file.content| && raw == file.content[..|raw|]
    ensures r.Ok? ==> |raw| == HeaderSize(file.content)
  {
    raw := [];
    if total < 8 {
      return raw, Err(NotSafetensors);
    }
    var length := file.Read(8);
    if |length| != 8 {
      return raw, Err(BadHeader);
    }
    var headerSize := ReadLength(length);
    if headerSize > total - 8 {
      return raw, Err(BadHeader);
    }
    var base := 8 + headerSize;
    var json := file.Read(headerSize);
    if |json| != headerSize {
      return raw, Err(BadHeader);
    }
    raw := length + json;
    var header := parse(json);
    if header.None? {
      return raw, Err(BadHeader);
    }
    var table := BuildTable(header.value, base, total);
    r := if table.Ok? then Ok(sort(table.value)) else table;
  }

  // ---------- the per-layer stager ----------

  datatype LayerResult = LayerResult(name: string, hash: string, size: nat, offset: nat)

  function ResultOf(l: Layer, content: seq<byte>, hash: Digest): LayerResult {
    LayerResult(l.name, hash(Slice(content, l)), l.size, l.absStart)
  }

  predicate Readable(content: seq<byte>, l: Layer) { l.size == 0 || l.absStart + l.size <= |content| }

  /** One task: the digest of one layer, from its own file handle. */
  method HashLayer(content: seq<byte>, l: Layer, hash: Digest, bufSize: nat) returns (r: Result<LayerResult>)
    requires bufSize > 0
    ensures r == if Readable(content, l) then Ok(ResultOf(l, content, hash)) else Err(Truncated)
  {
    var file := new Input(content);
    // a seek past the end makes every read empty
    file.at := if l.absStart <= |content| then l.absStart else |content|;
    var from := file.at;
    var sha := new Hashing(hash);
    var remaining := l.size;
    while remaining > 0
      invariant file.content == content && from <= file.at <= |content| && 0 <= remaining &&
        remaining + (file.at - from) == l.size
      invariant sha.hash == hash && sha.fed == content[from..file.at]
    {
      var piece := file.Read(if bufSize < remaining then bufSize else remaining);
      if |piece| == 0 {
        break;
      }
      sha.Update(piece);
      remaining := remaining - |piece|;
    }
    if remaining > 0 {
      return Err(Truncated);
    }
    var text := sha.HexDigest();
    assert file.at == from + l.size;
    if l.absStart <= |content| {
      assert sha.fed == content[l.absStart..l.absStart + l.size];
    }
    return Ok(LayerResult(l.name, text, l.size, l.absStart));
  }

  ghost function ResultsOf(layers: seq<Layer>, content: seq<byte>, hash: Digest): seq<LayerResult> {
    seq(|layers|, i requires 0 <= i < |layers| => ResultOf(layers[i], content, hash))
  }

  /** What comes of hashing all layers: every result, or the error of a layer that is cut off. */
  ghost function Hashed(layers: seq<Layer>, content: seq<byte>, hash: Digest): Result<seq<LayerResult>> {
    if forall l <- layers :: Readable(content, l) then Ok(ResultsOf(layers, content, hash)) else Err(Truncated)
  }

  /** What the per-layer stager returns. */
  ghost function SplitResult(content: seq<byte>, total: nat, parse: Parser, sort: Sorter, hash: Digest)
    : Result<seq<LayerResult>>
  {
    match ReadTable(content, total, parse, sort)
    case Err(e) => Err(e)
    case Ok(layers) => Hashed(layers, content, hash)
  }

  /** split_and_hash_safetensors_core */
  method SplitAndHash(content: seq<byte>, total: nat, parse: Parser, sort: Sorter, hash: Digest, bufSize: nat)
    returns (r: Result<seq<LayerResult>>)
    requires bufSize > 0
    ensures r == SplitResult(content, total, parse, sort, hash)
  {
    var file := new Input(content);
    var _, table := ReadLayers(file, total, parse, sort);
    if table.Err? {
      return Err(table.error);
    }
    var layers := table.value;
    var results: seq<LayerResult> := [];
    for i := 0 to |layers|
      invariant |results| == i && forall j :: 0 <= j < i ==> Readable(content, layers[j])
      invariant forall j :: 0 <= j < i ==> results[j] == ResultOf(layers[j], content, hash)
    {
      var one := HashLayer(content, layers[i], hash, bufSize);
      if one.Err? {
        assert !Readable(content, layers[i]);
        return Err(one.error);
      }
      results := results + [one.value];
    }
    assert results == ResultsOf(layers, content, hash);
    return Ok(results);
  }

  // ---------- the fused stager ----------

  predicate Overlapping(layers: seq<Layer>) {
    exists i :: 0 <= i < |layers| - 1 && layers[i + 1].absStart < layers[i].absStart + layers[i].size
  }

  ghost function PartAt(layers: seq<Layer>, content: seq<byte>, hash: Digest, objects: Objects, i: nat): StagedPart
    requires i < |layers|
  {
    var l := layers[i];
    StagedPart(l.name, hash(Slice(content, l)), l.size, l.absStart, IsNew(objects, hash, Slices(content, layers), i))
  }

  ghost function PartsOf(layers: seq<Layer>, content: seq<byte>, hash: Digest, objects: Objects): (p: seq<StagedPart>)
    ensures |p| == |layers| && forall i :: 0 <= i < |layers| ==> p[i] == PartAt(layers, content, hash, objects, i)
  {
    seq(|layers|, i requires 0 <= i < |layers| => PartAt(layers, content, hash, objects, i))
  }

  lemma OneMoreWritten(layers: seq<Layer>, content: seq<byte>, hash: Digest, objects: Objects, n: nat)
    requires n < |layers|
    ensures var part := PartAt(layers, content, hash, objects, n);
      BytesWritten(objects, hash, Slices(content, layers)[..n + 1]) ==
        BytesWritten(objects, hash, Slices(content, layers)[..n]) + if part.written then |Slice(content, layers[n])|
          else 0
  {
    OneMore(objects, hash, Slices(content, layers), n);
  }

  lemma NextOf<T>(s: seq<T>, n: nat)
    requires n < |s|
    ensures s[..n + 1] == s[..n] + [s[n]]
  {
  }

  /** How far a failed run got: the first n layers are in the store, and no temporary file is left. */
  ghost predicate PartlyStaged(directory: Directory, before: Objects, temps: map<nat, seq<byte>>, content: seq<byte>,
                               layers: seq<Layer>)
    reads directory
  {
    directory.temps == temps &&
    exists n :: 0 <= n <= |layers| && directory.objects == PutAll(before, directory.hash, Slices(content, layers)[..n])
  }

  /** What a successful run has done. */
  ghost predicate Staged(directory: Directory, before: Objects, temps: map<nat, seq<byte>>, content: seq<byte>,
                         total: nat,
                         layers: seq<Layer>, result: StageResult)
    reads directory
  {
    total <= |content| && result.wholeHash == directory.hash(content[..total]) &&
    result.parts == PartsOf(layers, content, directory.hash, before) &&
    result.bytesWritten == BytesWritten(before, directory.hash, Slices(content, layers)) &&
    directory.objects == PutAll(before, directory.hash, Slices(content, layers)) &&
    directory.temps == temps
  }

  /** The variables the lambdas of the fused stager share. */
  class Walk {
    const file: Input
    const directory: Directory
    const whole: Hashing
    var parts: seq<StagedPart>
    var bytesWritten: nat
    ghost const layers: seq<Layer>
    ghost const before: Objects
    ghost const temps: map<nat, seq<byte>>

    /** Everything before the stream position is in the whole-file hash. */
    ghost predicate Streaming()
      reads this, file, whole
    {
      file.at <= |file.content| && whole.fed == file.content[..file.at]
    }

    /** The walk stops only at the end of a short file, or when the file system fails. */
    predicate Expected(error: Option<Error>) {
      error == None || error == Some(Truncated) || (error == Some(Io) && !directory.reliable)
    }

    /** The first n layers have been published and recorded. */
    ghost predicate Recorded(n: nat)
      reads this, directory
    {
      n <= |layers| &&
      parts == PartsOf(layers, file.content, directory.hash, before)[..n] &&
      directory.objects == PutAll(before, directory.hash, Slices(file.content, layers)[..n]) &&
      bytesWritten == BytesWritten(before, directory.hash, Slices(file.content, layers)[..n]) &&
      directory.temps == temps
    }

    constructor (file: Input, directory: Directory, ghost layers: seq<Layer>)
      ensures this.file == file && this.directory == directory && this.layers == layers
      ensures before == directory.objects && temps == directory.temps
      ensures fresh(whole) && whole.hash == directory.hash && whole.fed == [] && Recorded(0)
    {
      this.file, this.directory, this.layers := file, directory, layers;
      whole := new Hashing(directory.hash);
      parts, bytesWritten := [], 0;
      before, temps := directory.objects, directory.temps;
    }

    /** Bytes of no layer, up to `target`. */
    method ConsumeGap(target: nat, bufSize: nat) returns (ok: bool)
      requires Streaming() && file.at <= target && bufSize > 0
      modifies file, whole
      ensures Streaming() && ok == (target <= |file.content|)
      ensures ok ==> file.at == target
      ensures file.at >= old(file.at)
    {
      var remaining := target - file.at;
      while remaining > 0
        invariant Streaming() && 0 <= remaining && file.at + remaining == target
      {
        var piece := file.Read(if bufSize < remaining then bufSize else remaining);
        if |piece| == 0 {
          return false;
        }
        whole.Update(piece);
        remaining := remaining - |piece|;
      }
      return true;
    }

    /** The entry for a published layer. */
    method Record(part: StagedPart, ghost n: nat)
      requires n < |layers| && part == PartAt(layers, file.content, directory.hash, before, n)
      requires |Slice(file.content, layers[n])| == part.size
      requires parts == PartsOf(layers, file.content, directory.hash, before)[..n]
      requires bytesWritten == BytesWritten(before, directory.hash, Slices(file.content, layers)[..n])
      modifies this`parts, this`bytesWritten
      ensures parts == PartsOf(layers, file.content, directory.hash, before)[..n + 1]
      ensures bytesWritten == BytesWritten(before, directory.hash, Slices(file.content, layers)[..n + 1])
    {
      OneMoreWritten(layers, file.content, directory.hash, before, n);
      NextOf(PartsOf(layers, file.content, directory.hash, before), n);
      if part.written {
        bytesWritten := bytesWritten + part.size;
      }
      parts := parts + [part];
    }

    /** The temporary file of a layer over the cap, holding `written`; without one, the bytes are in memory. */
    ghost predicate Buffered(streamToDisk: bool, tmp: nat, mem: seq<byte>, written: seq<byte>)
      reads this, directory
    {
      if streamToDisk then tmp !in temps && directory.temps == temps[tmp := written]
      else mem == written && directory.temps == temps
    }

    /** The bytes of one layer go to both hashes, and to memory or to the temporary file. */
    method ReadLayer(l: Layer, streamToDisk: bool, tmp: nat, bufSize: nat)
      returns (error: Option<Error>, text: string, mem: seq<byte>)
      requires Streaming() && file.at == l.absStart && bufSize > 0 && Buffered(streamToDisk, tmp, [], [])
      modifies file, whole, directory`temps
      ensures error == None ==> Streaming() && file.at == l.absStart + l.size
      ensures error == None ==> text == directory.hash(Slice(file.content, l))
      ensures error == None ==> Buffered(streamToDisk, tmp, mem, Slice(file.content, l))
      ensures error != None ==> directory.temps == temps
      ensures error == Some(Truncated) ==> l.absStart + l.size > |file.content|
      ensures Expected(error)
    {
      var layerSha := new Hashing(directory.hash);
      var remaining := l.size;
      mem := [];
      while remaining > 0
        invariant Streaming() && 0 <= remaining && l.absStart <= file.at && file.at + remaining == l.absStart + l.size
        invariant layerSha.hash == directory.hash && layerSha.fed == file.content[l.absStart..file.at]
        invariant Buffered(streamToDisk, tmp, mem, file.content[l.absStart..file.at])
      {
        ghost var from := file.at;
        var piece := file.Read(if bufSize < remaining then bufSize else remaining);
        if |piece| == 0 {
          DropTemp(streamToDisk, tmp, mem, file.content[l.absStart..from]);
          return Some(Truncated), "", [];
        }
        assert file.content[l.absStart..file.at] == file.content[l.absStart..from] + piece;
        whole.Update(piece);
        layerSha.Update(piece);
        var wrote;
        wrote, mem := Keep(streamToDisk, tmp, mem, piece, file.content[l.absStart..from]);
        if !wrote {
          return Some(Io), "", [];
        }
        remaining := remaining - |piece|;
      }
      text := layerSha.HexDigest();
      return None, text, mem;
    }

    /** One piece goes to memory, or to the temporary file, where writing it may fail. */
    method Keep(streamToDisk: bool, tmp: nat, mem: seq<byte>, piece: seq<byte>, ghost written: seq<byte>)
      returns (ok: bool, newMem: seq<byte>)
      requires Buffered(streamToDisk, tmp, mem, written)
      modifies directory`temps
      ensures ok ==> Buffered(streamToDisk, tmp, newMem, written + piece)
      ensures !ok ==> directory.temps == temps && !directory.reliable
    {
      newMem := mem;
      if streamToDisk {
        var wrote := directory.Operate();
        if !wrote {
          DropTemp(streamToDisk, tmp, mem, written);
          return false, mem;
        }
        directory.temps := directory.temps[tmp := directory.temps[tmp] + piece];
      } else {
        newMem := mem + piece;
      }
      ok := true;
    }

    method DropTemp(streamToDisk: bool, tmp: nat, ghost mem: seq<byte>, ghost written: seq<byte>)
      requires Buffered(streamToDisk, tmp, mem, written)
      modifies directory`temps
      ensures directory.temps == temps
    {
      if streamToDisk {
        directory.temps := directory.temps - {tmp};
      }
    }

    /** Publishes a complete layer, from memory or by renaming its temporary file. */
    method PublishLayer(streamToDisk: bool, tmp: nat, mem: seq<byte>, text: string, ghost content: seq<byte>)
      returns (r: Result<bool>)
      requires Buffered(streamToDisk, tmp, mem, content) && text == directory.hash(content)
      modifies directory
      ensures directory.temps == temps
      ensures r.Ok? ==> r.value == (text !in old(directory.objects))
      ensures r.Ok? ==> directory.objects == Put(old(directory.objects), directory.hash, content)
      ensures r.Err? ==> directory.objects == old(directory.objects) && !directory.reliable
    {
      if !streamToDisk {
        r := directory.Publish(text, mem);
      } else if text in directory.objects {
        directory.temps := directory.temps - {tmp};
        return Ok(false);
      } else {
        var renamed := directory.Operate();
        r := directory.Rename(tmp, text, renamed);
      }
    }

    /** consume_layer */
    method ConsumeLayer(l: Layer, cap: nat, bufSize: nat, ghost n: nat) returns (error: Option<Error>)
      requires Streaming() && file.at == l.absStart && bufSize > 0
      requires Recorded(n) && n < |layers| && layers[n] == l
      modifies this`parts, this`bytesWritten, file, whole, directory
      ensures error == None ==> Streaming() && file.at == l.absStart + l.size && Recorded(n + 1)
      ensures error != None ==> Recorded0(n)
      ensures error == Some(Truncated) ==> l.absStart + l.size > |file.content|
      ensures Expected(error)
    {
      var streamToDisk := l.size > cap;
      var tmp := 0;
      if streamToDisk {
        var created := directory.Operate();
        if !created {
          return Some(Io);
        }
        FreshName(directory.temps.Keys);
        tmp :| tmp !in directory.temps;
        directory.temps := directory.temps[tmp := []];
      }
      var text, mem;
      error, text, mem := ReadLayer(l, streamToDisk, tmp, bufSize);
      if error != None {
        return;
      }
      ghost var content := Slice(file.content, l);
      var r := PublishLayer(streamToDisk, tmp, mem, text, content);
      if r.Err? {
        return Some(Io);
      }
      OneMore(before, directory.hash, Slices(file.content, layers), n);
      Record(StagedPart(l.name, text, l.size, l.absStart, r.value), n);
      return None;
    }

    /** The "__header__" layer, from the bytes already in memory. */
    method Header(raw: seq<byte>) returns (ok: bool)
      requires Recorded(0) && whole.hash == directory.hash && whole.fed == []
      requires file.at == |raw| <= |file.content| && raw == file.content[..|raw|]
      requires |layers| > 0 && layers[0] == Layer(HEADER, 0, |raw|)
      modifies this`parts, this`bytesWritten, whole, directory
      ensures ok ==> Streaming() && Recorded(1)
      ensures !ok ==> Recorded0(0) && !directory.reliable
    {
      whole.Update(raw);
      var headerSha := new Hashing(directory.hash);
      headerSha.Update(raw);
      var text := headerSha.HexDigest();
      assert headerSha.fed == raw == Slice(file.content, layers[0]);
      var r := directory.Publish(text, raw);
      if r.Err? {
        return false;
      }
      OneMore(before, directory.hash, Slices(file.content, layers), 0);
      Record(StagedPart(HEADER, text, |raw|, 0, r.value), 0);
      return true;
    }

    /** The layers after the header, each with the gap before it. */
    method Layers(table: seq<Layer>, total: nat, cap: nat, bufSize: nat) returns (error: Option<Error>)
      requires Streaming() && Recorded(1) && bufSize > 0 && file.at <= total
      requires table == layers && WellPlaced(layers, file.at, total) && !Overlapping(layers)
      modifies this`parts, this`bytesWritten, file, whole, directory
      ensures error == None ==> Streaming() && Recorded(|layers|) && file.at <= total
      ensures error != None ==> PartlyStaged(directory, before, temps, file.content, layers)
      ensures error == Some(Truncated) ==> total > |file.content|
      ensures Expected(error)
    {
      var cursor := file.at;
      for i := 1 to |table|
        invariant Streaming() && Recorded(i) && file.at == cursor <= total
        invariant cursor == layers[i - 1].absStart + layers[i - 1].size
      {
        var layer := table[i];
        assert layer in layers[1..];
        assert layers[i - 1 + 1].absStart >= layers[i - 1].absStart + layers[i - 1].size;
        if layer.absStart > cursor {
          var ok := ConsumeGap(layer.absStart, bufSize);
          if !ok {
            return Some(Truncated);
          }
        }
        error := ConsumeLayer(layer, cap, bufSize, i);
        if error != None {
          return;
        }
        cursor := layer.absStart + layer.size;
      }
      error := None;
    }

    /** From the header to the end of the file. */
    method Run(raw: seq<byte>, table: seq<Layer>, total: nat, cap: nat, bufSize: nat) returns (r: Result<StageResult>)
      requires Recorded(0) && whole.hash == directory.hash && whole.fed == [] && bufSize > 0
      requires file.at == |raw| <= |file.content| && raw == file.content[..|raw|] && |raw| <= total
      requires table == layers && WellPlaced(layers, |raw|, total) && !Overlapping(layers)
      modifies this, file, whole, directory
      ensures r.Ok? ==> Staged(directory, before, temps, file.content, total, layers, r.value)
      ensures r.Err? ==> PartlyStaged(directory, before, temps, file.content, layers)
      ensures r == Err(Io) || (r.Ok? <==> total <= |file.content|)
      ensures r.Err? ==> Expected(Some(r.error))
    {
      var ok := Header(raw);
      if !ok {
        assert Slices(file.content, layers)[..0] == [];
        return Err(Io);
      }
      var error := Layers(table, total, cap, bufSize);
      if error == None {
        r := Finish(total, bufSize);
      } else {
        r := Err(error.value);
      }
    }

    /** The bytes after the last layer. */
    method Finish(total: nat, bufSize: nat) returns (r: Result<StageResult>)
      requires Streaming() && Recorded(|layers|) && file.at <= total && bufSize > 0 && whole.hash == directory.hash
      modifies file, whole
      ensures r.Ok? ==> Staged(directory, before, temps, file.content, total, layers, r.value)
      ensures r.Err? ==> PartlyStaged(directory, before, temps, file.content, layers)
      ensures r.Ok? <==> total <= |file.content|
      ensures r.Err? ==> r.error == Truncated
    {
      ghost var contents := Slices(file.content, layers);
      assert contents[..|layers|] == contents;
      var ok := true;
      if file.at < total {
        ok := ConsumeGap(total, bufSize);
      }
      var text := whole.HexDigest();
      r := if ok then Ok(StageResult(text, parts, bytesWritten)) else Err(Truncated);
    }

    /** What a failure leaves: the first n layers, and no temporary file. */
    ghost predicate Recorded0(n: nat)
      reads this, directory
    {
      n <= |layers| && directory.objects == PutAll(before, directory.hash, Slices(file.content, layers)[..n]) &&
        directory.temps == temps
    }
  }

  /** stage_safetensors_core_parts_only: header, layers and gaps in one walk. On a
      reliable file system it succeeds on exactly the tables without overlaps over files that are not truncated. */
  method Stage(content: seq<byte>, total: nat, directory: Directory, cap: nat, parse: Parser, sort: Sorter,
               bufSize: nat)
    returns (r: Result<StageResult>)
    requires Sorts(sort) && bufSize > 0
    modifies directory
    ensures var table := ReadTable(content, total, parse, sort);
      if table.Err? then r == Err(table.error) && unchanged(directory)
      else if Overlapping(table.value) then r == Err(Overlap) && unchanged(directory)
      else
        (r.Ok? ==> Staged(directory, old(directory.objects), old(directory.temps), content, total, table.value,
          r.value)) &&
        (r.Err? ==> PartlyStaged(directory, old(directory.objects), old(directory.temps), content, table.value)) &&
        (r == Err(Io) ==> !directory.reliable) && (r.Err? ==> r.error in {Io, Truncated}) &&
        (r == Err(Io) || (r.Ok? <==> total <= |content|))
  {
    var file := new Input(content);
    var raw, table := ReadLayers(file, total, parse, sort);
    if table.Err? {
      return Err(table.error);
    }
    var layers := table.value;
    HeaderComesFirst(content, total, parse, sort);
    for i := 0 to |layers| - 1
      invariant forall j :: 0 <= j < i ==> layers[j].absStart + layers[j].size <= layers[j + 1].absStart
    {
      if layers[i + 1].absStart < layers[i].absStart + layers[i].size {
        return Err(Overlap);
      }
    }
    assert !Overlapping(layers);
    var walk := new Walk(file, directory, layers);
    r := walk.Run(raw, layers, total, cap, bufSize);
  }

  // ---------- the two stagers compared ----------

  function Forget(part: StagedPart): LayerResult { LayerResult(part.name, part.hash, part.size, part.offset) }

  function Forgotten(parts: seq<StagedPart>): (r: seq<LayerResult>)
    ensures |r| == |parts| && forall i :: 0 <= i < |parts| ==> r[i] == Forget(parts[i])
  {
    seq(|parts|, i requires 0 <= i < |parts| => Forget(parts[i]))
  }

  /** Wherever the fused stager can succeed the per-layer stager succeeds too, with the same names,
      hashes, sizes and offsets in the same order. */
  lemma StagersAgree(content: seq<byte>, total: nat, parse: Parser, sort: Sorter, hash: Digest, objects: Objects)
    requires Sorts(sort) && ReadTable(content, total, parse, sort).Ok? && total <= |content|
    ensures var table := ReadTable(content, total, parse, sort).value;
      SplitResult(content, total, parse, sort, hash) == Ok(Forgotten(PartsOf(table, content, hash, objects)))
  {
    var layers := ReadTable(content, total, parse, sort).value;
    HeaderComesFirst(content, total, parse, sort);
    assert layers == [layers[0]] + layers[1..];
    assert forall l <- layers :: Readable(content, l);
    assert Forgotten(PartsOf(layers, content, hash, objects)) == ResultsOf(layers, content, hash);
  }

  /** Both stagers on one file, with any buffer sizes and cap: where the fused one returns, the other returns its
      layers; it refuses more only where it finds an overlap, a truncated file or a failing file system. */
  method StageBothWays(content: seq<byte>, total: nat, directory: Directory, cap: nat, parse: Parser, sort: Sorter,
                       splitBuf: nat, fusedBuf: nat)
    returns (split: Result<seq<LayerResult>>, fused: Result<StageResult>)
    requires Sorts(sort) && splitBuf > 0 && fusedBuf > 0
    modifies directory
    ensures fused.Ok? ==> split == Ok(Forgotten(fused.value.parts))
    ensures fused.Ok? ==> total <= |content| && fused.value.wholeHash == directory.hash(content[..total])
    ensures split.Ok? && fused.Err? ==>
      fused.error in {Overlap, Truncated} || (fused.error == Io && !directory.reliable)
    ensures split.Err? && split.error != Truncated ==> fused == Err(split.error)
  {
    split := SplitAndHash(content, total, parse, sort, directory.hash, splitBuf);
    ghost var before := directory.objects;
    fused := Stage(content, total, directory, cap, parse, sort, fusedBuf);
    if fused.Ok? {
      StagersAgree(content, total, parse, sort, directory.hash, before);
    }
  }

  // ---------- what the overlap check refuses ----------

  predicate StartsInside(layers: seq<Layer>, i: int, j: int) {
    0 <= i < j < |layers| && layers[j].absStart < layers[i].absStart + layers[i].size
  }

  /** Comparing neighbours suffices: the check fails exactly when some layer starts inside an earlier one. */
  lemma NeighbourCheckSuffices(layers: seq<Layer>)
    requires Sorted(layers)
    ensures Overlapping(layers) <==> exists i, j :: StartsInside(layers, i, j)
  {
    if Overlapping(layers) {
      var i :| 0 <= i < |layers| - 1 && layers[i + 1].absStart < layers[i].absStart + layers[i].size;
      assert StartsInside(layers, i, i + 1);
    }
    if i, j :| StartsInside(layers, i, j) {
      assert layers[i + 1].absStart <= layers[j].absStart;
    }
  }

  predicate Covers(l: Layer, k: nat) { l.absStart <= k < l.absStart + l.size }

  ghost predicate SharesByte(layers: seq<Layer>) {
    exists i, j, k: nat :: 0 <= i < j < |layers| && Covers(layers[i], k) && Covers(layers[j], k)
  }

  /** An empty layer that the sort places after one it starts inside. */
  ghost predicate EmptyInside(layers: seq<Layer>) {
    exists i, j :: StartsInside(layers, i, j) && layers[j].size == 0
  }

  /** The check refuses a file exactly if two layers share a byte or an empty layer is placed after one that it
      starts inside. Without empty layers it is the first alone. */
  lemma OverlapMeans(layers: seq<Layer>)
    requires Sorted(layers)
    ensures Overlapping(layers) <==> SharesByte(layers) || EmptyInside(layers)
    ensures (forall l <- layers :: l.size > 0) ==> (Overlapping(layers) <==> SharesByte(layers))
  {
    NeighbourCheckSuffices(layers);
    if i, j :| StartsInside(layers, i, j) {
      if layers[j].size > 0 {
        assert Covers(layers[i], layers[j].absStart) && Covers(layers[j], layers[j].absStart);
      }
    }
    if SharesByte(layers) {
      var i, j, k: nat :| 0 <= i < j < |layers| && Covers(layers[i], k) && Covers(layers[j], k);
      assert StartsInside(layers, i, j);
    }
  }

  /** No empty layer starts where another layer with bytes starts. */
  predicate NoEmptyTie(layers: seq<Layer>) {
    forall x <- layers, y <- layers :: x.absStart == y.absStart && x.size == 0 ==> y.size == 0
  }

  function Without<T>(s: seq<T>, i: nat): seq<T>
    requires i < |s|
  {
    s[..i] + s[i + 1..]
  }

  lemma WithoutOne<T>(s: seq<T>, i: nat)
    requires i < |s|
    ensures multiset(Without(s, i)) == multiset(s) - multiset{s[i]}
  {
    assert s == s[..i] + [s[i]] + s[i + 1..];
  }

  lemma FoundIn<T>(s: seq<T>, e: T) returns (i: nat)
    requires e in multiset(s)
    ensures i < |s| && s[i] == e
  {
    assert e in s;
    i :| i < |s| && s[i] == e;
  }

  lemma TwoOccurrences<T>(p: seq<T>, q: seq<T>, i: nat, j: nat) returns (x: nat, y: nat)
    requires multiset(p) == multiset(q) && i < j < |p|
    ensures x < |q| && y < |q| && x != y && q[x] == p[i] && q[y] == p[j]
  {
    assert p[i] in multiset(p);
    x := FoundIn(q, p[i]);
    WithoutOne(p, i);
    WithoutOne(q, x);
    assert Without(p, i)[j - 1] == p[j];
    assert p[j] in multiset(Without(p, i));
    var z := FoundIn(Without(q, x), p[j]);
    y := if z < x then z else z + 1;
  }

  lemma VerdictCarries(p: seq<Layer>, q: seq<Layer>)
    requires Sorted(p) && Sorted(q) && multiset(p) == multiset(q) && NoEmptyTie(p) && Overlapping(p)
    ensures Overlapping(q)
  {
    NeighbourCheckSuffices(p);
    NeighbourCheckSuffices(q);
    var i, j :| StartsInside(p, i, j);
    var x, y := TwoOccurrences(p, q, i, j);
    assert p[i] in p && p[j] in p;
    assert StartsInside(q, if x < y then x else y, if x < y then y else x);
  }

  /** Whichever way an unstable sort breaks ties, the verdict is the same, unless an empty layer starts where
      another one with bytes does. */
  lemma VerdictIsStable(p: seq<Layer>, q: seq<Layer>)
    requires Sorted(p) && Sorted(q) && multiset(p) == multiset(q) && NoEmptyTie(p)
    ensures Overlapping(p) <==> Overlapping(q)
  {
    assert forall l :: l in p <==> l in multiset(p);
    assert forall l :: l in q <==> l in multiset(q);
    if Overlapping(p) { VerdictCarries(p, q); }
    if Overlapping(q) { VerdictCarries(q, p); }
  }

  /** Such a tie decides: two layers that share no byte are accepted in one order and refused in the other. */
  lemma TieDecides()
    ensures var empty, full := Layer("a", 10, 0), Layer("b", 10, 5);
      Sorted([empty, full]) && Sorted([full, empty]) && !SharesByte([full, empty]) &&
      !Overlapping([empty, full]) && Overlapping([full, empty])
  {
    var empty, full := Layer("a", 10, 0), Layer("b", 10, 5);
    assert [full, empty][1].absStart < [full, empty][0].absStart + [full, empty][0].size;
    assert Overlapping([full, empty]) by {
      var layers := [full, empty];
      assert layers[0 + 1].absStart < layers[0].absStart + layers[0].size;
    }
  }
}
