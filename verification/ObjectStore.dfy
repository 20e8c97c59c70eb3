/** The content-addressed object directory as one writer at a time sees it: what
    `publish_object_bytes` of src/core.cpp does to it, and what that adds up to. */
module ObjectStore {
  import opened Sha256Fips

  datatype Error = FileNotFound | InvalidChunkSizes | NotSafetensors | BadHeader | BadLayer | Overlap | Truncated | Io

  datatype Result<+T> = Ok(value: T) | Err(error: Error)

  datatype StagedPart = StagedPart(name: string, hash: string, size: nat, offset: nat, written: bool)

  datatype StageResult = StageResult(wholeHash: string, parts: seq<StagedPart>, bytesWritten: nat)

  type Objects = map<string, seq<byte>>
  type Digest = seq<byte> -> string

  // ---------- publishing, on values ----------

  /** The objects after publishing one content: write-once. */
  function Put(objects: Objects, hash: Digest, content: seq<byte>): Objects {
    if hash(content) in objects then objects else objects[hash(content) := content]
  }

  function PutAll(objects: Objects, hash: Digest, contents: seq<seq<byte>>): Objects {
    if contents == [] then objects
      else Put(PutAll(objects, hash, contents[..|contents| - 1]), hash, contents[|contents| - 1])
  }

  /** Publishing the i-th of several contents writes a new object. */
  predicate IsNew(objects: Objects, hash: Digest, contents: seq<seq<byte>>, i: nat)
    requires i < |contents|
  {
    hash(contents[i]) !in PutAll(objects, hash, contents[..i])
  }

  function BytesWritten(objects: Objects, hash: Digest, contents: seq<seq<byte>>): nat {
    if contents == [] then 0
    else
      var n := |contents| - 1;
      BytesWritten(objects, hash, contents[..n]) + if IsNew(objects, hash, contents, n) then |contents[n]| else 0
  }

  /** Every object hashes to its name. */
  ghost predicate Intact(objects: Objects, hash: Digest) {
    forall name <- objects :: hash(objects[name]) == name
  }

  lemma {:induction false} PutAllKeeps(objects: Objects, hash: Digest, contents: seq<seq<byte>>)
    ensures var all := PutAll(objects, hash, contents);
            forall name <- objects :: name in all && all[name] == objects[name]
    ensures forall c <- contents :: hash(c) in PutAll(objects, hash, contents)
    ensures Intact(objects, hash) ==> Intact(PutAll(objects, hash, contents), hash)
  {
    if contents != [] {
      PutAllKeeps(objects, hash, contents[..|contents| - 1]);
      assert contents == contents[..|contents| - 1] + [contents[|contents| - 1]];
    }
  }

  /** The published names are the old ones and the hashes of the contents, and no others. */
  lemma {:induction false} PutAllAddsOnly(objects: Objects, hash: Digest, contents: seq<seq<byte>>, name: string)
    requires name in PutAll(objects, hash, contents) && name !in objects
    ensures var all := PutAll(objects, hash, contents);
      exists i :: 0 <= i < |contents| && hash(contents[i]) == name && all[name] == contents[i]
  {
    var n := |contents| - 1;
    if name in PutAll(objects, hash, contents[..n]) {
      PutAllAddsOnly(objects, hash, contents[..n], name);
    } else {
      assert hash(contents[n]) == name;
    }
  }

  /** Staging the same contents again writes nothing. */
  lemma {:induction false} PutAllAgain(objects: Objects, hash: Digest, contents: seq<seq<byte>>, again: seq<seq<byte>>)
    requires forall c <- again :: c in contents
    ensures var once := PutAll(objects, hash, contents);
      PutAll(once, hash, again) == once && BytesWritten(once, hash, again) == 0
  {
    if again != [] {
      PutAllAgain(objects, hash, contents, again[..|again| - 1]);
      PutAllKeeps(objects, hash, contents);
    }
  }

  lemma OneMore(objects: Objects, hash: Digest, contents: seq<seq<byte>>, n: nat)
    requires n < |contents|
    ensures PutAll(objects, hash, contents[..n + 1]) == Put(PutAll(objects, hash, contents[..n]), hash, contents[n])
    ensures BytesWritten(objects, hash, contents[..n + 1]) ==
      BytesWritten(objects, hash, contents[..n]) + if IsNew(objects, hash, contents, n) then |contents[n]| else 0
  {
    var more := contents[..n + 1];
    assert more[..n] == contents[..n] && more[n] == contents[n];
  }

  // ---------- conservation ----------

  /** The bytes an object directory holds. */
  ghost function Volume(objects: Objects): nat
    decreases |objects|
  {
    if objects == map[] then 0
    else
      var name :| name in objects;
      |objects[name]| + Volume(objects - {name})
  }

  lemma {:induction false} VolumeWithout(objects: Objects, name: string)
    requires name in objects
    ensures Volume(objects) == |objects[name]| + Volume(objects - {name})
    decreases |objects|
  {
    var other :| other in objects && Volume(objects) == |objects[other]| + Volume(objects - {other});
    if other != name {
      VolumeWithout(objects - {other}, name);
      VolumeWithout(objects - {name}, other);
      assert objects - {other} - {name} == objects - {name} - {other};
    }
  }

  /** The store grows by exactly the bytes counted as written; a repeat inside one file counts once. */
  lemma {:induction false} GrowthIsBytesWritten(objects: Objects, hash: Digest, contents: seq<seq<byte>>)
    ensures Volume(PutAll(objects, hash, contents)) == Volume(objects) + BytesWritten(objects, hash, contents)
  {
    if contents != [] {
      var n := |contents| - 1;
      var before, name := PutAll(objects, hash, contents[..n]), hash(contents[n]);
      GrowthIsBytesWritten(objects, hash, contents[..n]);
      if name !in before {
        VolumeWithout(before[name := contents[n]], name);
        assert before[name := contents[n]] - {name} == before;
      }
    }
  }

  // ---------- reading back ----------

  /** Among the stored objects and the contents to store, equal hashes mean equal bytes. */
  ghost predicate NoCollision(objects: Objects, hash: Digest, contents: seq<seq<byte>>) {
    (forall c <- contents :: hash(c) in objects ==> objects[hash(c)] == c) &&
    forall c <- contents, d <- contents :: hash(c) == hash(d) ==> c == d
  }

  /** Every published content can be read back under its hash. */
  lemma {:induction false} ReadBack(objects: Objects, hash: Digest, contents: seq<seq<byte>>, i: nat)
    requires i < |contents| && NoCollision(objects, hash, contents)
    ensures hash(contents[i]) in PutAll(objects, hash, contents)
    ensures PutAll(objects, hash, contents)[hash(contents[i])] == contents[i]
  {
    PutAllKeeps(objects, hash, contents);
    assert contents[i] in contents;
    var name := hash(contents[i]);
    if name !in objects {
      PutAllAddsOnly(objects, hash, contents, name);
    }
  }

  // ---------- the directory ----------

  ghost function UpperBound(used: set<nat>): (bound: nat)
    ensures forall n <- used :: n < bound
  {
    if used == {} then 0
    else
      var n :| n in used;
      var b := UpperBound(used - {n});
      assert forall m <- used :: m == n || m in used - {n};
      if n < b then b else n + 1
  }

  lemma FreshName(used: set<nat>)
    ensures exists n: nat :: n !in used
  {
    var bound := UpperBound(used);
    assert bound !in used;
  }

  /** In a reliable directory no open, write or rename fails. */
  class Directory {
    const hash: Digest
    const reliable: bool
    var objects: Objects
    var temps: map<nat, seq<byte>>

    constructor (hash: Digest, reliable: bool, objects: Objects, temps: map<nat, seq<byte>>)
      ensures this.hash == hash && this.reliable == reliable && this.objects == objects && this.temps == temps
    {
      this.hash, this.reliable, this.objects, this.temps := hash, reliable, objects, temps;
    }

    /** One operation of the file system. */
    method Operate() returns (ok: bool)
      ensures reliable ==> ok
    {
      ok := *;
      ok := ok || reliable;
    }

    /** publish_object_bytes: a temporary file, written and then renamed; any of the three steps may fail. */
    method Publish(name: string, data: seq<byte>) returns (r: Result<bool>)
      requires name == hash(data)
      modifies this
      ensures temps == old(temps)
      ensures r.Ok? ==> r.value == (name !in old(objects)) && objects == Put(old(objects), hash, data)
      ensures r.Err? ==> r.error == Io && name !in objects && objects == old(objects) && !reliable
    {
      if name in objects {
        return Ok(false);
      }
      var created := Operate();
      var wrote := Operate();
      var renamed := Operate();
      if !created {
        return Err(Io);
      }
      FreshName(temps.Keys);
      var tmp :| tmp !in temps;
      temps := temps[tmp := if wrote then data else []];
      if !wrote {
        temps := temps - {tmp};
        return Err(Io);
      }
      r := Rename(tmp, name, renamed);
    }

    /** rename(2) of a complete temporary file onto the object's name, and what the code does when it fails. */
    method Rename(tmp: nat, name: string, renamed: bool) returns (r: Result<bool>)
      requires tmp in temps && name == hash(temps[tmp])
      modifies this
      ensures temps == old(temps) - {tmp}
      ensures r.Ok? ==> r.value == renamed && (renamed || name in old(objects))
      ensures objects == if renamed then old(objects)[name := old(temps[tmp])] else old(objects)
      ensures r.Err? <==> !renamed && name !in old(objects)
      ensures r.Err? ==> r.error == Io
    {
      if renamed {
        objects := objects[name := temps[tmp]];
        temps := temps - {tmp};
        return Ok(true);
      }
      temps := temps - {tmp};
      if name !in objects {
        return Err(Io);
      }
      return Ok(false);
    }
  }

  // ---------- input files ----------

  /** An input stream: a read stops at the end of the file and then leaves the stream not good. */
  class Input {
    const content: seq<byte>
    var at: nat
    var good: bool

    constructor (content: seq<byte>)
      ensures this.content == content && at == 0 && good
    {
      this.content := content;
      at, good := 0, true;
    }

    method Read(n: nat) returns (buffer: seq<byte>)
      requires at <= |content|
      modifies this
      ensures at == old(at) + |buffer| <= |content| && buffer == content[old(at)..at]
      ensures |buffer| == if n <= |content| - old(at) then n else |content| - old(at)
      ensures good == (old(good) && |buffer| == n)
    {
      var k := if n <= |content| - at then n else |content| - at;
      buffer := content[at..at + k];
      good := good && k == n;
      at := at + k;
    }
  }

  /** A SHA256 object, as far as its users need it: Sha256Stream proves that the digest depends on
      nothing but the concatenation of the updates. */
  class Hashing {
    const hash: Digest
    var fed: seq<byte>

    constructor (hash: Digest)
      ensures this.hash == hash && fed == []
    {
      this.hash := hash;
      fed := [];
    }

    method Update(data: seq<byte>)
      modifies this
      ensures fed == old(fed) + data
    {
      fed := fed + data;
    }

    /** Assignment of a new SHA256 object. */
    method Reset()
      modifies this
      ensures fed == []
    {
      fed := [];
    }

    method HexDigest() returns (text: string)
      ensures text == hash(fed)
    {
      text := hash(fed);
    }
  }
}
