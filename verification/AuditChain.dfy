/** The offline check of an exported audit log (python/av_cli/audit_chain_verify.py) and what acceptance
    by it is worth. The chain hash and the signature check are parameters. */
module AuditChain {
  import opened Options

  /** The six columns that enter the chain hash; a missing key reads like a null. */
  datatype Fields = Fields(ts: Option<string>, username: Option<string>, action: Option<string>,
                           projectId: Option<string>, statusCode: Option<int>, details: Option<string>)

  /** What the chain hash sees of them: `ts` goes through str(), which turns a null into a text. */
  function Shown(f: Fields): Fields { f.(ts := Some(if f.ts == None then "None" else f.ts.value)) }

  /** Two rows enter the hash alike: all columns are equal, except that a missing `ts` is as good as the text "None". */
  predicate HashedAlike(x: Fields, y: Fields) {
    x.username == y.username && x.action == y.action && x.projectId == y.projectId && x.statusCode == y.statusCode &&
    x.details == y.details &&
    (x.ts == y.ts || (x.ts == None && y.ts == Some("None")) || (x.ts == Some("None") && y.ts == None))
  }

  /** The id key of a row: absent, null or a number. */
  datatype Id = NoKey | Null | Number(n: int)

  datatype Row = Row(id: Id, fields: Fields, chainHash: Option<string>, signature: Option<string>)

  type Chain = (Option<string>, Fields) -> string
  type Signer = (string, string, string) -> bool

  datatype Checks = Checks(verified: nat, failed: nat, absent: nat)

  datatype Verdict =
    | Broken(brokenAtId: Id, checked: nat, checks: Checks)     // `get` reads an absent id as null
    | Accepted(checked: nat, lastId: Id, checks: Checks)
    | KeyError                                                  // an intact export whose last row has no id key

  // ---------- the meaning of a chain ----------

  /** What the hash of row i covers besides its own fields. */
  function Previous(rows: seq<Row>, i: nat): Option<string>
    requires i <= |rows|
  {
    if i == 0 then None else rows[i - 1].chainHash
  }

  predicate Linked(chain: Chain, rows: seq<Row>, i: nat)
    requires i < |rows|
  {
    rows[i].chainHash == Some(chain(Previous(rows, i), Shown(rows[i].fields)))
  }

  predicate Intact(chain: Chain, rows: seq<Row>) {
    forall i :: 0 <= i < |rows| ==> Linked(chain, rows, i)
  }

  datatype Kind = Verified | Failed | Absent

  function KindOf(row: Row, key: Option<string>, valid: Signer): Kind {
    if row.signature == None || row.signature.value == "" || row.chainHash == None then Absent
    else if key != None && key.value != "" && valid(row.chainHash.value, row.signature.value, key.value) then Verified
    else Failed
  }

  function Kinds(rows: seq<Row>, key: Option<string>, valid: Signer): seq<Kind> {
    seq(|rows|, i requires 0 <= i < |rows| => KindOf(rows[i], key, valid))
  }

  /** The counters are how often each kind occurs. */
  function Tally(rows: seq<Row>, key: Option<string>, valid: Signer): Checks {
    var kinds := multiset(Kinds(rows, key, valid));
    Checks(kinds[Verified], kinds[Failed], kinds[Absent])
  }

  function Counted(checks: Checks, kind: Kind): Checks {
    match kind
    case Verified => checks.(verified := checks.verified + 1)
    case Failed => checks.(failed := checks.failed + 1)
    case Absent => checks.(absent := checks.absent + 1)
  }

  lemma TallyNext(rows: seq<Row>, n: nat, key: Option<string>, valid: Signer)
    requires n < |rows|
    ensures Tally(rows[..n + 1], key, valid) == Counted(Tally(rows[..n], key, valid), KindOf(rows[n], key, valid))
  {
    assert Kinds(rows[..n + 1], key, valid) == Kinds(rows[..n], key, valid) + [KindOf(rows[n], key, valid)];
  }

  function Got(id: Id): Id { if id == NoKey then Null else id }

  method CountSignature(row: Row, key: Option<string>, valid: Signer, checks: Checks) returns (counted: Checks)
    requires row.chainHash != None
    ensures counted == Counted(checks, KindOf(row, key, valid))
  {
    if row.signature != None && row.signature.value != "" {
      if key != None && key.value != "" && valid(row.chainHash.value, row.signature.value, key.value) {
        counted := checks.(verified := checks.verified + 1);
      } else {
        counted := checks.(failed := checks.failed + 1);
      }
    } else {
      counted := checks.(absent := checks.absent + 1);
    }
  }

  /** compute_chain_hash: a `ts` that is no date goes in as its text, also when it is missing. */
  method ComputeChainHash(prev: Option<string>, fields: Fields, chain: Chain) returns (h: string)
    ensures h == chain(prev, Shown(fields))
  {
    var ts := if fields.ts == None then "None" else fields.ts.value;
    h := chain(prev, Fields(Some(ts), fields.username, fields.action, fields.projectId, fields.statusCode,
      fields.details));
  }

  lemma PrefixIntact(chain: Chain, rows: seq<Row>, n: nat)
    requires n <= |rows|
    ensures Intact(chain, rows[..n]) <==> forall i :: 0 <= i < n ==> Linked(chain, rows, i)
  {
    assert forall i :: 0 <= i < n ==> (Linked(chain, rows[..n], i) <==> Linked(chain, rows, i));
  }

  /** verify_export: the first row that does not extend its predecessor, if there is one. */
  method VerifyExport(rows: seq<Row>, key: Option<string>, chain: Chain, valid: Signer) returns (v: Verdict)
    ensures v.Broken? <==> !Intact(chain, rows)
    ensures v.Broken? ==> v.checked < |rows| && !Linked(chain, rows, v.checked) && Intact(chain, rows[..v.checked])
    ensures v.Broken? ==> v.brokenAtId == Got(rows[v.checked].id) && v.checks == Tally(rows[..v.checked], key, valid)
    ensures v.KeyError? <==> Intact(chain, rows) && rows != [] && rows[|rows| - 1].id == NoKey
    ensures v.Accepted? ==> v.checked == |rows| && v.checks == Tally(rows, key, valid)
    ensures v.Accepted? ==> v.lastId == if rows == [] then Null else rows[|rows| - 1].id
  {
    var prevHash: Option<string> := None;
    var checks, checked := Checks(0, 0, 0), 0;
    while checked < |rows|
      invariant checked <= |rows| && prevHash == Previous(rows, checked)
      invariant forall i :: 0 <= i < checked ==> Linked(chain, rows, i)
      invariant checks == Tally(rows[..checked], key, valid)
    {
      var row := rows[checked];
      var expected := ComputeChainHash(prevHash, row.fields, chain);
      if row.chainHash != Some(expected) {
        assert !Linked(chain, rows, checked);
        PrefixIntact(chain, rows, checked);
        return Broken(if row.id.Number? then row.id else Null, checked, checks);
      }
      TallyNext(rows, checked, key, valid);
      checks := CountSignature(row, key, valid, checks);
      prevHash := row.chainHash;
      checked := checked + 1;
    }
    assert rows[..checked] == rows;
    if rows == [] {
      return Accepted(checked, Null, checks);
    } else if rows[|rows| - 1].id == NoKey {
      return KeyError;
    }
    v := Accepted(checked, rows[|rows| - 1].id, checks);
  }

  // ---------- what acceptance is worth ----------

  /** Cutting rows off the end of an intact export leaves an intact export. */
  lemma TruncationAccepted(chain: Chain, rows: seq<Row>, n: nat)
    requires Intact(chain, rows) && n <= |rows|
    ensures Intact(chain, rows[..n])
  {
    PrefixIntact(chain, rows, n);
  }

  /** Two different inputs of the chain hash, one from each export, with the same hash. */
  predicate Collides(chain: Chain, a: seq<Row>, i: nat, b: seq<Row>, j: nat) {
    i < |a| && j < |b| && (Previous(a, i), Shown(a[i].fields)) != (Previous(b, j), Shown(b[j].fields)) &&
    chain(Previous(a, i), Shown(a[i].fields)) == chain(Previous(b, j), Shown(b[j].fields))
  }

  ghost predicate CollisionBetween(chain: Chain, a: seq<Row>, b: seq<Row>) {
    exists i, j :: Collides(chain, a, i, b, j)
  }

  predicate SameRow(x: Row, y: Row) { HashedAlike(x.fields, y.fields) && x.chainHash == y.chainHash }

  predicate SameChain(a: seq<Row>, b: seq<Row>) {
    |a| == |b| && forall i :: 0 <= i < |a| ==> SameRow(a[i], b[i])
  }

  /** Two intact exports that end in the same chain hash have the same length and the same chained fields
      in every row, unless the two exports contain a collision of the chain hash. */
  lemma {:induction false} LastHashDeterminesExport(chain: Chain, a: seq<Row>, b: seq<Row>)
    requires Intact(chain, a) && Intact(chain, b) && Previous(a, |a|) == Previous(b, |b|)
    ensures SameChain(a, b) || CollisionBetween(chain, a, b)
    decreases |a|
  {
    if a != [] { assert Linked(chain, a, |a| - 1); }
    if b != [] { assert Linked(chain, b, |b| - 1); }
    if a != [] && b != [] {
      var m, n := |a| - 1, |b| - 1;
      if Collides(chain, a, m, b, n) {
      } else {
        TruncationAccepted(chain, a, m);
        TruncationAccepted(chain, b, n);
        LastHashDeterminesExport(chain, a[..m], b[..n]);
        if i, j :| Collides(chain, a[..m], i, b[..n], j) {
          assert Collides(chain, a, i, b, j);
        } else {
          assert forall i :: 0 <= i < m ==> a[..m][i] == a[i] && b[..m][i] == b[i];
        }
      }
    }
  }

  function Without(rows: seq<Row>, i: nat, j: nat): seq<Row>
    requires i <= j <= |rows|
  {
    rows[..i] + rows[j..]
  }

  /** An export that stays intact although rows before its last one are missing exhibits a collision. */
  lemma GapCollides(chain: Chain, rows: seq<Row>, i: nat, j: nat)
    requires Intact(chain, rows) && i < j < |rows| && Intact(chain, Without(rows, i, j))
    ensures CollisionBetween(chain, Without(rows, i, j), rows)
  {
    var cut := Without(rows, i, j);
    assert Linked(chain, cut, i) && cut[i] == rows[j] && Linked(chain, rows, j) &&
      Previous(cut, i) == Previous(rows, i);
    if Previous(rows, i) != Previous(rows, j) {
      assert Collides(chain, cut, i, rows, j);
    } else {
      TruncationAccepted(chain, rows, i);
      TruncationAccepted(chain, rows, j);
      LastHashDeterminesExport(chain, rows[..i], rows[..j]);
      var x, y :| Collides(chain, rows[..i], x, rows[..j], y);
      assert Collides(chain, cut, x, rows, y);
    }
  }

  /** Deleting the rows from i up to j goes unnoticed exactly when nothing follows them, collisions apart. */
  lemma DeletionUnnoticedIffAtEnd(chain: Chain, rows: seq<Row>, i: nat, j: nat)
    requires Intact(chain, rows) && i < j <= |rows| && !CollisionBetween(chain, Without(rows, i, j), rows)
    ensures Intact(chain, Without(rows, i, j)) <==> j == |rows|
  {
    if j == |rows| {
      TruncationAccepted(chain, rows, i);
      assert Without(rows, i, j) == rows[..i];
    } else if Intact(chain, Without(rows, i, j)) {
      GapCollides(chain, rows, i, j);
    }
  }

  function Edited(rows: seq<Row>, i: nat, fields: Fields): seq<Row>
    requires i < |rows|
  {
    rows[i := rows[i].(fields := fields)]
  }

  /** Editing one row, its hash left alone, is reported at that very row, unless the chain hash sees the same
      fields or collides. */
  lemma EditReportedThere(chain: Chain, rows: seq<Row>, i: nat, edited: Fields)
    requires Intact(chain, rows) && i < |rows| && !HashedAlike(edited, rows[i].fields)
    ensures var forged := Edited(rows, i, edited);
      Collides(chain, forged, i, rows, i) || (!Linked(chain, forged, i) && Intact(chain, forged[..i]))
  {
    var forged := Edited(rows, i, edited);
    assert Linked(chain, rows, i);
    TruncationAccepted(chain, rows, i);
    assert forged[..i] == rows[..i];
  }

  /** An edit goes unnoticed if and only if the chain hash sees the same fields, collisions apart. */
  lemma EditUnnoticedIffShownAlike(chain: Chain, rows: seq<Row>, i: nat, edited: Fields)
    requires Intact(chain, rows) && i < |rows| && !Collides(chain, Edited(rows, i, edited), i, rows, i)
    ensures Intact(chain, Edited(rows, i, edited)) <==> HashedAlike(edited, rows[i].fields)
  {
    var forged := Edited(rows, i, edited);
    if HashedAlike(edited, rows[i].fields) {
      forall j: nat | j < |forged| ensures Linked(chain, forged, j) { assert Linked(chain, rows, j); }
    } else {
      EditReportedThere(chain, rows, i, edited);
    }
  }

  /** So a missing time stamp may be replaced by the text "None", or the reverse. */
  lemma MissingTimestampUnnoticed(chain: Chain, rows: seq<Row>, i: nat)
    requires Intact(chain, rows) && i < |rows| && rows[i].fields.ts == None
    ensures var edited := rows[i].fields.(ts := Some("None"));
      edited != rows[i].fields && Intact(chain, Edited(rows, i, edited))
  {
    EditUnnoticedIffShownAlike(chain, rows, i, rows[i].fields.(ts := Some("None")));
  }
}
