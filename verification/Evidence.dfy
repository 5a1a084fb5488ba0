/** The compare-and-swap evidence store: one linear history per key under any
    interleaving of handles. */
module Evidence {
  import opened Text

  const MAX_SESSION_EVIDENCE_BYTES := 8 * 1024 * 1024
  const U64_MAX := 0xFFFF_FFFF_FFFF_FFFF
  const I64_MAX := 0x7FFF_FFFF_FFFF_FFFF

  newtype byte = b: int | 0 <= b < 256
  type Bytes = seq<byte>

  datatype Kind = Ledger | Rewind | TurnBinding
  datatype Key = Key(kind: Kind, identity: string)
  datatype Version = Version(revision: nat, digest: string)
  datatype Document = Document(version: Version, bytes: Bytes)

  type Table = map<Key, Document>

  /** SHA-256 with its prefix, left uninterpreted. */
  type Digest = Bytes -> string

  datatype Error = TooLarge | RevisionOverflow | NotStorable | IdentityInvalid

  datatype Commit = Committed(version: Version) | Conflict | CommitUnknown

  /** What becomes of the transaction: the last two answer `CommitUnknown`. */
  datatype Fate = Acknowledged | Landed | Lost

  // ----- Versions -----

  function Successor(digest: Digest, current: Option<Version>, bytes: Bytes): Result<Version, Error> {
    if |bytes| > MAX_SESSION_EVIDENCE_BYTES then Err(TooLarge)
    else if current.Some? && current.value.revision >= U64_MAX then Err(RevisionOverflow)
    else Ok(Version(if current.Some? then current.value.revision + 1 else 1, digest(bytes)))
  }

  predicate Validates(digest: Digest, v: Version, bytes: Bytes) {
    v.revision > 0 && v.digest == digest(bytes) && |bytes| <= MAX_SESSION_EVIDENCE_BYTES
  }

  function LoadFrom(digest: Digest, table: Table, key: Key): Result<Option<Document>, Error> {
    if key !in table then Ok(None) else
      var d := table[key];
      if |d.bytes| > MAX_SESSION_EVIDENCE_BYTES then Err(TooLarge)
      else if !Validates(digest, d.version, d.bytes) then Err(IdentityInvalid)
      else Ok(Some(d))
  }

  function Current(table: Table, key: Key): Option<Version> {
    if key in table then Some(table[key].version) else None
  }

  function Swap(digest: Digest, table: Table, key: Key, expected: Option<Version>, bytes: Bytes, fate: Fate):
    (Table, Result<Commit, Error>)
  {
    match LoadFrom(digest, table, key)
    case Err(e) => (table, Err(e))
    case Ok(_) =>
      if Current(table, key) != expected then (table, Ok(Conflict)) else
        match Successor(digest, Current(table, key), bytes)
        case Err(e) => (table, Err(e))
        case Ok(version) =>
          if version.revision > I64_MAX then (table, Err(NotStorable)) else
            var next := table[key := Document(version, bytes)];
            match fate
            case Acknowledged => (next, Ok(Committed(version)))
            case Landed => (next, Ok(CommitUnknown))
            case Lost => (table, Ok(CommitUnknown))
  }

  class LocalSessionEvidenceStore {
    const digest: Digest
    var table: Table

    constructor (digest: Digest)
      ensures this.digest == digest && table == map[]
    {
      this.digest := digest;
      table := map[];
    }

    /** A caller gets the stored document only when its bytes fit and carry their own
        digest, nothing exactly for an absent key, and an error for a damaged row. */
    method Load(key: Key) returns (r: Result<Option<Document>, Error>)
      ensures r == Ok(None) <==> key !in table
      ensures r.Ok? && r.value.Some? ==>
        key in table && r.value.value == table[key] && Validates(digest, table[key].version, table[key].bytes)
      ensures r.Err? <==> key in table && !Validates(digest, table[key].version, table[key].bytes)
      ensures r == Err(TooLarge) <==> key in table && |table[key].bytes| > MAX_SESSION_EVIDENCE_BYTES
      ensures r == LoadFrom(digest, table, key)
    {
      if key !in table {
        return Ok(None);
      }
      var d := table[key];
      if |d.bytes| > MAX_SESSION_EVIDENCE_BYTES {
        return Err(TooLarge);
      }
      if !Validates(digest, d.version, d.bytes) {
        return Err(IdentityInvalid);
      }
      return Ok(Some(d));
    }

    method CompareAndSwap(key: Key, expected: Option<Version>, bytes: Bytes, fate: Fate) returns (r: Result<Commit, Error>)
      modifies this`table
      ensures (table, r) == Swap(digest, old(table), key, expected, bytes, fate)
    {
      var current: Option<Version> := None;
      if key in table {
        var d := table[key];
        if |d.bytes| > MAX_SESSION_EVIDENCE_BYTES {
          return Err(TooLarge);
        }
        if !Validates(digest, d.version, d.bytes) {
          return Err(IdentityInvalid);
        }
        current := Some(d.version);
      }
      if current != expected {
        return Ok(Conflict);
      }
      var version :- Successor(digest, current, bytes);
      if version.revision > I64_MAX {
        return Err(NotStorable);
      }
      if fate.Lost? {
        return Ok(CommitUnknown);
      }
      table := table[key := Document(version, bytes)];
      return Ok(if fate.Acknowledged? then Committed(version) else CommitUnknown);
    }
  }

  // ----- Runs of any number of handles -----

  datatype Op = Op(key: Key, expected: Option<Version>, bytes: Bytes, fate: Fate)

  function Next(digest: Digest, t: Table, op: Op): Table {
    Swap(digest, t, op.key, op.expected, op.bytes, op.fate).0
  }

  function Answer(digest: Digest, t: Table, op: Op): Result<Commit, Error> {
    Swap(digest, t, op.key, op.expected, op.bytes, op.fate).1
  }

  function RunTo(digest: Digest, t: Table, ops: seq<Op>): Table
    decreases |ops|
  {
    if ops == [] then t else RunTo(digest, Next(digest, t, ops[0]), ops[1..])
  }

  ghost predicate ValidTable(digest: Digest, t: Table) {
    forall k :: k in t ==> Validates(digest, t[k].version, t[k].bytes) && t[k].version.revision <= I64_MAX
  }

  /** The swap wrote its bytes. */
  predicate Writes(digest: Digest, t: Table, op: Op) {
    && LoadFrom(digest, t, op.key).Ok? && Current(t, op.key) == op.expected && !op.fate.Lost?
    && match Successor(digest, op.expected, op.bytes)
       case Ok(v) => v.revision <= I64_MAX
       case Err(_) => false
  }

  function Revision(t: Table, key: Key): nat {
    if key in t then t[key].version.revision else 0
  }

  /** A swap either writes the next revision of its key and nothing else, or changes
      nothing; it says `Committed` only if it wrote, and `Conflict` only if it did not. */
  lemma SwapSteps(digest: Digest, t: Table, op: Op)
    requires ValidTable(digest, t)
    ensures var u := Next(digest, t, op);
      && ValidTable(digest, u)
      && (Writes(digest, t, op) ==>
            && u == t[op.key := Document(Version(Revision(t, op.key) + 1, digest(op.bytes)), op.bytes)]
            && (Answer(digest, t, op) == Ok(CommitUnknown) || Answer(digest, t, op) == Ok(Committed(u[op.key].version))))
      && (!Writes(digest, t, op) ==>
            u == t && (Answer(digest, t, op).Ok? ==> !Answer(digest, t, op).value.Committed?))
  {
  }

  /** Exactly when a swap is refused as a conflict: the key is not at the expected version. */
  lemma ConflictIff(digest: Digest, t: Table, op: Op)
    requires ValidTable(digest, t)
    ensures Answer(digest, t, op) == Ok(Conflict) <==> Current(t, op.key) != op.expected
  {
  }

  /** Which answer a swap on a sound store gets: the version is compared first, then the
      size, then the revision that can be stored; what is left is what became of the
      transaction. */
  lemma SwapAnswersExactly(digest: Digest, t: Table, op: Op)
    requires ValidTable(digest, t)
    ensures var a, at := Answer(digest, t, op), Current(t, op.key) == op.expected;
      var small, room := |op.bytes| <= MAX_SESSION_EVIDENCE_BYTES, Revision(t, op.key) < I64_MAX;
      && (!at ==> a == Ok(Conflict)) && (at && !small ==> a == Err(TooLarge)) && (at && small && !room ==> a == Err(NotStorable))
      && (at && small && room ==>
            a == Ok(if op.fate.Acknowledged? then Committed(Version(Revision(t, op.key) + 1, digest(op.bytes))) else CommitUnknown))
      && (Writes(digest, t, op) <==> at && small && room && !op.fate.Lost?)
  {
  }

  // ----- One linear history -----

  /** The documents a run writes under a key, in order. */
  function History(digest: Digest, t: Table, ops: seq<Op>, key: Key): seq<Document>
    decreases |ops|
  {
    if ops == [] then [] else
      var u := Next(digest, t, ops[0]);
      var rest := History(digest, u, ops[1..], key);
      if Writes(digest, t, ops[0]) && ops[0].key == key
      then [Document(Version(Revision(t, key) + 1, digest(ops[0].bytes)), ops[0].bytes)] + rest
      else rest
  }

  predicate SameAt(t: Table, u: Table, key: Key) {
    (key in t <==> key in u) && (key in t ==> t[key] == u[key])
  }

  lemma StepAt(digest: Digest, t: Table, op: Op, key: Key)
    requires ValidTable(digest, t)
    ensures var u := Next(digest, t, op);
      if Writes(digest, t, op) && op.key == key
      then key in u && u[key] == Document(Version(Revision(t, key) + 1, digest(op.bytes)), op.bytes)
           && |op.bytes| <= MAX_SESSION_EVIDENCE_BYTES
      else SameAt(t, u, key)
  {
    SwapSteps(digest, t, op);
    hide Swap;
  }

  /** Whatever handles attempt, the documents written under a key carry consecutive
      revisions and the digests of their own bytes, and the table holds the last one. */
  lemma {:induction false} HistoryIsLinear(digest: Digest, t: Table, ops: seq<Op>, key: Key)
    requires ValidTable(digest, t)
    ensures var h := History(digest, t, ops, key);
      && (forall i :: 0 <= i < |h| ==>
            h[i].version == Version(Revision(t, key) + 1 + i, digest(h[i].bytes)) && |h[i].bytes| <= MAX_SESSION_EVIDENCE_BYTES)
      && Revision(RunTo(digest, t, ops), key) == Revision(t, key) + |h|
      && (h != [] ==> key in RunTo(digest, t, ops) && RunTo(digest, t, ops)[key] == h[|h| - 1])
      && (h == [] ==> SameAt(t, RunTo(digest, t, ops), key))
    decreases |ops|
  {
    if ops != [] {
      SwapSteps(digest, t, ops[0]);
      StepAt(digest, t, ops[0], key);
      hide Next, Writes, ValidTable, Answer;
      HistoryIsLinear(digest, Next(digest, t, ops[0]), ops[1..], key);
    }
  }

  /** What a load finds after any run: the last document written under the key, or what
      was there before; never a damaged row. */
  lemma LoadFindsLastWrite(digest: Digest, t: Table, ops: seq<Op>, key: Key)
    requires ValidTable(digest, t)
    ensures var h := History(digest, t, ops, key);
      LoadFrom(digest, RunTo(digest, t, ops), key) ==
        Ok(if h != [] then Some(h[|h| - 1]) else if key in t then Some(t[key]) else None)
  {
    HistoryIsLinear(digest, t, ops, key);
    RevisionsOnlyRise(digest, t, ops, key);
    hide RunTo, History;
  }

  /** The expected versions of the swaps that write under the key. */
  function Bases(digest: Digest, t: Table, ops: seq<Op>, key: Key): seq<Option<Version>>
    decreases |ops|
  {
    if ops == [] then [] else
      var rest := Bases(digest, Next(digest, t, ops[0]), ops[1..], key);
      if Writes(digest, t, ops[0]) && ops[0].key == key then [ops[0].expected] + rest else rest
  }

  function RevisionOf(v: Option<Version>): nat {
    if v.Some? then v.value.revision else 0
  }

  lemma {:induction false} BasesRise(digest: Digest, t: Table, ops: seq<Op>, key: Key)
    requires ValidTable(digest, t)
    ensures forall i :: 0 <= i < |Bases(digest, t, ops, key)| ==>
      RevisionOf(Bases(digest, t, ops, key)[i]) == Revision(t, key) + i
    decreases |ops|
  {
    if ops != [] {
      SwapSteps(digest, t, ops[0]);
      BasesRise(digest, Next(digest, t, ops[0]), ops[1..], key);
    }
  }

  /** At most one swap with a given expected version ever writes, also when earlier
      bytes come back: there is no ABA. */
  lemma OneWriterPerVersion(digest: Digest, t: Table, ops: seq<Op>, key: Key)
    requires ValidTable(digest, t)
    ensures var b := Bases(digest, t, ops, key); forall i, j :: 0 <= i < j < |b| ==> b[i] != b[j]
  {
    BasesRise(digest, t, ops, key);
  }

  lemma {:induction false} RevisionsOnlyRise(digest: Digest, t: Table, ops: seq<Op>, key: Key)
    requires ValidTable(digest, t)
    ensures ValidTable(digest, RunTo(digest, t, ops)) && Revision(RunTo(digest, t, ops), key) >= Revision(t, key)
    decreases |ops|
  {
    if ops != [] {
      SwapSteps(digest, t, ops[0]);
      RevisionsOnlyRise(digest, Next(digest, t, ops[0]), ops[1..], key);
    }
  }

  /** A swap that wrote, whatever it was told, can be retried at any later time: the
      retry is refused as a conflict and changes nothing. */
  lemma RetryConflicts(digest: Digest, t: Table, op: Op, ops: seq<Op>, bytes: Bytes, fate: Fate)
    requires ValidTable(digest, t) && Writes(digest, t, op)
    ensures var u := RunTo(digest, Next(digest, t, op), ops);
      var retry := Op(op.key, op.expected, bytes, fate);
      Answer(digest, u, retry) == Ok(Conflict) && Next(digest, u, retry) == u
  {
    SwapSteps(digest, t, op);
    RevisionsOnlyRise(digest, Next(digest, t, op), ops, op.key);
    ConflictIff(digest, RunTo(digest, Next(digest, t, op), ops), Op(op.key, op.expected, bytes, fate));
  }

  /** A retry of a swap that did not land, while nobody else wrote, is answered as the
      first attempt should have been. */
  lemma RetryAfterLoss(digest: Digest, t: Table, op: Op)
    requires ValidTable(digest, t) && op.fate.Lost?
    ensures Next(digest, t, op) == t
    ensures Writes(digest, t, op.(fate := Acknowledged)) ==>
      Answer(digest, t, op) == Ok(CommitUnknown)
      && Answer(digest, Next(digest, t, op), op.(fate := Acknowledged))
         == Ok(Committed(Version(Revision(t, op.key) + 1, digest(op.bytes))))
  {
  }
}
