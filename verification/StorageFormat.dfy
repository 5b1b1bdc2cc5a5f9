/**
 The on-disk frames of a document (server/src/crdt_storage.rs): the checksummed snapshot,
 the record of the append-only update segment, and the replay of a segment under the three
 recovery modes.

 What the store takes from elsewhere is a value of `Engine`: SHA-256, the update validator,
 and the CRDT itself, reduced to a state, a partial `apply` (`None` is an integration panic)
 and a full-state encoder.
 */
module StorageFormat {
  import opened Wrappers
  import opened Bytes

  const MAX_UPDATE_BYTES: nat := 64 * 1024 * 1024
  const MAX_LOG_BYTES: nat := 512 * 1024 * 1024
  const MAX_SNAPSHOT_BYTES: nat := 512 * 1024 * 1024
  const SNAPSHOT_HEADER_BYTES: nat := 48
  const RECORD_HEADER_BYTES: nat := 40

  // "RTCRDT02" and "RTCRDL02"
  const SNAPSHOT_MAGIC: Bytes := [0x52, 0x54, 0x43, 0x52, 0x44, 0x54, 0x30, 0x32]
  const LOG_MAGIC: Bytes := [0x52, 0x54, 0x43, 0x52, 0x44, 0x4C, 0x30, 0x32]

  datatype Engine<!Doc> = Engine(
    checksum: Bytes -> Bytes,
    valid: Bytes -> bool,
    empty: Doc,
    apply: (Doc, Bytes) -> Option<Doc>,
    encode: Doc -> Bytes)

  /** A 32-byte digest under which the empty string is not all zeros, and a lossless encoder. */
  ghost predicate Sound<Doc(!new)>(e: Engine<Doc>) {
    && (forall b: Bytes :: |e.checksum(b)| == 32)
    && e.checksum([]) != Zeros(32)
    && (forall d: Doc :: e.valid(e.encode(d)) && e.apply(e.empty, e.encode(d)) == Some(d))
  }

  /** The updates a caller may hand to the store: bounded and structurally valid. */
  predicate Acceptable<Doc>(e: Engine<Doc>, u: Bytes) {
    |u| <= MAX_UPDATE_BYTES && e.valid(u)
  }

  ghost predicate AllAcceptable<Doc>(e: Engine<Doc>, us: seq<Bytes>) {
    forall i :: 0 <= i < |us| ==> Acceptable(e, us[i])
  }

  /** The document after integrating `us` in order, or `None` if one of them panics. */
  function Fold<Doc>(e: Engine<Doc>, doc: Doc, us: seq<Bytes>): Option<Doc> {
    if us == [] then Some(doc)
    else match e.apply(doc, us[0])
      case None => None
      case Some(next) => Fold(e, next, us[1..])
  }

  lemma {:induction false} FoldConcat<Doc>(e: Engine<Doc>, doc: Doc, us: seq<Bytes>, vs: seq<Bytes>)
    ensures Fold(e, doc, us + vs) ==
            match Fold(e, doc, us) case None => None case Some(mid) => Fold(e, mid, vs)
  {
    if us == [] {
      assert us + vs == vs;
    } else {
      assert (us + vs)[1..] == us[1..] + vs;
      match e.apply(doc, us[0])
      case None =>
      case Some(next) => FoldConcat(e, next, us[1..], vs);
    }
  }

  // ----- snapshot frame

  function EncodeSnapshot<Doc>(e: Engine<Doc>, snapshot: Bytes): Bytes {
    SNAPSHOT_MAGIC + ToLittleEndian(|snapshot|, 8) + e.checksum(snapshot) + snapshot
  }

  datatype SnapshotError = InvalidHeader | SnapshotTooLarge | LengthMismatch | SnapshotChecksum

  function DecodeSnapshot<Doc>(e: Engine<Doc>, bytes: Bytes): Result<Bytes, SnapshotError> {
    if |bytes| < SNAPSHOT_HEADER_BYTES || !(SNAPSHOT_MAGIC <= bytes) then Err(InvalidHeader)
    else
      var length := FromLittleEndian(bytes[8..16]);
      if length > MAX_SNAPSHOT_BYTES then Err(SnapshotTooLarge)
      else if |bytes| != SNAPSHOT_HEADER_BYTES + length then Err(LengthMismatch)
      else
        var snapshot := bytes[48..];
        if e.checksum(snapshot) != bytes[16..48] then Err(SnapshotChecksum) else Ok(snapshot)
  }

  /** Snapshot frames are canonical: a frame decodes to `s` exactly when it is `s` encoded. */
  lemma SnapshotCanonical<Doc(!new)>(e: Engine<Doc>, bytes: Bytes, s: Bytes)
    requires Sound(e)
    ensures DecodeSnapshot(e, bytes) == Ok(s) <==> |s| <= MAX_SNAPSHOT_BYTES && bytes == EncodeSnapshot(e, s)
  {
    EightBytesHoldU64();
    if DecodeSnapshot(e, bytes) == Ok(s) {
      EncodeDecode(bytes[8..16]);
      assert bytes == bytes[..8] + bytes[8..16] + bytes[16..48] + bytes[48..];
    }
    if |s| <= MAX_SNAPSHOT_BYTES && bytes == EncodeSnapshot(e, s) {
      DecodeEncode(|s|, 8);
      assert |e.checksum(s)| == 32;
      assert bytes[8..16] == ToLittleEndian(|s|, 8);
      assert bytes[16..48] == e.checksum(s);
      assert bytes[48..] == s;
    }
  }

  // ----- update segment

  function Record<Doc>(e: Engine<Doc>, u: Bytes): Bytes {
    ToLittleEndian(|u|, 8) + e.checksum(u) + u
  }

  function Records<Doc>(e: Engine<Doc>, us: seq<Bytes>): Bytes {
    if us == [] then [] else Record(e, us[0]) + Records(e, us[1..])
  }

  lemma {:induction false} RecordsConcat<Doc>(e: Engine<Doc>, us: seq<Bytes>, vs: seq<Bytes>)
    ensures Records(e, us + vs) == Records(e, us) + Records(e, vs)
  {
    if us == [] {
      assert us + vs == vs;
    } else {
      assert (us + vs)[1..] == us[1..] + vs;
      RecordsConcat(e, us[1..], vs);
      assert Record(e, us[0]) + (Records(e, us[1..]) + Records(e, vs))
          == (Record(e, us[0]) + Records(e, us[1..])) + Records(e, vs);
    }
  }

  lemma RecordsSnoc<Doc>(e: Engine<Doc>, us: seq<Bytes>, u: Bytes)
    ensures Records(e, us + [u]) == Records(e, us) + Record(e, u)
  {
    RecordsConcat(e, us, [u]);
    assert Records(e, [u]) == Record(e, u) + [];
  }

  /** An intact segment: the magic followed by whole records. */
  function Segment<Doc>(e: Engine<Doc>, us: seq<Bytes>): Bytes {
    LOG_MAGIC + Records(e, us)
  }

  /** Why a segment stops being readable at some offset. */
  datatype Defect =
    | TornHeader
    | TornPayload
    | Oversized
    | BadChecksum(zeroTail: bool)
    | Malformed
    | NotIntegrable

  datatype Parse<Doc> = Good(update: Bytes, end: nat, doc: Doc) | Bad(defect: Defect)

  /** Read the record that starts at `offset`. */
  function ParseRecord<Doc>(e: Engine<Doc>, bytes: Bytes, offset: nat, doc: Doc): (p: Parse<Doc>)
    requires offset < |bytes|
    ensures p.Good? ==> offset + RECORD_HEADER_BYTES <= p.end <= |bytes|
  {
    if |bytes| - offset < RECORD_HEADER_BYTES then Bad(TornHeader)
    else
      var length := FromLittleEndian(bytes[offset..offset + 8]);
      var body := offset + RECORD_HEADER_BYTES;
      if body + length > |bytes| then Bad(TornPayload)
      else if length > MAX_UPDATE_BYTES then Bad(Oversized)
      else
        var update := bytes[body..body + length];
        if e.checksum(update) != bytes[offset + 8..body] then Bad(BadChecksum(AllZero(bytes[offset..])))
        else if !e.valid(update) then Bad(Malformed)
        else match e.apply(doc, update)
          case None => Bad(NotIntegrable)
          case Some(next) => Good(update, body + length, next)
  }

  datatype Scanned<Doc> = Scanned(updates: seq<Bytes>, durable: nat, doc: Doc, defect: Option<Defect>)

  /** The longest readable run of records from `offset`, independent of the recovery mode. */
  function Scan<Doc>(e: Engine<Doc>, bytes: Bytes, offset: nat, doc: Doc): (r: Scanned<Doc>)
    requires offset <= |bytes|
    ensures offset <= r.durable <= |bytes|
    ensures r.defect == None <==> r.durable == |bytes|
    decreases |bytes| - offset
  {
    if offset == |bytes| then Scanned([], offset, doc, None)
    else match ParseRecord(e, bytes, offset, doc)
      case Bad(defect) => Scanned([], offset, doc, Some(defect))
      case Good(update, end, next) =>
        var rest := Scan(e, bytes, end, next);
        Scanned([update] + rest.updates, rest.durable, rest.doc, rest.defect)
  }

  datatype RecoveryMode = Inspect | RecoverInterruptedAppend | Repair

  /** The defects each mode answers by cutting the segment at the record where they appear. */
  predicate Tolerates(mode: RecoveryMode, defect: Defect) {
    match mode
    case Inspect => false
    case RecoverInterruptedAppend => defect.TornHeader? || defect.TornPayload? || defect == BadChecksum(true)
    case Repair => true
  }

  /** `doc` is `None` when a panic may have left the in-memory document half applied. */
  datatype Replayed<Doc> = Replayed(doc: Option<Doc>, bytes: nat, updates: seq<Bytes>, repaired: bool)

  datatype ReplayError = SegmentTooLarge | InvalidSegmentHeader | Corrupt(defect: Defect) | TruncationFailed

  /** What a replay finds, before the file is cut where it says. */
  function Replay<Doc>(e: Engine<Doc>, bytes: Bytes, doc: Doc, mode: RecoveryMode)
    : (r: Result<Replayed<Doc>, ReplayError>)
    ensures r.Ok? ==> |LOG_MAGIC| <= r.value.bytes <= |bytes|
  {
    if |bytes| > MAX_LOG_BYTES then Err(SegmentTooLarge)
    else if !(LOG_MAGIC <= bytes) then Err(InvalidSegmentHeader)
    else
      var s := Scan(e, bytes, |LOG_MAGIC|, doc);
      match s.defect
      case None => Ok(Replayed(Some(s.doc), |bytes|, s.updates, false))
      case Some(defect) =>
        if Tolerates(mode, defect)
        then Ok(Replayed(if defect.NotIntegrable? then None else Some(s.doc), s.durable, s.updates, true))
        else Err(Corrupt(defect))
  }

  /** The segment file after a replay: cut at the last durable record, or untouched. */
  function FileAfter<Doc>(bytes: Bytes, r: Result<Replayed<Doc>, ReplayError>): Bytes
    requires r.Ok? ==> r.value.bytes <= |bytes|
  {
    if r.Ok? then bytes[..r.value.bytes] else bytes
  }

  /** How a truncation ends: done; refused; or cut but not confirmed by its fsync. */
  datatype Cut = CutDone | CutRefused | CutUnconfirmed

  /** The replay with the truncation it may need, which can fail: its result, and the file it leaves. */
  function ReplayAndCut<Doc>(e: Engine<Doc>, bytes: Bytes, doc: Doc, mode: RecoveryMode, cut: Cut)
    : (Result<Replayed<Doc>, ReplayError>, Bytes)
  {
    var r := Replay(e, bytes, doc, mode);
    if r.Err? || !r.value.repaired || cut == CutDone then (r, FileAfter(bytes, r))
    else (Err(TruncationFailed), if cut == CutRefused then bytes else FileAfter(bytes, r))
  }

  function Prepend<Doc>(us: seq<Bytes>, s: Scanned<Doc>): Scanned<Doc> {
    s.(updates := us + s.updates)
  }

  /** One step of the scan, seen from the records already read. */
  lemma ScanStep<Doc>(e: Engine<Doc>, bytes: Bytes, offset: nat, doc: Doc, us: seq<Bytes>)
    requires offset < |bytes|
    ensures var p := ParseRecord(e, bytes, offset, doc);
            Prepend(us, Scan(e, bytes, offset, doc)) ==
            if p.Bad? then Scanned(us, offset, doc, Some(p.defect))
            else Prepend(us + [p.update], Scan(e, bytes, p.end, p.doc))
  {
    var p := ParseRecord(e, bytes, offset, doc);
    if p.Bad? {
      assert us + [] == us;
    } else {
      var rest := Scan(e, bytes, p.end, p.doc).updates;
      assert us + ([p.update] + rest) == us + [p.update] + rest;
    }
  }

  /**
   The replay loop as the server runs it: one pass over the segment that keeps the last durable
   length and, at the first defect, either fails or truncates `file` in place.
   */
  method ReplayLog<Doc>(e: Engine<Doc>, bytes: Bytes, start: Doc, mode: RecoveryMode, cut: Cut)
    returns (r: Result<Replayed<Doc>, ReplayError>, file: Bytes)
    ensures (r, file) == ReplayAndCut(e, bytes, start, mode, cut)
  {
    file := bytes;
    if |bytes| > MAX_LOG_BYTES {
      return Err(SegmentTooLarge), file;
    }
    if !(LOG_MAGIC <= bytes) {
      return Err(InvalidSegmentHeader), file;
    }
    var offset, durableLen := |LOG_MAGIC|, |LOG_MAGIC|;
    var updates: seq<Bytes> := [];
    var doc: Option<Doc> := Some(start);
    var repaired := false;
    ghost var whole := Scan(e, bytes, |LOG_MAGIC|, start);
    ghost var found: Option<Defect> := None;
    while offset < |bytes|
      invariant |LOG_MAGIC| <= offset == durableLen <= |bytes|
      invariant file == bytes && doc.Some? && !repaired
      invariant found == None && whole == Prepend(updates, Scan(e, bytes, offset, doc.value))
      decreases |bytes| - offset
    {
      ScanStep(e, bytes, offset, doc.value, updates);
      match ParseRecord(e, bytes, offset, doc.value)
      case Good(update, end, next) =>
        doc, updates := Some(next), updates + [update];
        offset, durableLen := end, end;
      case Bad(defect) =>
        if !Tolerates(mode, defect) {
          return Err(Corrupt(defect)), file;
        }
        if cut != CutRefused {
          file := file[..offset];
        }
        if cut != CutDone {
          return Err(TruncationFailed), file;
        }
        if defect.NotIntegrable? {
          doc := None;
        }
        repaired, found := true, Some(defect);
        break;
    }
    assert whole.defect == found && whole.updates == updates && whole.durable == durableLen;
    r := Ok(Replayed(doc, if repaired then durableLen else |bytes|, updates, repaired));
    assert bytes[..|bytes|] == bytes;
  }
}
