/**
 What the recovery modes of the update segment guarantee, for every segment and every tail:
 intact records are never cut, interrupted appends are cut at exactly the last durable record,
 the modes are ordered, and repairing is idempotent.
 */
module StorageRecovery {
  import opened Wrappers
  import opened Bytes
  import opened StorageFormat

  // ----- reading one record

  /** `part` stands in `bytes` at `offset`. */
  predicate At(bytes: Bytes, offset: nat, part: Bytes) {
    offset + |part| <= |bytes| && bytes[offset..offset + |part|] == part
  }

  lemma AtSlice(bytes: Bytes, offset: nat, part: Bytes, i: nat, j: nat)
    requires At(bytes, offset, part) && i <= j <= |part|
    ensures bytes[offset + i..offset + j] == part[i..j]
  {
    var l, r := bytes[offset + i..offset + j], part[i..j];
    forall k | 0 <= k < |r| ensures l[k] == r[k] {
      assert r[k] == part[i + k] == bytes[offset..offset + |part|][i + k] == bytes[offset + (i + k)];
    }
  }

  lemma RecordFields<Doc(!new)>(e: Engine<Doc>, u: Bytes)
    requires Sound(e)
    ensures |Record(e, u)| == RECORD_HEADER_BYTES + |u|
    ensures Record(e, u)[0..8] == ToLittleEndian(|u|, 8)
    ensures Record(e, u)[8..40] == e.checksum(u)
    ensures Record(e, u)[40..40 + |u|] == u
  {
    assert |e.checksum(u)| == 32;
  }

  /** A whole record is read back as the update it frames, wherever it stands. */
  lemma ParseWholeRecord<Doc(!new)>(e: Engine<Doc>, bytes: Bytes, offset: nat, u: Bytes, doc: Doc)
    requires Sound(e) && Acceptable(e, u) && At(bytes, offset, Record(e, u))
    ensures |Record(e, u)| == RECORD_HEADER_BYTES + |u|
    ensures ParseRecord(e, bytes, offset, doc) ==
            if e.apply(doc, u).None? then Bad(NotIntegrable)
            else Good(u, offset + |Record(e, u)|, e.apply(doc, u).value)
  {
    var r := Record(e, u);
    EightBytesHoldU64();
    DecodeEncode(|u|, 8);
    RecordFields(e, u);
    AtSlice(bytes, offset, r, 0, 8);
    AtSlice(bytes, offset, r, 8, 40);
    AtSlice(bytes, offset, r, 40, 40 + |u|);
  }

  /** What is read as a record is canonical: its bytes are the record of the update returned. */
  lemma ParseCanonical<Doc(!new)>(e: Engine<Doc>, bytes: Bytes, offset: nat, doc: Doc)
    requires Sound(e) && offset < |bytes|
    ensures var p := ParseRecord(e, bytes, offset, doc);
            p.Good? ==>
              && bytes[offset..p.end] == Record(e, p.update)
              && Acceptable(e, p.update)
              && e.apply(doc, p.update) == Some(p.doc)
  {
    var p := ParseRecord(e, bytes, offset, doc);
    if p.Good? {
      EncodeDecode(bytes[offset..offset + 8]);
      assert bytes[offset..p.end] ==
             bytes[offset..offset + 8] + bytes[offset + 8..offset + 40] + bytes[offset + 40..p.end];
    }
  }

  // ----- reading a run of records

  lemma PrependPrepend<Doc>(us: seq<Bytes>, vs: seq<Bytes>, s: Scanned<Doc>)
    ensures Prepend(us, Prepend(vs, s)) == Prepend(us + vs, s)
  {
    assert us + (vs + s.updates) == us + vs + s.updates;
  }

  lemma PrependNothing<Doc>(s: Scanned<Doc>)
    ensures Prepend([], s) == s
  {
    assert [] + s.updates == s.updates;
  }

  lemma RecordsAt<Doc>(e: Engine<Doc>, bytes: Bytes, offset: nat, us: seq<Bytes>)
    requires us != [] && At(bytes, offset, Records(e, us))
    ensures At(bytes, offset, Record(e, us[0]))
    ensures At(bytes, offset + |Record(e, us[0])|, Records(e, us[1..]))
  {
    var r, n := Records(e, us), |Record(e, us[0])|;
    assert bytes[offset..offset + n] == r[..n];
    assert bytes[offset + n..offset + |r|] == r[n..];
  }

  /** Scanning over a whole record reads it and continues behind it. */
  lemma ScanWholeRecord<Doc(!new)>(e: Engine<Doc>, bytes: Bytes, offset: nat, u: Bytes, doc: Doc)
    requires Sound(e) && Acceptable(e, u) && At(bytes, offset, Record(e, u)) && e.apply(doc, u).Some?
    ensures Scan(e, bytes, offset, doc) ==
            Prepend([u], Scan(e, bytes, offset + |Record(e, u)|, e.apply(doc, u).value))
  {
    hide ParseRecord, Record;
    ParseWholeRecord(e, bytes, offset, u, doc);
  }

  /** Scanning over whole records reads exactly them and continues behind them. */
  lemma {:induction false} ScanOverRecords<Doc(!new)>(
    e: Engine<Doc>, bytes: Bytes, offset: nat, us: seq<Bytes>, doc: Doc)
    requires Sound(e) && AllAcceptable(e, us) && Fold(e, doc, us).Some?
    requires At(bytes, offset, Records(e, us))
    ensures Scan(e, bytes, offset, doc) ==
            Prepend(us, Scan(e, bytes, offset + |Records(e, us)|, Fold(e, doc, us).value))
    decreases |us|
  {
    hide ParseRecord, Record, Prepend;
    if us == [] {
      PrependNothing(Scan(e, bytes, offset, doc));
    } else {
      var u, vs := us[0], us[1..];
      var next := e.apply(doc, u).value;
      var rest := Scan(e, bytes, offset + |Records(e, us)|, Fold(e, doc, us).value);
      RecordsAt(e, bytes, offset, us);
      calc {
        Scan(e, bytes, offset, doc);
        { ScanWholeRecord(e, bytes, offset, u, doc); }
        Prepend([u], Scan(e, bytes, offset + |Record(e, u)|, next));
        { ScanOverRecords(e, bytes, offset + |Record(e, u)|, vs, next); }
        Prepend([u], Prepend(vs, rest));
        { PrependPrepend([u], vs, rest); }
        Prepend([u] + vs, rest);
        { assert us == [u] + vs; }
        Prepend(us, rest);
      }
    }
  }

  /** What a scan accepts is canonical: the bytes it covers are the records it returns. */
  lemma {:induction false} ScanCanonical<Doc(!new)>(e: Engine<Doc>, bytes: Bytes, offset: nat, doc: Doc)
    requires Sound(e) && offset <= |bytes|
    ensures var s := Scan(e, bytes, offset, doc);
            && bytes[offset..s.durable] == Records(e, s.updates)
            && AllAcceptable(e, s.updates)
            && Fold(e, doc, s.updates) == Some(s.doc)
    decreases |bytes| - offset
  {
    hide Record, Acceptable, ParseRecord;
    if offset < |bytes| {
      var p := ParseRecord(e, bytes, offset, doc);
      ParseCanonical(e, bytes, offset, doc);
      if p.Good? {
        ScanCanonical(e, bytes, p.end, p.doc);
        var s, rest := Scan(e, bytes, offset, doc), Scan(e, bytes, p.end, p.doc);
        assert bytes[offset..s.durable] == bytes[offset..p.end] + bytes[p.end..s.durable];
        assert s.updates[1..] == rest.updates;
      }
    }
  }

  /** The scan of an intact segment followed by any tail. */
  lemma ScanSegment<Doc(!new)>(e: Engine<Doc>, us: seq<Bytes>, tail: Bytes, doc: Doc)
    requires Sound(e) && AllAcceptable(e, us) && Fold(e, doc, us).Some?
    ensures var bytes := Segment(e, us) + tail;
            && LOG_MAGIC <= bytes
            && Scan(e, bytes, |LOG_MAGIC|, doc) ==
               Prepend(us, Scan(e, bytes, |Segment(e, us)|, Fold(e, doc, us).value))
  {
    hide Scan, Records, Fold, Prepend;
    ScanOverRecords(e, Segment(e, us) + tail, |LOG_MAGIC|, us, doc);
  }

  // ----- no recovery mode cuts into intact records

  /**
   For an intact segment followed by any bytes at all: whenever a replay succeeds, in whatever
   mode, the recovered updates begin with all of the segment's and the kept file contains it.
   */
  lemma NoModeCutsIntactRecords<Doc(!new)>(
    e: Engine<Doc>, us: seq<Bytes>, tail: Bytes, doc: Doc, mode: RecoveryMode)
    requires Sound(e) && AllAcceptable(e, us) && Fold(e, doc, us).Some?
    ensures var bytes := Segment(e, us) + tail;
            var r := Replay(e, bytes, doc, mode);
            r.Ok? ==> us <= r.value.updates && Segment(e, us) <= FileAfter(bytes, r)
  {
    hide Records, Fold, ParseRecord;
    ScanSegment(e, us, tail, doc);
  }

  /** An intact segment replays unchanged in every mode. */
  lemma IntactSegmentReplays<Doc(!new)>(e: Engine<Doc>, us: seq<Bytes>, doc: Doc, mode: RecoveryMode)
    requires Sound(e) && AllAcceptable(e, us) && Fold(e, doc, us).Some?
    requires |Segment(e, us)| <= MAX_LOG_BYTES
    ensures Replay(e, Segment(e, us), doc, mode) ==
            Ok(Replayed(Fold(e, doc, us), |Segment(e, us)|, us, false))
  {
    hide Records, Fold, ParseRecord;
    ScanSegment(e, us, [], doc);
    assert Segment(e, us) + [] == Segment(e, us);
    assert us + [] == us;
  }

  // ----- damaged tails

  /** The tail begins with a frame whose checksum matches. */
  predicate Verifies<Doc>(e: Engine<Doc>, tail: Bytes) {
    && |tail| >= RECORD_HEADER_BYTES
    && var end := RECORD_HEADER_BYTES + FromLittleEndian(tail[..8]);
       end <= |tail| && e.checksum(tail[RECORD_HEADER_BYTES..end]) == tail[8..RECORD_HEADER_BYTES]
  }

  /** What startup takes for an interrupted append: a frame that runs past the end, or zeros. */
  predicate Interrupted(tail: Bytes) {
    || |tail| < RECORD_HEADER_BYTES
    || RECORD_HEADER_BYTES + FromLittleEndian(tail[..8]) > |tail|
    || AllZero(tail)
  }

  lemma ParseDamaged<Doc(!new)>(e: Engine<Doc>, pre: Bytes, tail: Bytes, doc: Doc)
    requires tail != [] && !Verifies(e, tail)
    ensures var p := ParseRecord(e, pre + tail, |pre|, doc);
            p.Bad? && !p.defect.NotIntegrable?
            && (Tolerates(RecoverInterruptedAppend, p.defect) <==> Interrupted(tail))
  {
    var bytes, n := pre + tail, |pre|;
    assert bytes[n..] == tail;
    if |tail| >= RECORD_HEADER_BYTES {
      assert bytes[n..n + 8] == tail[..8];
      assert bytes[n + 8..n + RECORD_HEADER_BYTES] == tail[8..RECORD_HEADER_BYTES];
      var end := RECORD_HEADER_BYTES + FromLittleEndian(tail[..8]);
      if end <= |tail| {
        assert bytes[n + RECORD_HEADER_BYTES..n + end] == tail[RECORD_HEADER_BYTES..end];
        if AllZero(tail) { ZerosDecodeToZero(tail[..8]); }
      }
    }
  }

  /**
   Whatever stands behind an intact segment and does not pass a checksum: an explicit repair cuts it
   at exactly the last durable record; startup does so exactly when it looks like an interrupted
   append and otherwise refuses, as inspection always does.
   */
  lemma DamagedTailOutcome<Doc(!new)>(e: Engine<Doc>, us: seq<Bytes>, tail: Bytes, doc: Doc, mode: RecoveryMode)
    requires Sound(e) && AllAcceptable(e, us) && Fold(e, doc, us).Some?
    requires tail != [] && !Verifies(e, tail)
    requires |Segment(e, us) + tail| <= MAX_LOG_BYTES
    ensures var r := Replay(e, Segment(e, us) + tail, doc, mode);
            if mode == Repair || (mode == RecoverInterruptedAppend && Interrupted(tail))
            then r == Ok(Replayed(Fold(e, doc, us), |Segment(e, us)|, us, true))
            else r.Err?
  {
    hide Records, Fold, ParseRecord, Verifies, Interrupted;
    ScanSegment(e, us, tail, doc);
    ParseDamaged(e, Segment(e, us), tail, Fold(e, doc, us).value);
    assert us + [] == us;
  }

  /** What an append of `u` that did not complete may leave behind: part of its record, or allocated zeros. */
  ghost predicate Torn<Doc>(e: Engine<Doc>, u: Bytes, tail: Bytes) {
    || (|tail| < |Record(e, u)| && tail == Record(e, u)[..|tail|])
    || AllZero(tail)
  }

  lemma TornIsInterrupted<Doc(!new)>(e: Engine<Doc>, u: Bytes, tail: Bytes)
    requires Sound(e) && Acceptable(e, u) && Torn(e, u, tail)
    ensures !Verifies(e, tail) && Interrupted(tail)
  {
    if |tail| >= RECORD_HEADER_BYTES {
      if AllZero(tail) {
        ZerosDecodeToZero(tail[..8]);
        assert tail[RECORD_HEADER_BYTES..RECORD_HEADER_BYTES] == [];
        assert tail[8..RECORD_HEADER_BYTES] == Zeros(32);
      } else {
        EightBytesHoldU64();
        DecodeEncode(|u|, 8);
        RecordFields(e, u);
        assert tail[..8] == Record(e, u)[0..8];
      }
    }
  }

  /**
   Startup recovery cuts every strict prefix of a record, and zeros of any length, at exactly the
   last durable record, keeping all records before it; read-only inspection reports it instead.
   */
  lemma TornTailIsCutExactly<Doc(!new)>(
    e: Engine<Doc>, us: seq<Bytes>, u: Bytes, tail: Bytes, doc: Doc, mode: RecoveryMode)
    requires Sound(e) && AllAcceptable(e, us) && Acceptable(e, u) && Fold(e, doc, us).Some?
    requires Torn(e, u, tail) && tail != []
    requires |Segment(e, us) + tail| <= MAX_LOG_BYTES
    ensures var r := Replay(e, Segment(e, us) + tail, doc, mode);
            if mode == Inspect then r.Err?
            else r == Ok(Replayed(Fold(e, doc, us), |Segment(e, us)|, us, true))
  {
    TornIsInterrupted(e, u, tail);
    DamagedTailOutcome(e, us, tail, doc, mode);
  }

  /** A completed but unacknowledged record is either adopted whole or, if it cannot be integrated, blocks startup. */
  lemma CompletedRecordIsAdopted<Doc(!new)>(
    e: Engine<Doc>, us: seq<Bytes>, u: Bytes, doc: Doc, mode: RecoveryMode)
    requires Sound(e) && AllAcceptable(e, us) && Acceptable(e, u) && Fold(e, doc, us).Some?
    requires |Segment(e, us + [u])| <= MAX_LOG_BYTES
    ensures var r := Replay(e, Segment(e, us) + Record(e, u), doc, mode);
            if Fold(e, doc, us + [u]).Some?
            then r == Ok(Replayed(Fold(e, doc, us + [u]), |Segment(e, us + [u])|, us + [u], false))
            else if mode == Repair then r == Ok(Replayed(None, |Segment(e, us)|, us, true))
            else r == Err(Corrupt(NotIntegrable))
  {
    hide Records, Fold, Record, Replay;
    FoldConcat(e, doc, us, [u]);
    RecordsSnoc(e, us, u);
    assert Segment(e, us) + Record(e, u) == Segment(e, us + [u]);
    if Fold(e, doc, us + [u]).Some? {
      IntactSegmentReplays(e, us + [u], doc, mode);
    } else {
      assert Segment(e, us) + Record(e, u) == Segment(e, us) + Record(e, u) + [];
      UnintegrableRecordBlocks(e, us, u, [], doc, mode);
    }
  }

  /**
   A durable record that cannot be integrated hides everything behind it, acknowledged or not:
   startup refuses the document, and an explicit repair cuts at that record.
   */
  lemma UnintegrableRecordBlocks<Doc(!new)>(
    e: Engine<Doc>, us: seq<Bytes>, u: Bytes, behind: Bytes, doc: Doc, mode: RecoveryMode)
    requires Sound(e) && AllAcceptable(e, us) && Acceptable(e, u)
    requires Fold(e, doc, us).Some? && Fold(e, doc, us + [u]).None?
    requires |Segment(e, us) + Record(e, u) + behind| <= MAX_LOG_BYTES
    ensures Replay(e, Segment(e, us) + Record(e, u) + behind, doc, mode) ==
            if mode == Repair then Ok(Replayed(None, |Segment(e, us)|, us, true))
            else Err(Corrupt(NotIntegrable))
  {
    hide ParseRecord, Record, Records;
    FoldConcat(e, doc, us, [u]);
    ScanSegment(e, us, Record(e, u) + behind, doc);
    ParseWholeRecord(e, Segment(e, us) + (Record(e, u) + behind), |Segment(e, us)|, u, Fold(e, doc, us).value);
    assert Segment(e, us) + Record(e, u) + behind == Segment(e, us) + (Record(e, u) + behind);
    assert us + [] == us;
  }

  /**
   A whole record whose update no caller may append, too large or malformed, is damage as well: only an
   explicit repair cuts it.
   */
  lemma UnacceptableRecordBlocks<Doc(!new)>(
    e: Engine<Doc>, us: seq<Bytes>, u: Bytes, behind: Bytes, doc: Doc, mode: RecoveryMode)
    requires Sound(e) && AllAcceptable(e, us) && !Acceptable(e, u) && Fold(e, doc, us).Some?
    requires |Segment(e, us) + Record(e, u) + behind| <= MAX_LOG_BYTES
    ensures Replay(e, Segment(e, us) + Record(e, u) + behind, doc, mode) ==
            if mode == Repair then Ok(Replayed(Fold(e, doc, us), |Segment(e, us)|, us, true))
            else Err(Corrupt(if |u| > MAX_UPDATE_BYTES then Oversized else Malformed))
  {
    hide ParseRecord, Record, Records;
    RecordFields(e, u);
    ScanSegment(e, us, Record(e, u) + behind, doc);
    ParseUnacceptable(e, Segment(e, us), u, behind, Fold(e, doc, us).value);
    assert Segment(e, us) + Record(e, u) + behind == Segment(e, us) + (Record(e, u) + behind);
    assert us + [] == us;
  }

  lemma ParseUnacceptable<Doc(!new)>(e: Engine<Doc>, before: Bytes, u: Bytes, behind: Bytes, doc: Doc)
    requires Sound(e) && !Acceptable(e, u) && |u| <= MAX_LOG_BYTES
    ensures Record(e, u) != []
    ensures ParseRecord(e, before + (Record(e, u) + behind), |before|, doc) ==
            Bad(if |u| > MAX_UPDATE_BYTES then Oversized else Malformed)
  {
    var bytes, offset := before + (Record(e, u) + behind), |before|;
    var body := offset + RECORD_HEADER_BYTES;
    EightBytesHoldU64();
    DecodeEncode(|u|, 8);
    assert |e.checksum(u)| == 32;
    assert bytes[offset..offset + 8] == ToLittleEndian(|u|, 8);
    assert bytes[offset + 8..body] == e.checksum(u);
    assert bytes[body..body + |u|] == u;
  }

  // ----- the modes are ordered, and repair is idempotent

  /** Each mode accepts at least what the one before it does, and agrees with it on the outcome. */
  lemma ModesAreOrdered<Doc(!new)>(e: Engine<Doc>, bytes: Bytes, doc: Doc)
    requires Sound(e)
    ensures var inspect := Replay(e, bytes, doc, Inspect);
            inspect.Ok? ==>
              && FileAfter(bytes, inspect) == bytes
              && !inspect.value.repaired
              && forall mode :: Replay(e, bytes, doc, mode) == inspect
    ensures var recover := Replay(e, bytes, doc, RecoverInterruptedAppend);
            recover.Ok? ==> Replay(e, bytes, doc, Repair) == recover
    ensures Replay(e, bytes, doc, Repair).Ok? <==> |bytes| <= MAX_LOG_BYTES && LOG_MAGIC <= bytes
  {
  }

  /** Whatever a mode leaves on disk then passes read-only inspection, with the same updates and no further change. */
  lemma RepairedSegmentIsIntact<Doc(!new)>(
    e: Engine<Doc>, bytes: Bytes, doc: Doc, mode: RecoveryMode, again: RecoveryMode)
    requires Sound(e)
    ensures var r := Replay(e, bytes, doc, mode);
            r.Ok? ==>
              var file := FileAfter(bytes, r);
              && file == Segment(e, r.value.updates)
              && AllAcceptable(e, r.value.updates)
              && Fold(e, doc, r.value.updates).Some?
              && r.value.doc == (if mode == Repair && r.value.doc.None? then None else Fold(e, doc, r.value.updates))
              && (!r.value.repaired ==> r.value.doc.Some? && file == bytes)
              && |file| == r.value.bytes
              && Replay(e, file, doc, again) ==
                 Ok(Replayed(Fold(e, doc, r.value.updates), |file|, r.value.updates, false))
  {
    var r := Replay(e, bytes, doc, mode);
    if r.Ok? {
      var s := Scan(e, bytes, |LOG_MAGIC|, doc);
      ScanCanonical(e, bytes, |LOG_MAGIC|, doc);
      var file := bytes[..s.durable];
      assert file == bytes[..|LOG_MAGIC|] + bytes[|LOG_MAGIC|..s.durable];
      IntactSegmentReplays(e, s.updates, doc, again);
    }
  }
}
