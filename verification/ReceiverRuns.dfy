/** Every operation of the receiver, cut off anywhere, keeps the invariant, and so does every run:
    uploads and their links, the counter and the receipts it numbers, and maintenance with what it
    removes. */
module ReceiverRuns {
  import opened Common
  import opened Retention
  import opened Receiver
  import opened ReceiverSafety
  import opened ReceiverNumbers

  // ----- what uploading leaves behind -----

  lemma AppendingTwice(c: Codec, d: Disk, n: Name, a: Bytes, b: Bytes)
    requires n in d.files
    ensures var e := Apply(c, d, Append(n, a));
      n in e.files && e.(files := e.files[n := e.files[n] + b]) == d.(files := d.files[n := d.files[n] + (a + b)])
  {
    assert d.files[n] + a + b == d.files[n] + (a + b);
  }

  lemma {:induction false} BlocksWriteValue(c: Codec, d: Disk, n: Name, value: Bytes)
    requires n in d.files
    ensures ApplyAll(c, d, Blocks(n, value)) == d.(files := d.files[n := d.files[n] + value])
    decreases |value|
  {
    if value == "" {
      assert d.files[n] + value == d.files[n];
      assert d.files[n := d.files[n]] == d.files;
    } else {
      var size := Min(BLOCK, |value|);
      var first, rest := value[..size], value[size..];
      assert value == first + rest;
      AppendingTwice(c, d, n, first, rest);
      BlocksWriteValue(c, Apply(c, d, Append(n, first)), n, rest);
      assert Blocks(n, value)[0] == Append(n, first) && Blocks(n, value)[1..] == Blocks(n, rest);
    }
  }

  lemma {:induction false} BlocksNameTheirFile(n: Name, value: Bytes)
    ensures forall k :: 0 <= k < |Blocks(n, value)| ==> Blocks(n, value)[k].name == n
    decreases |value|
  {
    if value != "" {
      BlocksNameTheirFile(n, value[Min(BLOCK, |value|)..]);
    }
  }

  /** Create, write and link a temporary: the final name holds exactly the value. */
  lemma UploadingStores(c: Codec, d: Disk, u: Upload, w: World)
    requires Part(Final(u), w.token) !in d.files && Final(u) !in d.files
    ensures var part := Part(Final(u), w.token);
            && ApplyAll(c, d, [Create(part)] + Blocks(part, Received(u))) == d.(files := d.files[part := Received(u)])
            && ApplyAll(c, d, Uploading(u, w)) ==
               d.(files := d.files[part := Received(u)][Final(u) := Received(u)])
            && AllQuiet([Create(part)] + Blocks(part, Received(u)))
  {
    var part := Part(Final(u), w.token);
    var e := Apply(c, d, Create(part));
    BlocksWriteValue(c, e, part, Received(u));
    BlocksNameTheirFile(part, Received(u));
    assert "" + Received(u) == Received(u);
    var written := [Create(part)] + Blocks(part, Received(u));
    assert written[1..] == Blocks(part, Received(u));
    ApplyConcat(c, d, written, [Link(part, Final(u))]);
    var f := ApplyAll(c, d, written);
    assert [Link(part, Final(u))][1..] == [];
    assert ApplyAll(c, f, [Link(part, Final(u))]) == Apply(c, f, Link(part, Final(u)));
  }

  lemma {:induction false} SpellWrites(c: Codec, d: Disk, text: string)
    requires Counter in d.files
    ensures ApplyAll(c, d, Spell(Counter, text)) == d.(files := d.files[Counter := d.files[Counter] + text])
    ensures AllQuiet(Spell(Counter, text))
    decreases |text|
  {
    if text == "" {
      assert d.files[Counter] + text == d.files[Counter];
      assert d.files[Counter := d.files[Counter]] == d.files;
    } else {
      var e := Apply(c, d, Append(Counter, [text[0]]));
      assert Spell(Counter, text)[1..] == Spell(Counter, text[1..]);
      SpellWrites(c, e, text[1..]);
      assert d.files[Counter] + [text[0]] + text[1..] == d.files[Counter] + text;
    }
  }

  lemma CounterIsEmptied(c: Codec, d: Disk)
    ensures var ready := if Counter in d.files then [] else [Create(Counter)];
            && ApplyAll(c, d, ready + [Truncate(Counter)]) == d.(files := d.files[Counter := ""])
            && AllQuiet(ready + [Truncate(Counter)])
  {
    if Counter in d.files {
      assert [] + [Truncate(Counter)] == [Truncate(Counter)];
      SafeStep(c, d, Truncate(Counter));
    } else {
      assert ([Create(Counter)] + [Truncate(Counter)])[1..] == [Truncate(Counter)];
      SafeStep(c, Apply(c, d, Create(Counter)), Truncate(Counter));
    }
  }

  lemma CounterIsRewritten(c: Codec, d: Disk, text: string)
    ensures var ops := (if Counter in d.files then [] else [Create(Counter)]) + [Truncate(Counter)] +
        Spell(Counter, text);
            ApplyAll(c, d, ops) == d.(files := d.files[Counter := text]) && AllQuiet(ops)
  {
    var ready := if Counter in d.files then [] else [Create(Counter)];
    var e := d.(files := d.files[Counter := ""]);
    CounterIsEmptied(c, d);
    ApplyConcat(c, d, ready + [Truncate(Counter)], Spell(Counter, text));
    SpellWrites(c, e, text);
    assert "" + text == text;
    assert e.files[Counter := text] == d.files[Counter := text];
  }

  /** Taking a number touches the counter file only, and leaves the number in it. */
  lemma CountingIsQuiet(c: Codec, d: Disk, fault: CounterFault)
    ensures var plan := NextReceiptSequence(c, d.files, fault);
            && AllQuiet(plan.ops)
            && (plan.sequence.Some? ==>
                  ApplyAll(c, d, plan.ops) == d.(files := d.files[Counter := Decimal(plan.sequence.value) + "\n"]))
  {
    var current := ParseCounter(if Counter in d.files then d.files[Counter] else "");
    if current.Some? {
      CounterIsRewritten(c, d, Rewritten(Highest(Sequences(c, d.files), current.value) + 1, fault));
    }
  }

  lemma SafeStep(c: Codec, d: Disk, op: Op)
    ensures ApplyAll(c, d, [op]) == Apply(c, d, op)
  {
    assert [op][1..] == [];
  }

  // ----- a number above everything published -----

  /** The scan never falls behind, whatever the counter file says: the last published
      receipt is still there to be read. */
  lemma NextSequenceIsAboveAll(c: Codec, d: Disk, fault: CounterFault)
    requires Inv(c, d)
    ensures var n := NextReceiptSequence(c, d.files, fault).sequence;
            n.Some? ==> n.value >= 1 && AboveAll(n.value, d.issued)
  {
    if d.issued != [] {
      var id :| IsSequenceOf(c, d.files, id, Last(d.issued));
      assert Receipt(id) in d.files && ReadReceipt(c, d.files, id).Some?;
      assert Last(d.issued) in Sequences(c, d.files);
    }
  }

  lemma ShortDecimal(n: nat)
    requires n < SEQUENCE_LIMIT
    ensures |Decimal(n)| <= 31
  {
    assert Pow10(8) == 100_000_000;
    assert Pow10(16) == 10_000_000_000_000_000;
    assert Pow10(24) == 1_000_000_000_000_000_000_000_000;
    assert Pow10(31) == SEQUENCE_LIMIT;
    DecimalLength(n, 31);
  }

  /** A number taken is the number the counter file gives back. */
  lemma CounterReadsBack(n: nat)
    requires n < SEQUENCE_LIMIT
    ensures ParseCounter(Decimal(n) + "\n") == Some(n)
  {
    DecimalReads(n);
    ShortDecimal(n);
    var text := Decimal(n) + "\n";
    assert text[..|text| - 1] == Decimal(n);
  }

  /** Whatever part of a number a crash left behind still reads as one, so a torn counter never
      stops the receiver. */
  lemma TornCounterStillReads(n: nat, written: nat)
    requires n < SEQUENCE_LIMIT && written <= |Decimal(n)|
    ensures ParseCounter(Decimal(n)[..written]).Some?
  {
    DecimalReads(n);
    ShortDecimal(n);
    var torn := Decimal(n)[..written];
    assert AllDigits(torn) by {
      assert forall k :: 0 <= k < |torn| ==> torn[k] == Decimal(n)[k];
    }
    assert torn != "" ==> IsDigit(torn[|torn| - 1]);
  }

  // ----- publishing -----

  lemma ReceiptIsReady(c: Codec, d: Disk, id: string, part: Name, r: ReceiptDoc)
    requires Inv(c, d) && part.Part? && part !in d.files
    requires Receivable(c, d, id, r)
    ensures ReadyToPublish(c, d.(files := d.files[part := c.encode(r)]), id, part, r)
  {
  }

  /** A receipt for the stored metadata and dump of `id`, numbered above everything published. */
  ghost predicate Receivable(c: Codec, d: Disk, id: string, r: ReceiptDoc) {
    && BackupId(id) && !HasReceipt(d.files, id) && Survives(c, r)
    && Metadata(id) in d.files && 1 <= |d.files[Metadata(id)]| <= MAX_METADATA_BYTES
    && c.artifact(d.files[Metadata(id)], id).Some?
    && DumpMatches(c, d.files, id, c.artifact(d.files[Metadata(id)], id).value)
    && r == ReceiptFor(c, id, d.files[Metadata(id)], c.artifact(d.files[Metadata(id)], id).value, r.receivedAt,
                       r.sequence)
    && r.sequence >= 1 && AboveAll(r.sequence, d.issued)
  }

  /** A removed temporary leaves no trace. */
  lemma WithoutPart(files: Files, part: Name, value: Bytes, final: Name, content: Bytes)
    requires part !in files && part != final
    ensures files[part := value] - {part} == files
    ensures files[part := value][final := content] - {part} == files[final := content]
  {
  }

  lemma StoreReceiptIsSafe(c: Codec, d: Disk, id: string, r: ReceiptDoc, token: nat, fault: StoreFault)
    requires Inv(c, d) && Receivable(c, d, id, r)
    ensures var plan := StoreNoReplace(d.files, Receipt(id), c.encode(r), token, fault);
            && SafeAll(c, d, plan.ops)
            && ApplyAll(c, d, plan.ops).files == (if plan.ok then d.files[Receipt(id) := c.encode(r)] else d.files)
            && ApplyAll(c, d, plan.ops).issued == d.issued + (if plan.ok then [r.sequence] else [])
  {
    var part := Part(Receipt(id), token);
    if part !in d.files {
      var value := if fault.BeforeLink? then Prefix(c.encode(r), fault.written) else c.encode(r);
      TemporaryIsWritten(c, d, part, value);
      if !fault.BeforeLink? {
        ReceiptIsReady(c, d, id, part, r);
      }
      StoreTailIsSafe(c, d.(files := d.files[part := value]), id, part, r, fault);
      WithoutPart(d.files, part, value, Receipt(id), c.encode(r));
      WriteThenTailIsSafe(c, d, part, value, StoreTail(id, part, fault));
      StorePlanIsWriteThenTail(d.files, id, c.encode(r), token, fault);
    }
  }

  lemma WriteThenTailIsSafe(c: Codec, d: Disk, part: Name, value: Bytes, tail: seq<Op>)
    requires SafeAll(c, d, Written(part, value))
    requires ApplyAll(c, d, Written(part, value)) == d.(files := d.files[part := value])
    requires SafeAll(c, d.(files := d.files[part := value]), tail)
    ensures SafeAll(c, d, Written(part, value) + tail)
    ensures ApplyAll(c, d, Written(part, value) + tail) == ApplyAll(c, d.(files := d.files[part := value]), tail)
  {
    SafeConcat(c, d, Written(part, value), tail);
    ApplyConcat(c, d, Written(part, value), tail);
  }

  lemma UnlinkedStoreIsSafe(c: Codec, e: Disk, part: Name)
    requires Inv(c, e) && part.Part?
    ensures SafeAll(c, e, [Unlink(part)])
    ensures ApplyAll(c, e, [Unlink(part)]) == e.(files := e.files - {part})
  {
    QuietOpsAreSafe(c, e, [Unlink(part)]);
    SafeStep(c, e, Unlink(part));
  }

  lemma StoreTailIsSafe(c: Codec, e: Disk, id: string, part: Name, r: ReceiptDoc, fault: StoreFault)
    requires Inv(c, e) && part.Part? && (fault.BeforeLink? || ReadyToPublish(c, e, id, part, r))
    ensures SafeAll(c, e, StoreTail(id, part, fault))
    ensures ApplyAll(c, e, StoreTail(id, part, fault)).files ==
            (if fault.NoFault? then e.files[Receipt(id) := c.encode(r)] else e.files) - {part}
    ensures ApplyAll(c, e, StoreTail(id, part, fault)).issued ==
        e.issued + (if fault.NoFault? then [r.sequence] else [])
  {
    match fault
    case BeforeLink(_) => UnlinkedStoreIsSafe(c, e, part);
    case AfterLink => WithdrawnStoreIsSafe(c, e, id, part, r);
    case NoFault => CompletedStoreIsSafe(c, e, id, part, r);
  }

  lemma TemporaryIsWritten(c: Codec, d: Disk, part: Name, value: Bytes)
    requires Inv(c, d) && part !in d.files && !Durable(part)
    ensures ApplyAll(c, d, Written(part, value)) == d.(files := d.files[part := value])
    ensures SafeAll(c, d, Written(part, value)) && Inv(c, d.(files := d.files[part := value]))
  {
    assert Written(part, value)[1..] == [Append(part, value)];
    SafeStep(c, Apply(c, d, Create(part)), Append(part, value));
    assert "" + value == value;
    QuietOpsAreSafe(c, d, Written(part, value));
  }

  lemma CompletedStoreIsSafe(c: Codec, e: Disk, id: string, part: Name, r: ReceiptDoc)
    requires Inv(c, e) && ReadyToPublish(c, e, id, part, r)
    ensures var ops := [Link(part, Receipt(id)), Unlink(part)];
            && SafeAll(c, e, ops)
            && ApplyAll(c, e, ops).files == e.files[Receipt(id) := c.encode(r)] - {part}
            && ApplyAll(c, e, ops).issued == e.issued + [r.sequence]
  {
    var linked := Apply(c, e, Link(part, Receipt(id)));
    PublishedPairIsValid(c, e, id, part, r);
    PublishKeepsInv(c, e, id, part, r);
    QuietOpsAreSafe(c, linked, [Unlink(part)]);
    SafeStep(c, linked, Unlink(part));
    assert [Link(part, Receipt(id)), Unlink(part)][1..] == [Unlink(part)];
  }

  lemma WithdrawnStoreIsSafe(c: Codec, e: Disk, id: string, part: Name, r: ReceiptDoc)
    requires Inv(c, e) && part.Part? && ReadyToPublish(c, e, id, part, r)
    ensures var ops := [Link(part, Receipt(id)), Rollback(Receipt(id)), Unlink(part)];
            && SafeAll(c, e, ops)
            && ApplyAll(c, e, ops).files == e.files - {part}
            && ApplyAll(c, e, ops).issued == e.issued
  {
    var linked := Apply(c, e, Link(part, Receipt(id)));
    var withdrawn := Apply(c, linked, Rollback(Receipt(id)));
    PublishKeepsInv(c, e, id, part, r);
    WithdrawRestores(c, e, id, part, r);
    SafeOne(c, e, Link(part, Receipt(id)));
    SafeOne(c, linked, Rollback(Receipt(id)));
    UnlinkedStoreIsSafe(c, withdrawn, part);
    SafeThree(c, e, [Link(part, Receipt(id))], [Rollback(Receipt(id))], [Unlink(part)]);
    assert [Link(part, Receipt(id))] + [Rollback(Receipt(id))] + [Unlink(part)] ==
           [Link(part, Receipt(id)), Rollback(Receipt(id)), Unlink(part)];
  }

  /** The receipt a session can write next survives its encoding. */
  lemma NextReceiptSurvives(c: Codec, id: string, metadata: Bytes, a: Artifact, now: Moment, n: nat)
    requires Sound(c) && BackupId(id) && 1 <= |metadata| <= MAX_METADATA_BYTES
    requires c.artifact(metadata, id) == Some(a) && 1 <= n < SEQUENCE_LIMIT
    ensures Survives(c, ReceiptFor(c, id, metadata, a, now, n))
  {
    assert Writable(ReceiptFor(c, id, metadata, a, now, n));
  }

  /** `_publish_receipt` after the metadata of `id` was linked, when `k` numbers are used up. */
  lemma PublishIsSafe(c: Codec, d: Disk, id: string, metadata: Bytes, a: Artifact, w: World, k: nat)
    requires Sound(c) && Inv(c, d) && Numbered(d, k) && k + 1 < SEQUENCE_LIMIT
    requires BackupId(id) && !HasReceipt(d.files, id)
    requires Lookup(d.files, Metadata(id)) == Some(metadata) && 1 <= |metadata| <= MAX_METADATA_BYTES
    requires c.artifact(metadata, id) == Some(a) && DumpMatches(c, d.files, id, a)
    ensures var plan := PublishReceipt(c, d, id, metadata, a, w);
            var n := NextReceiptSequence(c, d.files, w.counterFault).sequence;
            var e := ApplyAll(c, d, plan.ops);
            && SafeAll(c, d, plan.ops) && NumberedAll(c, d, plan.ops, k + 1)
            && (plan.ok ==>
                  && n.Some?
                  && e.files == d.files[Counter := Decimal(n.value) + "\n"]
                                       [Receipt(id) := c.encode(ReceiptFor(c, id, metadata, a, w.now, n.value))]
                  && e.issued == d.issued + [n.value])
            && (!plan.ok ==> SameStore(d, e.(published := d.published)))
  {
    var next := NextReceiptSequence(c, d.files, w.counterFault);
    CountingIsQuiet(c, d, w.counterFault);
    QuietOpsAreSafe(c, d, next.ops);
    CountingIsNumbered(c, d, w.counterFault, k);
    if next.sequence.Some? {
      NextSequenceIsAboveAll(c, d, w.counterFault);
      NextNumberIsWithin(c, d, w.counterFault, k);
      CountedReceiptIsSafe(c, d, id, metadata, a, w, next.sequence.value, k);
      var stored := StoreNoReplace(ApplyAll(c, d, next.ops).files, Receipt(id),
                                   c.encode(ReceiptFor(c, id, metadata, a, w.now, next.sequence.value)),
                                       w.receiptToken, w.receiptFault);
      SafeConcat(c, d, next.ops, stored.ops);
      NumberedConcat(c, d, next.ops, stored.ops, k + 1);
      ApplyConcat(c, d, next.ops, stored.ops);
    }
  }

  /** With number `n` in the counter the receipt may be linked. */
  lemma NextReceiptIsReceivable(c: Codec, d: Disk, id: string, metadata: Bytes, a: Artifact, now: Moment, n: nat)
    requires Sound(c) && Inv(c, d) && BackupId(id) && !HasReceipt(d.files, id)
    requires Lookup(d.files, Metadata(id)) == Some(metadata) && 1 <= |metadata| <= MAX_METADATA_BYTES
    requires c.artifact(metadata, id) == Some(a) && DumpMatches(c, d.files, id, a)
    requires 1 <= n < SEQUENCE_LIMIT && AboveAll(n, d.issued)
    ensures var e := d.(files := d.files[Counter := Decimal(n) + "\n"]);
      Inv(c, e) && Receivable(c, e, id, ReceiptFor(c, id, metadata, a, now, n))
  {
    SameStoreKeepsInv(c, d, d.(files := d.files[Counter := Decimal(n) + "\n"]));
    NextReceiptSurvives(c, id, metadata, a, now, n);
  }

  /** Storing the receipt, once number `n` stands in the counter. */
  lemma CountedReceiptIsSafe(c: Codec, d: Disk, id: string, metadata: Bytes, a: Artifact, w: World, n: nat, k: nat)
    requires Sound(c) && Inv(c, d) && BackupId(id) && !HasReceipt(d.files, id)
    requires Lookup(d.files, Metadata(id)) == Some(metadata) && 1 <= |metadata| <= MAX_METADATA_BYTES
    requires c.artifact(metadata, id) == Some(a) && DumpMatches(c, d.files, id, a)
    requires 1 <= n <= k + 1 < SEQUENCE_LIMIT && AboveAll(n, d.issued)
    requires Numbered(d.(files := d.files[Counter := Decimal(n) + "\n"]), k + 1)
    ensures var e := d.(files := d.files[Counter := Decimal(n) + "\n"]);
            var r := ReceiptFor(c, id, metadata, a, w.now, n);
            var plan := StoreNoReplace(e.files, Receipt(id), c.encode(r), w.receiptToken, w.receiptFault);
            && SafeAll(c, e, plan.ops) && NumberedAll(c, e, plan.ops, k + 1)
            && ApplyAll(c, e, plan.ops).files == (if plan.ok then e.files[Receipt(id) := c.encode(r)] else e.files)
            && ApplyAll(c, e, plan.ops).issued == d.issued + (if plan.ok then [n] else [])
  {
    var e, r := d.(files := d.files[Counter := Decimal(n) + "\n"]), ReceiptFor(c, id, metadata, a, w.now, n);
    NextReceiptIsReceivable(c, d, id, metadata, a, w.now, n);
    NextReceiptSurvives(c, id, metadata, a, w.now, n);
    StoreReceiptIsSafe(c, e, id, r, w.receiptToken, w.receiptFault);
    StoringIsNumbered(c, e, id, r, w.receiptToken, w.receiptFault, k + 1);
  }

  // ----- put -----

  lemma NoFinalNoReceipt(c: Codec, d: Disk, u: Upload)
    requires Inv(c, d) && Final(u) !in d.files
    ensures !HasReceipt(d.files, u.id)
  {
    assert HasReceipt(d.files, u.id) ==> ReceiptOk(c, d, u.id);
  }

  lemma SafeThree(c: Codec, d: Disk, a: seq<Op>, b: seq<Op>, x: seq<Op>)
    requires SafeAll(c, d, a) && SafeAll(c, ApplyAll(c, d, a), b)
    requires SafeAll(c, ApplyAll(c, ApplyAll(c, d, a), b), x)
    ensures SafeAll(c, d, a + b + x)
    ensures ApplyAll(c, d, a + b + x) == ApplyAll(c, ApplyAll(c, ApplyAll(c, d, a), b), x)
  {
    SafeConcat(c, d, a, b);
    ApplyConcat(c, d, a, b);
    SafeConcat(c, d, a + b, x);
    ApplyConcat(c, d, a + b, x);
  }

  lemma UploadingIsSafe(c: Codec, d: Disk, u: Upload, w: World)
    requires Inv(c, d) && Final(u) !in d.files && Part(Final(u), w.token) !in d.files
    ensures SafeAll(c, d, Uploading(u, w))
    ensures Inv(c, ApplyAll(c, d, Uploading(u, w))) && !HasReceipt(ApplyAll(c, d, Uploading(u, w)).files, u.id)
  {
    var part := Part(Final(u), w.token);
    var written := [Create(part)] + Blocks(part, Received(u));
    var e := ApplyAll(c, d, written);
    NoFinalNoReceipt(c, d, u);
    UploadingStores(c, d, u, w);
    QuietOpsAreSafe(c, d, written);
    LooseOpKeepsInv(c, e, Link(part, Final(u)));
    SafeOne(c, e, Link(part, Final(u)));
    SafeConcat(c, d, written, [Link(part, Final(u))]);
    ApplyConcat(c, d, written, [Link(part, Final(u))]);
  }

  /** What a put may have done to the store by the time it ends. */
  ghost predicate PutEffect(c: Codec, d: Disk, u: Upload, w: World, ok: bool, e: Disk) {
    if ok && u.kind.DumpKind? then
      Acceptable(c, d.files, u) && e.files == d.files[Dump(u.id) := u.source] && e.issued == d.issued
    else if ok then
      && Acceptable(c, d.files, u)
      && exists n :: e.issued == d.issued + [n]
           && e.files == d.files[Metadata(u.id) := u.source][Counter := Decimal(n) + "\n"]
                [Receipt(u.id) := c.encode(ReceiptFor(c, u.id, u.source, c.artifact(u.source, u.id).value, w.now, n))]
    else
      && e.issued == d.issued
      && (forall n :: Durable(n) && n != Metadata(u.id) ==> SameAt(d.files, e.files, n))
      && (SameAt(d.files, e.files, Metadata(u.id)) ||
          (Lookup(d.files, Metadata(u.id)) == None && Lookup(e.files, Metadata(u.id)) == Some(u.source)))
  }

  lemma AbandonedUploadIsSafe(c: Codec, d: Disk, u: Upload, w: World, ops: seq<Op>)
    requires Inv(c, d) && AllQuiet(ops)
    ensures SafeAll(c, d, ops) && PutEffect(c, d, u, w, false, ApplyAll(c, d, ops))
  {
    QuietOpsAreSafe(c, d, ops);
  }

  lemma RollbackTailIsSafe(c: Codec, e: Disk, n: Name, part: Name)
    requires Inv(c, e) && Loose(e.files, Rollback(n)) && !Durable(part)
    ensures SafeAll(c, e, [Rollback(n), Unlink(part)])
    ensures ApplyAll(c, e, [Rollback(n), Unlink(part)]) == e.(files := e.files - {n} - {part})
  {
    var f := Apply(c, e, Rollback(n));
    LooseOpKeepsInv(c, e, Rollback(n));
    QuietOpsAreSafe(c, f, [Unlink(part)]);
    SafeStep(c, f, Unlink(part));
    assert [Rollback(n), Unlink(part)][1..] == [Unlink(part)];
  }

  lemma RolledBackUploadIsSafe(c: Codec, d: Disk, u: Upload, w: World)
    requires Inv(c, d) && Final(u) !in d.files && Part(Final(u), w.token) !in d.files
    ensures var ops := Uploading(u, w) + [Rollback(Final(u)), Unlink(Part(Final(u), w.token))];
            SafeAll(c, d, ops) && PutEffect(c, d, u, w, false, ApplyAll(c, d, ops))
  {
    var part := Part(Final(u), w.token);
    var e := ApplyAll(c, d, Uploading(u, w));
    UploadingIsSafe(c, d, u, w);
    UploadingStores(c, d, u, w);
    RollbackTailIsSafe(c, e, Final(u), part);
    var tail := [Rollback(Final(u)), Unlink(part)];
    SafeConcat(c, d, Uploading(u, w), tail);
    ApplyConcat(c, d, Uploading(u, w), tail);
    assert e.files - {Final(u)} - {part} == d.files;
  }

  lemma StoredDumpIsSafe(c: Codec, d: Disk, u: Upload, w: World)
    requires Inv(c, d) && Final(u) !in d.files && Part(Final(u), w.token) !in d.files
    requires u.kind.DumpKind? && Acceptable(c, d.files, u)
    ensures var ops := Uploading(u, w) + [Unlink(Part(Final(u), w.token))];
            SafeAll(c, d, ops) && PutEffect(c, d, u, w, true, ApplyAll(c, d, ops))
  {
    var part := Part(Final(u), w.token);
    var e := ApplyAll(c, d, Uploading(u, w));
    UploadingIsSafe(c, d, u, w);
    UploadingStores(c, d, u, w);
    QuietOpsAreSafe(c, e, [Unlink(part)]);
    SafeStep(c, e, Unlink(part));
    SafeConcat(c, d, Uploading(u, w), [Unlink(part)]);
    ApplyConcat(c, d, Uploading(u, w), [Unlink(part)]);
    assert Received(u) == u.source;
    assert ApplyAll(c, e, [Unlink(part)]).files == d.files[Dump(u.id) := u.source];
  }

  lemma CleanUpIsSafe(c: Codec, e: Disk, ops: seq<Op>, part: Name)
    requires SafeAll(c, e, ops) && part.Part?
    ensures SafeAll(c, ApplyAll(c, e, ops), [Unlink(part)])
    ensures ApplyAll(c, ApplyAll(c, e, ops), [Unlink(part)]) == Apply(c, ApplyAll(c, e, ops), Unlink(part))
  {
    SafePrefix(c, e, ops, |ops|);
    assert ops[..|ops|] == ops;
    QuietOpsAreSafe(c, ApplyAll(c, e, ops), [Unlink(part)]);
    SafeStep(c, ApplyAll(c, e, ops), Unlink(part));
  }

  lemma CleanUpIsNumbered(c: Codec, e: Disk, ops: seq<Op>, part: Name, k: nat)
    requires NumberedAll(c, e, ops, k) && part.Part?
    ensures NumberedAll(c, ApplyAll(c, e, ops), [Unlink(part)], k)
  {
    NumberedPrefix(c, e, ops, |ops|, k);
    assert ops[..|ops|] == ops;
    MildOpsAreNumbered(c, ApplyAll(c, e, ops), [Unlink(part)], k);
  }

  lemma UploadingIsMild(u: Upload, w: World)
    ensures AllMild(Uploading(u, w))
  {
    BlocksNameTheirFile(Part(Final(u), w.token), Received(u));
  }

  lemma NumberedThree(c: Codec, d: Disk, a: seq<Op>, b: seq<Op>, x: seq<Op>, k: nat)
    requires NumberedAll(c, d, a, k) && NumberedAll(c, ApplyAll(c, d, a), b, k)
    requires NumberedAll(c, ApplyAll(c, ApplyAll(c, d, a), b), x, k)
    ensures NumberedAll(c, d, a + b + x, k)
  {
    NumberedConcat(c, d, a, b, k);
    ApplyConcat(c, d, a, b);
    NumberedConcat(c, d, a + b, x, k);
  }

  lemma StoredMetadataIsSafe(c: Codec, d: Disk, u: Upload, w: World, k: nat)
    requires Sound(c) && Inv(c, d) && Numbered(d, k) && k + 1 < SEQUENCE_LIMIT && u.kind.MetadataKind?
    requires !Refused(c, d.files, u, w) && Acceptable(c, d.files, u)
    ensures var a := c.artifact(u.source, u.id).value;
            var published := PublishReceipt(c, ApplyAll(c, d, Uploading(u, w)), u.id, u.source, a, w);
            var ops := Uploading(u, w) + published.ops + [Unlink(Part(Final(u), w.token))];
            SafeAll(c, d, ops) && NumberedAll(c, d, ops, k + 1) &&
                PutEffect(c, d, u, w, published.ok, ApplyAll(c, d, ops))
  {
    var part, a := Part(Final(u), w.token), c.artifact(u.source, u.id).value;
    var e := ApplyAll(c, d, Uploading(u, w));
    UploadingIsSafe(c, d, u, w);
    UploadingStores(c, d, u, w);
    UploadingIsMild(u, w);
    MildOpsAreNumbered(c, d, Uploading(u, w), k);
    NumberedUpTo(d, k, k + 1);
    MildOpsAreNumbered(c, d, Uploading(u, w), k + 1);
    assert Received(u) == u.source;
    PublishIsSafe(c, e, u.id, u.source, a, w, k);
    var published := PublishReceipt(c, e, u.id, u.source, a, w);
    CleanUpIsSafe(c, e, published.ops, part);
    SafeThree(c, d, Uploading(u, w), published.ops, [Unlink(part)]);
    CleanUpIsNumbered(c, e, published.ops, part, k + 1);
    NumberedThree(c, d, Uploading(u, w), published.ops, [Unlink(part)], k + 1);
    var f := ApplyAll(c, e, published.ops);
    MetadataEffect(c, d, u, w, e, f, Apply(c, f, Unlink(part)), published,
                   NextReceiptSequence(c, e.files, w.counterFault).sequence);
  }

  lemma MetadataEffect(c: Codec, d: Disk, u: Upload, w: World, e: Disk, f: Disk, z: Disk, published: Plan,
                       n: Option<nat>)
    requires u.kind.MetadataKind? && Acceptable(c, d.files, u)
    requires Metadata(u.id) !in d.files && Part(Final(u), w.token) !in d.files
    requires e.issued == d.issued && e.files == d.files[Part(Final(u), w.token) := u.source][Metadata(u.id) := u.source]
    requires published.ok ==>
               && n.Some? && f.issued == e.issued + [n.value]
               && f.files == e.files[Counter := Decimal(n.value) + "\n"]
                    [Receipt(u.id) := c.encode(ReceiptFor(c, u.id, u.source, c.artifact(u.source, u.id).value, w.now,
                                                          n.value))]
    requires !published.ok ==> SameStore(e, f.(published := e.published))
    requires z == Apply(c, f, Unlink(Part(Final(u), w.token)))
    ensures PutEffect(c, d, u, w, published.ok, z)
  {
    if published.ok {
      var receipt := c.encode(ReceiptFor(c, u.id, u.source, c.artifact(u.source, u.id).value, w.now, n.value));
      assert z.files == d.files[Metadata(u.id) := u.source][Counter := Decimal(n.value) +
          "\n"][Receipt(u.id) := receipt];
    } else {
      forall m | Durable(m) && m != Metadata(u.id) ensures SameAt(d.files, z.files, m) {
        assert SameAt(e.files, f.files, m);
      }
      assert SameAt(e.files, f.files, Metadata(u.id));
    }
  }

  /** What a put does short of publishing. */
  lemma UnpublishedPutIsMild(c: Codec, d: Disk, u: Upload, w: World)
    requires u.kind.DumpKind? || w.writeFailsAfter.Some? || w.linkSyncFails || !Acceptable(c, d.files,
        u) || Refused(c, d.files, u, w)
    ensures AllMild(Put(c, d, u, w).ops)
  {
    var part := Part(Final(u), w.token);
    BlocksNameTheirFile(part, Received(u));
    UploadingIsMild(u, w);
    if w.writeFailsAfter.Some? {
      BlocksNameTheirFile(part, Prefix(Received(u), w.writeFailsAfter.value));
    }
  }

  lemma FailedUploadIsQuiet(c: Codec, d: Disk, u: Upload, w: World)
    requires !Refused(c, d.files, u, w) && (w.writeFailsAfter.Some? || !Acceptable(c, d.files, u))
    ensures AllQuiet(Put(c, d, u, w).ops) && !Put(c, d, u, w).ok
  {
    var part := Part(Final(u), w.token);
    BlocksNameTheirFile(part, Received(u));
    if w.writeFailsAfter.Some? {
      BlocksNameTheirFile(part, Prefix(Received(u), w.writeFailsAfter.value));
    }
  }

  /** A put keeps the invariant between any two of its file operations, moves the numbers on by
      at most one, and ends in exactly the described store. */
  lemma PutIsSafe(c: Codec, d: Disk, u: Upload, w: World, k: nat)
    requires Sound(c) && Inv(c, d) && Numbered(d, k) && k + 1 < SEQUENCE_LIMIT
    ensures SafeAll(c, d, Put(c, d, u, w).ops) && NumberedAll(c, d, Put(c, d, u, w).ops, k + 1)
    ensures PutEffect(c, d, u, w, Put(c, d, u, w).ok, ApplyAll(c, d, Put(c, d, u, w).ops))
  {
    if Refused(c, d.files, u, w) || w.writeFailsAfter.Some? || !Acceptable(c, d.files,
        u) || w.linkSyncFails || u.kind.DumpKind? {
      NumberedUpTo(d, k, k + 1);
      UnpublishedPutIsMild(c, d, u, w);
      MildOpsAreNumbered(c, d, Put(c, d, u, w).ops, k + 1);
    }
    if Refused(c, d.files, u, w) {
      AbandonedUploadIsSafe(c, d, u, w, []);
    } else if w.writeFailsAfter.Some? || !Acceptable(c, d.files, u) {
      FailedUploadIsQuiet(c, d, u, w);
      AbandonedUploadIsSafe(c, d, u, w, Put(c, d, u, w).ops);
    } else if w.linkSyncFails {
      RolledBackUploadIsSafe(c, d, u, w);
    } else if u.kind.DumpKind? {
      StoredDumpIsSafe(c, d, u, w);
    } else {
      StoredMetadataIsSafe(c, d, u, w, k);
    }
  }

  // ----- maintenance -----

  lemma {:induction false} ValidPairsAreValidated(c: Codec, files: Files, listing: seq<Name>)
    ensures forall p :: p in ValidPairs(c, files, listing) <==>
                        Receipt(p.backupId) in listing && ValidatedPair(c, files, p.backupId) == Some(p)
  {
    if listing != [] {
      var init, last := listing[..|listing| - 1], listing[|listing| - 1];
      ValidPairsAreValidated(c, files, init);
      assert forall n :: n in listing <==> n in init || n == last;
    }
  }

  ghost predicate IsLast(c: Codec, d: Disk, id: string) {
    d.issued != [] && IsSequenceOf(c, d.files, id, Last(d.issued))
  }

  /** The partition never expires the receipt published last: it is the newest pair. */
  lemma LastReceiptIsNotExpired(c: Codec, cal: Calendar, d: Disk, listing: seq<Name>,
                                keep: seq<StoredPair>, expired: seq<StoredPair>, now: nat, p: StoredPair)
    requires Inv(c, d) && Enumerates(listing, d.files)
    requires Partitions(cal, ValidPairs(c, d.files, listing), now, keep, expired)
    requires p in expired
    ensures !IsLast(c, d, p.backupId)
  {
    var pairs := ValidPairs(c, d.files, listing);
    ValidPairsAreValidated(c, d.files, listing);
    assert p in pairs && !Kept(cal, pairs, now, p);
    var newest := Newest(pairs);
    assert newest in pairs && p != newest && p.sequence <= newest.sequence;
    assert IsSequenceOf(c, d.files, p.backupId, p.sequence) &&
        IsSequenceOf(c, d.files, newest.backupId, newest.sequence);
    assert p.backupId != newest.backupId;
    assert ReceiptOk(c, d, newest.backupId);
    var k :| 0 <= k < |d.issued| && d.issued[k] == newest.sequence;
    assert newest.sequence <= Last(d.issued);
  }

  /** Removals only: what is left is unchanged. */
  ghost predicate Shrunk(d: Disk, e: Disk) {
    && e.published == d.published && e.issued == d.issued
    && forall n :: n in e.files ==> n in d.files && e.files[n] == d.files[n]
  }

  lemma SurvivorIsUnchanged(c: Codec, d: Disk, e: Disk, id: string)
    requires Inv(c, e) && Shrunk(d, e) && HasReceipt(e.files, id)
    ensures SamePair(d.files, e.files, id)
    ensures IsLast(c, e, id) ==> IsLast(c, d, id)
  {
    assert ReceiptOk(c, e, id);
    PairFrame(c, d.files, e.files, id);
  }

  lemma ExpireOneIsSafe(c: Codec, d: Disk, id: string)
    requires Inv(c, d) && !IsLast(c, d, id)
    ensures var ops := [Unlink(Receipt(id)), Unlink(Metadata(id)), Unlink(Dump(id))];
            && SafeAll(c, d, ops)
            && Inv(c, ApplyAll(c, d, ops)) && Shrunk(d, ApplyAll(c, d, ops))
  {
    var e := Apply(c, d, Unlink(Receipt(id)));
    UnlinkOlderReceiptKeepsInv(c, d, id);
    var f := Apply(c, e, Unlink(Metadata(id)));
    LooseOpKeepsInv(c, e, Unlink(Metadata(id)));
    LooseOpKeepsInv(c, f, Unlink(Dump(id)));
    var ops := [Unlink(Receipt(id)), Unlink(Metadata(id)), Unlink(Dump(id))];
    assert ops[1..][1..] == [Unlink(Dump(id))] && ops[1..][0] == Unlink(Metadata(id));
    SafeOne(c, f, Unlink(Dump(id)));
  }

  lemma {:induction false} ExpireIsSafe(c: Codec, d: Disk, expired: seq<StoredPair>)
    requires Inv(c, d) && forall p :: p in expired ==> !IsLast(c, d, p.backupId)
    ensures SafeAll(c, d, Expire(expired))
    ensures Inv(c, ApplyAll(c, d, Expire(expired))) && Shrunk(d, ApplyAll(c, d, Expire(expired)))
  {
    if expired != [] {
      var init, id := expired[..|expired| - 1], expired[|expired| - 1].backupId;
      ExpireIsSafe(c, d, init);
      var e := ApplyAll(c, d, Expire(init));
      if HasReceipt(e.files, id) {
        SurvivorIsUnchanged(c, d, e, id);
      }
      assert expired[|expired| - 1] in expired;
      ExpireOneIsSafe(c, e, id);
      var ops := [Unlink(Receipt(id)), Unlink(Metadata(id)), Unlink(Dump(id))];
      SafeConcat(c, d, Expire(init), ops);
      ApplyConcat(c, d, Expire(init), ops);
    }
  }

  lemma {:induction false} StalePartsAreQuiet(listing: seq<Name>, now: int, mtime: Name -> int)
    ensures AllQuiet(StalePartOps(listing, now, mtime))
  {
    if listing != [] {
      StalePartsAreQuiet(listing[..|listing| - 1], now, mtime);
    }
  }

  predicate AllUnlinks(ops: seq<Op>) { forall k :: 0 <= k < |ops| ==> ops[k].Unlink? }

  ghost function Names(ops: seq<Op>): set<Name> { set op | op in ops :: op.name }

  /** A list of unlinks removes exactly its names. */
  lemma {:induction false} UnlinksRemoveNames(c: Codec, d: Disk, ops: seq<Op>)
    requires AllUnlinks(ops)
    ensures ApplyAll(c, d, ops) == d.(files := d.files - Names(ops))
    decreases |ops|
  {
    if ops == [] {
      assert d.files - Names(ops) == d.files;
    } else {
      UnlinksRemoveNames(c, Apply(c, d, ops[0]), ops[1..]);
      assert forall op :: op in ops <==> op == ops[0] || op in ops[1..];
      assert Names(ops) == {ops[0].name} + Names(ops[1..]);
      assert d.files - {ops[0].name} - Names(ops[1..]) == d.files - Names(ops);
    }
  }

  lemma LooseUnlinkIsSafe(c: Codec, d: Disk, n: Name)
    requires Inv(c, d) && Loose(d.files, Unlink(n))
    ensures SafeAll(c, d, [Unlink(n)])
    ensures ApplyAll(c, d, [Unlink(n)]) == Apply(c, d, Unlink(n))
    ensures Inv(c, Apply(c, d, Unlink(n))) && Shrunk(d, Apply(c, d, Unlink(n)))
  {
    LooseOpKeepsInv(c, d, Unlink(n));
    SafeOne(c, d, Unlink(n));
  }

  /** `files` is the directory when maintenance began; no receipt appears during the run. */
  lemma {:induction false} OrphansAreSafe(c: Codec, d: Disk, files: Files, listing: seq<Name>, now: int,
                                          mtime: Name -> int)
    requires Inv(c, d) && forall id :: HasReceipt(d.files, id) ==> HasReceipt(files, id)
    ensures var ops := OrphanOps(c, files, listing, now, mtime);
            && SafeAll(c, d, ops)
            && Inv(c, ApplyAll(c, d, ops)) && Shrunk(d, ApplyAll(c, d, ops))
  {
    if listing != [] {
      var init, last := listing[..|listing| - 1], listing[|listing| - 1];
      OrphansAreSafe(c, d, files, init, now, mtime);
      var before := OrphanOps(c, files, init, now, mtime);
      var e := ApplyAll(c, d, before);
      if Orphaned(c, files, last, now, mtime) {
        assert !HasReceipt(d.files, last.id);
        assert !HasReceipt(e.files, last.id);
        OrphanIsSafe(c, e, last.id, Metadata(last.id) in files);
        var tail := if Metadata(last.id) in files then [Unlink(Metadata(last.id)), Unlink(last)] else [Unlink(last)];
        SafeConcat(c, d, before, tail);
        ApplyConcat(c, d, before, tail);
      }
    }
  }

  lemma OrphanIsSafe(c: Codec, e: Disk, id: string, hasMetadata: bool)
    requires Inv(c, e) && !HasReceipt(e.files, id)
    ensures var tail := if hasMetadata then [Unlink(Metadata(id)), Unlink(Dump(id))] else [Unlink(Dump(id))];
            && SafeAll(c, e, tail) && Inv(c, ApplyAll(c, e, tail)) && Shrunk(e, ApplyAll(c, e, tail))
  {
    if hasMetadata {
      LooseUnlinkIsSafe(c, e, Metadata(id));
      LooseUnlinkIsSafe(c, Apply(c, e, Unlink(Metadata(id))), Dump(id));
      assert [Unlink(Metadata(id)), Unlink(Dump(id))][1..] == [Unlink(Dump(id))];
    } else {
      LooseUnlinkIsSafe(c, e, Dump(id));
    }
  }

  lemma StalePartsAreSafe(c: Codec, d: Disk, listing: seq<Name>, now: int, mtime: Name -> int)
    requires Inv(c, d)
    ensures var ops := StalePartOps(listing, now, mtime);
            && SafeAll(c, d, ops) && Inv(c, ApplyAll(c, d, ops))
            && SameStore(d, ApplyAll(c, d, ops))
  {
    StalePartsAreQuiet(listing, now, mtime);
    QuietOpsAreSafe(c, d, StalePartOps(listing, now, mtime));
  }

  /** A maintenance run keeps the invariant between any two of its file operations. */
  lemma MaintainIsSafe(c: Codec, cal: Calendar, d: Disk, listing: seq<Name>, keep: seq<StoredPair>,
                       expired: seq<StoredPair>, now: nat, mtime: Name -> int)
    requires Inv(c, d) && Enumerates(listing, d.files)
    requires Partitions(cal, ValidPairs(c, d.files, listing), now, keep, expired)
    ensures SafeAll(c, d, Maintain(c, d.files, listing, expired, now, mtime))
  {
    forall p | p in expired ensures !IsLast(c, d, p.backupId) {
      LastReceiptIsNotExpired(c, cal, d, listing, keep, expired, now, p);
    }
    ExpireIsSafe(c, d, expired);
    var e := ApplyAll(c, d, Expire(expired));
    StalePartsAreSafe(c, e, listing, now, mtime);
    var f := ApplyAll(c, e, StalePartOps(listing, now, mtime));
    forall id | HasReceipt(f.files, id) ensures HasReceipt(d.files, id) {
      assert SameAt(e.files, f.files, Receipt(id));
    }
    OrphansAreSafe(c, f, d.files, listing, now, mtime);
    SafeThree(c, d, Expire(expired), StalePartOps(listing, now, mtime), OrphanOps(c, d.files, listing, now, mtime));
  }

  // ----- what maintenance removes -----

  ghost predicate IsExpired(expired: seq<StoredPair>, id: string) { exists p :: p in expired && p.backupId == id }

  /** The files a complete maintenance run removes, by the state it started from. */
  ghost predicate Removed(c: Codec, files: Files, expired: seq<StoredPair>, now: int, mtime: Name -> int, n: Name) {
    match n
    case Receipt(id) => IsExpired(expired, id)
    case Metadata(id) => IsExpired(expired, id) || (Dump(id) in files && Orphaned(c, files, Dump(id), now, mtime))
    case Dump(id) => IsExpired(expired, id) || Orphaned(c, files, n, now, mtime)
    case Part(_, _) => now - mtime(n) >= ORPHAN_SAFE_AGE
    case Counter => false
  }

  lemma {:induction false} ExpireNames(expired: seq<StoredPair>, n: Name)
    ensures AllUnlinks(Expire(expired))
    ensures n in Names(Expire(expired)) <==> Durable(n) && IsExpired(expired, n.id)
  {
    if expired != [] {
      var init, last := expired[..|expired| - 1], expired[|expired| - 1];
      ExpireNames(init, n);
      var tail := [Unlink(Receipt(last.backupId)), Unlink(Metadata(last.backupId)), Unlink(Dump(last.backupId))];
      NamesJoin(Expire(init), tail, n);
      assert tail[0] in tail && tail[1] in tail && tail[2] in tail;
      assert forall p :: p in expired <==> p in init || p == last;
      assert Durable(n) ==> (IsExpired(expired, n.id) <==> IsExpired(init, n.id) || n.id == last.backupId);
    }
  }

  lemma NamesJoin(a: seq<Op>, b: seq<Op>, n: Name)
    ensures n in Names(a + b) <==> n in Names(a) || n in Names(b)
  {
    assert forall op :: op in a + b <==> op in a || op in b;
  }

  lemma {:induction false} StalePartNames(listing: seq<Name>, now: int, mtime: Name -> int, n: Name)
    ensures AllUnlinks(StalePartOps(listing, now, mtime))
    ensures n in Names(StalePartOps(listing, now, mtime)) <==>
            n in listing && n.Part? && now - mtime(n) >= ORPHAN_SAFE_AGE
  {
    if listing != [] {
      var init, last := listing[..|listing| - 1], listing[|listing| - 1];
      StalePartNames(init, now, mtime, n);
      NamesJoin(StalePartOps(init, now, mtime), [Unlink(last)], n);
      assert n in listing <==> n in init || n == last;
      assert [Unlink(last)][0] in [Unlink(last)];
    }
  }

  lemma {:induction false} OrphanNames(c: Codec, files: Files, listing: seq<Name>, now: int, mtime: Name -> int,
                                       n: Name)
    ensures AllUnlinks(OrphanOps(c, files, listing, now, mtime))
    ensures n in files ==> (n in Names(OrphanOps(c, files, listing, now, mtime)) <==>
            || (n in listing && Orphaned(c, files, n, now, mtime))
            || (n.Metadata? && Dump(n.id) in listing && Orphaned(c, files, Dump(n.id), now, mtime)))
  {
    if listing != [] {
      var init, last := listing[..|listing| - 1], listing[|listing| - 1];
      OrphanNames(c, files, init, now, mtime, n);
      assert forall m :: m in listing <==> m in init || m == last;
      if Orphaned(c, files, last, now, mtime) {
        var tail := if Metadata(last.id) in files then [Unlink(Metadata(last.id)), Unlink(last)] else [Unlink(last)];
        NamesJoin(OrphanOps(c, files, init, now, mtime), tail, n);
        assert tail[0] in tail && tail[|tail| - 1] in tail;
      }
    }
  }

  /** A complete maintenance run removes exactly the three files of each expired backup, the
      stale temporaries and the stale unreceived uploads, and changes nothing else. */
  lemma MaintenanceRemovesExactly(c: Codec, d: Disk, listing: seq<Name>, expired: seq<StoredPair>, now: int,
                                  mtime: Name -> int)
    requires Enumerates(listing, d.files)
    ensures ApplyAll(c, d, Maintain(c, d.files, listing, expired, now, mtime)) ==
            d.(files := map n | n in d.files && !Removed(c, d.files, expired, now, mtime, n) :: d.files[n])
  {
    var a, b, o := Expire(expired), StalePartOps(listing, now, mtime), OrphanOps(c, d.files, listing, now, mtime);
    ExpireNames(expired, Counter);
    StalePartNames(listing, now, mtime, Counter);
    OrphanNames(c, d.files, listing, now, mtime, Counter);
    forall n | n in d.files
      ensures n in Names(a + b + o) <==> Removed(c, d.files, expired, now, mtime, n)
    {
      ExpireNames(expired, n);
      StalePartNames(listing, now, mtime, n);
      OrphanNames(c, d.files, listing, now, mtime, n);
      NamesJoin(a, b, n);
      NamesJoin(a + b, o, n);
    }
    UnlinksRemoveNames(c, d, a + b + o);
  }

  /** Maintenance neither counts nor publishes. */
  lemma MaintenanceIsMild(c: Codec, files: Files, listing: seq<Name>, expired: seq<StoredPair>, now: int,
                          mtime: Name -> int)
    ensures AllMild(Maintain(c, files, listing, expired, now, mtime))
  {
    var a, b, o := Expire(expired), StalePartOps(listing, now, mtime), OrphanOps(c, files, listing, now, mtime);
    ExpireIsMild(expired);
    StalePartsAreMild(listing, now, mtime);
    OrphansAreMild(c, files, listing, now, mtime);
    forall i | 0 <= i < |a + b + o| ensures Mild((a + b + o)[i]) {
      assert (a + b + o)[i] == if i < |a| then a[i] else if i < |a| + |b| then b[i - |a|] else o[i - |a| - |b|];
    }
  }

  lemma {:induction false} ExpireIsMild(expired: seq<StoredPair>)
    ensures AllMild(Expire(expired))
  {
    if expired != [] {
      ExpireIsMild(expired[..|expired| - 1]);
    }
  }

  lemma {:induction false} StalePartsAreMild(listing: seq<Name>, now: int, mtime: Name -> int)
    ensures AllMild(StalePartOps(listing, now, mtime))
  {
    if listing != [] {
      StalePartsAreMild(listing[..|listing| - 1], now, mtime);
    }
  }

  lemma {:induction false} OrphansAreMild(c: Codec, files: Files, listing: seq<Name>, now: int, mtime: Name -> int)
    ensures AllMild(OrphanOps(c, files, listing, now, mtime))
  {
    if listing != [] {
      OrphansAreMild(c, files, listing[..|listing| - 1], now, mtime);
    }
  }

  // ----- every run -----

  lemma SessionIsSafe(c: Codec, cal: Calendar, d: Disk, s: Session, k: nat)
    requires Sound(c) && Inv(c, d) && Numbered(d, k) && k + 1 < SEQUENCE_LIMIT
    ensures var e := ApplyAll(c, d, SessionOps(c, cal, d, s)); Inv(c, e) && Numbered(e, k + 1)
  {
    NumberedUpTo(d, k, k + 1);
    match s
    case PutSession(u, w, steps) =>
      var ops := Put(c, d, u, w).ops;
      PutIsSafe(c, d, u, w, k);
      SafePrefix(c, d, ops, Min(steps, |ops|));
      NumberedPrefix(c, d, ops, Min(steps, |ops|), k + 1);
    case MaintenanceSession(listing, keep, expired, now, mtime, steps) =>
      if Enumerates(listing, d.files) && Partitions(cal, ValidPairs(c, d.files, listing), now, keep, expired) {
        MaintainIsSafe(c, cal, d, listing, keep, expired, now, mtime);
        MaintenanceIsMild(c, d.files, listing, expired, now, mtime);
        var ops := Maintain(c, d.files, listing, expired, now, mtime);
        MildOpsAreNumbered(c, d, ops, k + 1);
        SafePrefix(c, d, ops, Min(steps, |ops|));
        NumberedPrefix(c, d, ops, Min(steps, |ops|), k + 1);
      }
  }

  lemma {:induction false} EveryRunIsSafe(c: Codec, cal: Calendar, d: Disk, sessions: seq<Session>, k: nat)
    requires Sound(c) && Inv(c, d) && Numbered(d, k) && k + |sessions| < SEQUENCE_LIMIT
    ensures Inv(c, Run(c, cal, d, sessions)) && Numbered(Run(c, cal, d, sessions), k + |sessions|)
    decreases |sessions|
  {
    if sessions != [] {
      SessionIsSafe(c, cal, d, sessions[0], k);
      EveryRunIsSafe(c, cal, ApplyAll(c, d, SessionOps(c, cal, d, sessions[0])), sessions[1..], k + 1);
    }
  }

  /** Main result on contents: in every directory reachable by fewer than 10^31 puts and maintenance
      runs, each cut off after any number of file operations, every receipt present names a dump and
      metadata that are present, accepted by validation, and unchanged since it was published. */
  lemma ReceiptsAlwaysNameValidBackups(c: Codec, cal: Calendar, sessions: seq<Session>, id: string)
    requires Sound(c) && |sessions| < SEQUENCE_LIMIT
    requires HasReceipt(Run(c, cal, EMPTY_DISK, sessions).files, id)
    ensures var d := Run(c, cal, EMPTY_DISK, sessions);
            && ValidatedPair(c, d.files, id).Some?
            && id in d.published
            && d.published[id] == Copy(Lookup(d.files, Dump(id)), Lookup(d.files, Metadata(id)), d.files[Receipt(id)])
  {
    EveryRunIsSafe(c, cal, EMPTY_DISK, sessions, 0);
    assert ReceiptOk(c, Run(c, cal, EMPTY_DISK, sessions), id);
  }

  /** Main result on numbering: over every such run the published sequence numbers strictly
      increase, whatever a crash leaves in the counter file, never exceed the number of sessions,
      and the receipt published last is still present. */
  lemma SequencesStrictlyIncrease(c: Codec, cal: Calendar, sessions: seq<Session>)
    requires Sound(c) && |sessions| < SEQUENCE_LIMIT
    ensures var d := Run(c, cal, EMPTY_DISK, sessions);
            && Increasing(d.issued)
            && (forall i :: 0 <= i < |d.issued| ==> d.issued[i] <= |sessions|)
            && (d.issued != [] ==> exists id :: IsSequenceOf(c, d.files, id, Last(d.issued)))
  {
    EveryRunIsSafe(c, cal, EMPTY_DISK, sessions, 0);
  }
}
