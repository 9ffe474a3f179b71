/** Crash safety of the receiver: the invariant that holds between any two file operations of any
    run, the receipts published last, and what publishing, withdrawing and removing a receipt do to
    both. */
module ReceiverSafety {
  import opened Common
  import opened Retention
  import opened Receiver

  predicate Durable(n: Name) { n.Dump? || n.Metadata? || n.Receipt? }

  predicate Increasing(s: seq<nat>) { forall i, j :: 0 <= i < j < |s| ==> s[i] < s[j] }

  predicate HasReceipt(files: Files, id: string) { Receipt(id) in files }

  /** A receipt names a dump and metadata that are present, accepted, and byte for byte what
      they were when the receipt was published. */
  ghost predicate ReceiptOk(c: Codec, d: Disk, id: string) {
    && ValidatedPair(c, d.files, id).Some?
    && id in d.published
    && d.published[id].dump == Lookup(d.files, Dump(id))
    && d.published[id].metadata == Lookup(d.files, Metadata(id))
    && Some(d.published[id].receipt) == Lookup(d.files, Receipt(id))
    && ValidatedPair(c, d.files, id).value.sequence in d.issued
  }

  ghost predicate IsSequenceOf(c: Codec, files: Files, id: string, sequence: nat) {
    HasReceipt(files, id) && ValidatedPair(c, files, id).Some? && ValidatedPair(c, files, id).value.sequence == sequence
  }

  function Last(s: seq<nat>): nat
    requires s != []
  {
    s[|s| - 1]
  }

  /** The invariant of every reachable directory. The receipt published last is always
      still there, which is what keeps the next sequence above all earlier ones. */
  ghost predicate Inv(c: Codec, d: Disk) {
    && (forall id :: HasReceipt(d.files, id) ==> ReceiptOk(c, d, id))
    && (forall a, b, n :: IsSequenceOf(c, d.files, a, n) && IsSequenceOf(c, d.files, b, n) ==> a == b)
    && Increasing(d.issued)
    && (d.issued != [] ==> exists id :: IsSequenceOf(c, d.files, id, Last(d.issued)))
  }

  // ----- frames -----

  ghost predicate SameAt(f: Files, g: Files, n: Name) { Lookup(f, n) == Lookup(g, n) }

  ghost predicate SamePair(f: Files, g: Files, id: string) {
    SameAt(f, g, Dump(id)) && SameAt(f, g, Metadata(id)) && SameAt(f, g, Receipt(id))
  }

  lemma PairFrame(c: Codec, f: Files, g: Files, id: string)
    requires SamePair(f, g, id)
    ensures ValidatedPair(c, f, id) == ValidatedPair(c, g, id)
    ensures HasReceipt(f, id) <==> HasReceipt(g, id)
  {
  }

  /** Whatever leaves every received backup and the history alone keeps the invariant. */
  lemma InvFrame(c: Codec, d: Disk, e: Disk)
    requires Inv(c, d) && e.published == d.published && e.issued == d.issued
    requires forall id :: HasReceipt(d.files, id) || HasReceipt(e.files, id) ==> SamePair(d.files, e.files, id)
    ensures Inv(c, e)
  {
    forall id | HasReceipt(e.files, id) ensures ReceiptOk(c, e, id) {
      PairFrame(c, d.files, e.files, id);
    }
    forall id, n ensures IsSequenceOf(c, e.files, id, n) <==> IsSequenceOf(c, d.files, id, n) {
      if HasReceipt(d.files, id) || HasReceipt(e.files, id) {
        PairFrame(c, d.files, e.files, id);
      }
    }
    if d.issued != [] {
      var id :| IsSequenceOf(c, d.files, id, Last(d.issued));
      assert IsSequenceOf(c, e.files, id, Last(d.issued));
    }
  }

  // ----- every state between two operations -----

  ghost predicate SafeAll(c: Codec, d: Disk, ops: seq<Op>)
    decreases |ops|
  {
    Inv(c, d) && (ops != [] ==> SafeAll(c, Apply(c, d, ops[0]), ops[1..]))
  }

  lemma {:induction false} ApplyConcat(c: Codec, d: Disk, a: seq<Op>, b: seq<Op>)
    ensures ApplyAll(c, d, a + b) == ApplyAll(c, ApplyAll(c, d, a), b)
    decreases |a|
  {
    if a == [] {
      assert a + b == b;
    } else {
      assert (a + b)[1..] == a[1..] + b;
      ApplyConcat(c, Apply(c, d, a[0]), a[1..], b);
    }
  }

  lemma {:induction false} SafeConcat(c: Codec, d: Disk, a: seq<Op>, b: seq<Op>)
    requires SafeAll(c, d, a) && SafeAll(c, ApplyAll(c, d, a), b)
    ensures SafeAll(c, d, a + b)
    decreases |a|
  {
    if a == [] {
      assert a + b == b;
    } else {
      assert (a + b)[1..] == a[1..] + b;
      SafeConcat(c, Apply(c, d, a[0]), a[1..], b);
    }
  }

  lemma {:induction false} SafePrefix(c: Codec, d: Disk, ops: seq<Op>, k: nat)
    requires SafeAll(c, d, ops) && k <= |ops|
    ensures SafeAll(c, d, ops[..k])
    ensures Inv(c, ApplyAll(c, d, ops[..k]))
    decreases |ops|
  {
    if k == 0 {
      assert ops[..0] == [];
    } else {
      assert ops[..k][1..] == ops[1..][..k - 1];
      SafePrefix(c, Apply(c, d, ops[0]), ops[1..], k - 1);
    }
  }

  lemma SafeOne(c: Codec, d: Disk, op: Op)
    requires Inv(c, d) && Inv(c, Apply(c, d, op))
    ensures SafeAll(c, d, [op])
    ensures ApplyAll(c, d, [op]) == Apply(c, d, op)
  {
    assert [op][1..] == [];
  }

  // ----- operations on temporary files and the counter -----

  predicate Quiet(op: Op) { !Durable(op.name) }

  predicate AllQuiet(ops: seq<Op>) { forall k :: 0 <= k < |ops| ==> Quiet(ops[k]) }

  /** The same received files and history; temporaries and the counter may differ. */
  ghost predicate SameStore(d: Disk, e: Disk) {
    && e.published == d.published && e.issued == d.issued
    && forall n :: Durable(n) ==> SameAt(d.files, e.files, n)
  }

  lemma QuietOpKeepsStore(c: Codec, d: Disk, op: Op)
    requires Quiet(op)
    ensures SameStore(d, Apply(c, d, op))
  {
  }

  lemma SameStoreKeepsInv(c: Codec, d: Disk, e: Disk)
    requires Inv(c, d) && SameStore(d, e)
    ensures Inv(c, e)
  {
    InvFrame(c, d, e);
  }

  lemma {:induction false} QuietOpsAreSafe(c: Codec, d: Disk, ops: seq<Op>)
    requires Inv(c, d) && AllQuiet(ops)
    ensures SafeAll(c, d, ops)
    ensures SameStore(d, ApplyAll(c, d, ops)) && Inv(c, ApplyAll(c, d, ops))
    decreases |ops|
  {
    if ops != [] {
      QuietOpKeepsStore(c, d, ops[0]);
      SameStoreKeepsInv(c, d, Apply(c, d, ops[0]));
      QuietOpsAreSafe(c, Apply(c, d, ops[0]), ops[1..]);
      var e, z := Apply(c, d, ops[0]), ApplyAll(c, d, ops);
      forall n | Durable(n) ensures SameAt(d.files, z.files, n) {
        assert SameAt(d.files, e.files, n) && SameAt(e.files, z.files, n);
      }
    }
  }

  // ----- operations on files that no receipt names -----

  predicate Loose(files: Files, op: Op) {
    && (op.Link? || op.Unlink? || op.Rollback?)
    && (op.name.Dump? || op.name.Metadata?)
    && !HasReceipt(files, op.name.id)
  }

  lemma LooseOpKeepsInv(c: Codec, d: Disk, op: Op)
    requires Inv(c, d) && Loose(d.files, op)
    ensures Inv(c, Apply(c, d, op))
    ensures forall id :: HasReceipt(Apply(c, d, op).files, id) <==> HasReceipt(d.files, id)
  {
    var e := Apply(c, d, op);
    forall id | HasReceipt(d.files, id) || HasReceipt(e.files, id) ensures SamePair(d.files, e.files, id) {
    }
    InvFrame(c, d, e);
  }

  // ----- removing a receipt that is not the last one published -----

  lemma UnlinkOlderReceiptKeepsInv(c: Codec, d: Disk, id: string)
    requires Inv(c, d)
    requires d.issued != [] ==> !IsSequenceOf(c, d.files, id, Last(d.issued))
    ensures Inv(c, Apply(c, d, Unlink(Receipt(id))))
  {
    var e := Apply(c, d, Unlink(Receipt(id)));
    forall other | HasReceipt(e.files, other) ensures ReceiptOk(c, e, other) && SamePair(d.files, e.files, other) {
      assert HasReceipt(d.files, other);
      PairFrame(c, d.files, e.files, other);
    }
    forall other, n | IsSequenceOf(c, e.files, other, n) ensures IsSequenceOf(c, d.files, other, n) {
      PairFrame(c, d.files, e.files, other);
    }
    if d.issued != [] {
      var last := Last(d.issued);
      var keeper :| IsSequenceOf(c, d.files, keeper, last);
      assert keeper != id;
      PairFrame(c, d.files, e.files, keeper);
      assert IsSequenceOf(c, e.files, keeper, last);
    }
  }

  // ----- publishing a receipt, and taking it back -----

  ghost predicate AboveAll(n: nat, s: seq<nat>) { forall i :: 0 <= i < |s| ==> s[i] < n }

  /** The temporary file holds a receipt for the stored metadata and dump of `id`, numbered
      above everything published so far. */
  ghost predicate ReadyToPublish(c: Codec, d: Disk, id: string, part: Name, r: ReceiptDoc) {
    && !Durable(part) && part in d.files && d.files[part] == c.encode(r)
    && BackupId(id) && !HasReceipt(d.files, id) && Survives(c, r)
    && Metadata(id) in d.files && 1 <= |d.files[Metadata(id)]| <= MAX_METADATA_BYTES
    && c.artifact(d.files[Metadata(id)], id).Some?
    && DumpMatches(c, d.files, id, c.artifact(d.files[Metadata(id)], id).value)
    && r == ReceiptFor(c, id, d.files[Metadata(id)], c.artifact(d.files[Metadata(id)], id).value, r.receivedAt,
                       r.sequence)
    && r.sequence >= 1 && AboveAll(r.sequence, d.issued)
  }

  lemma PublishedPairIsValid(c: Codec, d: Disk, id: string, part: Name, r: ReceiptDoc)
    requires ReadyToPublish(c, d, id, part, r)
    ensures var e := Apply(c, d, Link(part, Receipt(id)));
            && ValidatedPair(c, e.files, id) == Some(StoredPair(id, r.receivedAt, r.sequence))
            && e.issued == d.issued + [r.sequence]
            && e.files == d.files[Receipt(id) := c.encode(r)]
            && e.published == d.published[id := Copy(Lookup(d.files, Dump(id)), Lookup(d.files, Metadata(id)),
                                                     c.encode(r))]
  {
  }

  lemma PublishKeepsInv(c: Codec, d: Disk, id: string, part: Name, r: ReceiptDoc)
    requires Inv(c, d) && ReadyToPublish(c, d, id, part, r)
    ensures Inv(c, Apply(c, d, Link(part, Receipt(id))))
    ensures IsSequenceOf(c, Apply(c, d, Link(part, Receipt(id))).files, id, r.sequence)
  {
    var e := Apply(c, d, Link(part, Receipt(id)));
    PublishedPairIsValid(c, d, id, part, r);
    assert Last(e.issued) == r.sequence;
    assert r.sequence in e.issued;
    forall other | HasReceipt(e.files, other) ensures ReceiptOk(c, e, other) {
      if other != id {
        assert HasReceipt(d.files, other);
        PairFrame(c, d.files, e.files, other);
        assert ReceiptOk(c, d, other);
      }
    }
    forall a, n | a != id ensures IsSequenceOf(c, e.files, a, n) <==> IsSequenceOf(c, d.files, a, n) {
      PairFrame(c, d.files, e.files, a);
    }
    forall a, n: nat | a != id && IsSequenceOf(c, e.files, a, n) ensures n < r.sequence {
      assert ReceiptOk(c, d, a);
    }
    assert IsSequenceOf(c, e.files, id, r.sequence);
  }

  /** A receipt whose directory sync failed is withdrawn, and with it its number. */
  lemma WithdrawRestores(c: Codec, d: Disk, id: string, part: Name, r: ReceiptDoc)
    requires Inv(c, d) && ReadyToPublish(c, d, id, part, r)
    ensures var e := Apply(c, Apply(c, d, Link(part, Receipt(id))), Rollback(Receipt(id)));
            e.files == d.files && e.issued == d.issued && Inv(c, e)
  {
    PublishedPairIsValid(c, d, id, part, r);
    var e := Apply(c, Apply(c, d, Link(part, Receipt(id))), Rollback(Receipt(id)));
    assert e.issued == d.issued;
    assert e.files == d.files;
    forall other | HasReceipt(e.files, other) ensures ReceiptOk(c, e, other) {
      assert ReceiptOk(c, d, other);
    }
  }

  // ----- storing a receipt, in two stretches -----

  function Written(part: Name, value: Bytes): seq<Op> { [Create(part), Append(part, value)] }

  function StoreTail(id: string, part: Name, fault: StoreFault): seq<Op> {
    match fault
    case BeforeLink(_) => [Unlink(part)]
    case AfterLink => [Link(part, Receipt(id)), Rollback(Receipt(id)), Unlink(part)]
    case NoFault => [Link(part, Receipt(id)), Unlink(part)]
  }

  lemma StorePlanIsWriteThenTail(files: Files, id: string, value: Bytes, token: nat, fault: StoreFault)
    requires Receipt(id) !in files && Part(Receipt(id), token) !in files
    ensures var part, stored := Part(Receipt(id), token), if fault.BeforeLink? then Prefix(value, fault.written)
        else value;
            StoreNoReplace(files, Receipt(id), value, token, fault) ==
            Plan(Written(part, stored) + StoreTail(id, part, fault), fault.NoFault?)
  {
  }

  lemma WrittenApplies(c: Codec, d: Disk, part: Name, value: Bytes)
    requires part !in d.files
    ensures ApplyAll(c, d, Written(part, value)) == d.(files := d.files[part := value])
  {
    var created, append := Apply(c, d, Create(part)), [Append(part, value)];
    assert Written(part, value)[1..] == append && append[1..] == [];
    assert ApplyAll(c, created, append) == Apply(c, created, Append(part, value));
    assert "" + value == value;
  }
}
