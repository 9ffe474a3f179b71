/** A sound codec exists, and with any sound codec receipts do get published: the results about the
    receiver's runs speak of something. */
module ReceiverCodec {
  import opened Common
  import opened Retention
  import opened Receiver
  import opened ReceiverSafety
  import opened ReceiverNumbers
  import opened ReceiverRuns

  // ----- one text form of a receipt -----

  function Number(n: nat): string { Decimal(n) + "\n" }

  /** The fields one after another; file names follow from the id. */
  function Text(r: ReceiptDoc): Bytes {
    r.backupId + (r.dump.sha256 + (r.metadata.sha256 +
      (Number(r.dump.bytes) + (Number(r.metadata.bytes) + (Number(r.receivedAt) + Number(r.sequence))))))
  }

  /** A number ends at its newline, whatever follows. */
  lemma {:induction false} DigitsEndAtNewline(a: string, b: string, x: string, y: string)
    requires AllDigits(a) && AllDigits(b) && a + ("\n" + x) == b + ("\n" + y)
    ensures a == b && x == y
  {
    var s, t := a + ("\n" + x), b + ("\n" + y);
    assert s[|a|] == '\n' && t[|b|] == '\n';
    assert |a| < |b| ==> t[|a|] == b[|a|] && IsDigit(b[|a|]);
    assert |b| < |a| ==> s[|b|] == a[|b|] && IsDigit(a[|b|]);
    assert |a| == |b|;
    assert s[..|a|] == a && t[..|b|] == b;
    assert s[|a| + 1..] == x && t[|b| + 1..] == y;
  }

  lemma NumberReads(m: nat, n: nat, x: string, y: string)
    requires Number(m) + x == Number(n) + y
    ensures m == n && x == y
  {
    DecimalReads(m);
    DecimalReads(n);
    assert Number(m) + x == Decimal(m) + ("\n" + x);
    assert Number(n) + y == Decimal(n) + ("\n" + y);
    DigitsEndAtNewline(Decimal(m), Decimal(n), x, y);
  }

  lemma FixedWidthReads(a: string, b: string, x: string, y: string)
    requires |a| == |b| && a + x == b + y
    ensures a == b && x == y
  {
    assert (a + x)[..|a|] == a && (b + y)[..|b|] == b;
    assert (a + x)[|a|..] == x && (b + y)[|b|..] == y;
  }

  lemma TextReads(r: ReceiptDoc, s: ReceiptDoc)
    requires Writable(r) && Writable(s) && Text(r) == Text(s)
    ensures r == s
  {
    var n := (q: ReceiptDoc) => Number(q.dump.bytes) +
        (Number(q.metadata.bytes) + (Number(q.receivedAt) + Number(q.sequence)));
    FixedWidthReads(r.backupId, s.backupId, r.dump.sha256 + (r.metadata.sha256 + n(r)), s.dump.sha256 +
        (s.metadata.sha256 + n(s)));
    FixedWidthReads(r.dump.sha256, s.dump.sha256, r.metadata.sha256 + n(r), s.metadata.sha256 + n(s));
    FixedWidthReads(r.metadata.sha256, s.metadata.sha256, n(r), n(s));
    NumbersRead(r, s);
  }

  lemma NumbersRead(r: ReceiptDoc, s: ReceiptDoc)
    requires Number(r.dump.bytes) + (Number(r.metadata.bytes) + (Number(r.receivedAt) + Number(r.sequence))) ==
             Number(s.dump.bytes) + (Number(s.metadata.bytes) + (Number(s.receivedAt) + Number(s.sequence)))
    ensures r.dump.bytes == s.dump.bytes && r.metadata.bytes == s.metadata.bytes
    ensures r.receivedAt == s.receivedAt && r.sequence == s.sequence
  {
    NumberReads(r.dump.bytes, s.dump.bytes, Number(r.metadata.bytes) + (Number(r.receivedAt) + Number(r.sequence)),
                Number(s.metadata.bytes) + (Number(s.receivedAt) + Number(s.sequence)));
    NumberReads(r.metadata.bytes, s.metadata.bytes, Number(r.receivedAt) + Number(r.sequence), Number(s.receivedAt) +
        Number(s.sequence));
    NumberReads(r.receivedAt, s.receivedAt, Number(r.sequence), Number(s.sequence));
    assert Number(r.sequence) + "" == Number(r.sequence) && Number(s.sequence) + "" == Number(s.sequence);
    NumberReads(r.sequence, s.sequence, "", "");
  }

  lemma TextFits(r: ReceiptDoc)
    requires Writable(r)
    ensures 1 <= |Text(r)| <= MAX_METADATA_BYTES
  {
    ShortDecimal(r.dump.bytes);
    ShortDecimal(r.metadata.bytes);
    ShortDecimal(r.receivedAt);
    ShortDecimal(r.sequence);
  }

  // ----- a codec -----

  const ZEROS: string := seq(64, _ => '0')

  ghost function Read(value: Bytes): Option<ReceiptDoc> {
    if exists r :: Writable(r) && Text(r) == value then
      var r :| Writable(r) && Text(r) == value;
      Some(r)
    else None
  }

  ghost function PlainCodec(): Codec {
    Codec(_ => ZEROS, (_, _) => Some(Artifact(1, ZEROS)), r => Text(r), value => Read(value))
  }

  lemma ASoundCodecExists()
    ensures Sound(PlainCodec())
  {
    var c := PlainCodec();
    assert HexDigest(ZEROS);
    forall r | Writable(r) ensures Survives(c, r) {
      TextFits(r);
      var s := Read(Text(r)).value;
      TextReads(r, s);
    }
  }

  // ----- receipts do get published -----

  /** Nothing fails, and the temporaries' names are new. */
  ghost predicate Undisturbed(d: Disk, u: Upload, w: World) {
    && w.writeFailsAfter.None? && !w.linkSyncFails && w.counterFault.CounterWorks? && w.receiptFault.NoFault?
    && Part(Final(u), w.token) !in d.files && Part(Receipt(u.id), w.receiptToken) !in d.files
  }

  /** An acceptable upload of a new backup succeeds when nothing fails. */
  lemma UndisturbedPutSucceeds(c: Codec, d: Disk, u: Upload, w: World)
    requires Inv(c, d) && !Refused(c, d.files, u, w) && Acceptable(c, d.files, u) && Undisturbed(d, u, w)
    requires ParseCounter(if Counter in d.files then d.files[Counter] else "").Some?
    ensures Put(c, d, u, w).ok
  {
    if u.kind.MetadataKind? {
      UploadingStores(c, d, u, w);
      NoFinalNoReceipt(c, d, u);
      CountingIsQuiet(c, ApplyAll(c, d, Uploading(u, w)), w.counterFault);
    }
  }

  const CALM_WORLD := World(0, 0, 0, None, false, CounterWorks, NoFault)

  function DumpUpload(c: Codec, id: string, dump: Bytes): Upload { Upload(id, DumpKind, |dump|, c.sha256(dump), dump) }

  function MetadataUpload(c: Codec, id: string, metadata: Bytes): Upload {
    Upload(id, MetadataKind, |metadata|, c.sha256(metadata), metadata)
  }

  lemma DumpIsWelcome(c: Codec, id: string, dump: Bytes)
    requires Sound(c) && BackupId(id) && 1 <= |dump| <= MAX_DUMP_BYTES
    ensures var u := DumpUpload(c, id, dump);
      && !Refused(c, EMPTY_DISK.files, u, CALM_WORLD) && Acceptable(c, EMPTY_DISK.files, u)
      && Undisturbed(EMPTY_DISK, u, CALM_WORLD)
    ensures Inv(c, EMPTY_DISK) && Numbered(EMPTY_DISK, 0)
  {
  }

  lemma DumpGetsStored(c: Codec, id: string, dump: Bytes)
    requires Sound(c) && BackupId(id) && 1 <= |dump| <= MAX_DUMP_BYTES
    ensures var d := ApplyAll(c, EMPTY_DISK, Put(c, EMPTY_DISK, DumpUpload(c, id, dump), CALM_WORLD).ops);
      d.files == map[Dump(id) := dump] && Inv(c, d) && Numbered(d, 1)
  {
    var u := DumpUpload(c, id, dump);
    DumpIsWelcome(c, id, dump);
    UndisturbedPutSucceeds(c, EMPTY_DISK, u, CALM_WORLD);
    PutIsSafe(c, EMPTY_DISK, u, CALM_WORLD, 0);
    WholePlanIsSafe(c, EMPTY_DISK, Put(c, EMPTY_DISK, u, CALM_WORLD).ops, 1);
  }

  lemma WholePlanIsSafe(c: Codec, d: Disk, ops: seq<Op>, k: nat)
    requires SafeAll(c, d, ops) && NumberedAll(c, d, ops, k)
    ensures Inv(c, ApplyAll(c, d, ops)) && Numbered(ApplyAll(c, d, ops), k)
  {
    SafePrefix(c, d, ops, |ops|);
    NumberedPrefix(c, d, ops, |ops|, k);
    assert ops[..|ops|] == ops;
  }

  lemma MetadataIsWelcome(c: Codec, d: Disk, id: string, dump: Bytes, metadata: Bytes)
    requires Sound(c) && BackupId(id) && 1 <= |metadata| <= MAX_METADATA_BYTES && d.files == map[Dump(id) := dump]
    requires c.artifact(metadata, id) == Some(Artifact(|dump|, c.sha256(dump)))
    ensures var u := MetadataUpload(c, id, metadata);
      && !Refused(c, d.files, u, CALM_WORLD) && Acceptable(c, d.files, u) && Undisturbed(d, u, CALM_WORLD)
  {
  }

  lemma MetadataGetsReceipt(c: Codec, d: Disk, id: string, dump: Bytes, metadata: Bytes)
    requires Sound(c) && BackupId(id) && 1 <= |dump| <= MAX_DUMP_BYTES && 1 <= |metadata| <= MAX_METADATA_BYTES
    requires c.artifact(metadata, id) == Some(Artifact(|dump|, c.sha256(dump)))
    requires d.files == map[Dump(id) := dump] && Inv(c, d) && Numbered(d, 1)
    ensures HasReceipt(ApplyAll(c, d, Put(c, d, MetadataUpload(c, id, metadata), CALM_WORLD).ops).files, id)
  {
    var u := MetadataUpload(c, id, metadata);
    MetadataIsWelcome(c, d, id, dump, metadata);
    UndisturbedPutSucceeds(c, d, u, CALM_WORLD);
    PutIsSafe(c, d, u, CALM_WORLD, 1);
  }

  /** With any sound codec, uploading a dump and metadata that describes it ends in a published
      receipt; so the results on runs are about directories that hold receipts. */
  lemma ReceiptsDoGetPublished(c: Codec, cal: Calendar, id: string, dump: Bytes,
                               metadata: Bytes) returns (sessions: seq<Session>)
    requires Sound(c) && BackupId(id) && 1 <= |dump| <= MAX_DUMP_BYTES && 1 <= |metadata| <= MAX_METADATA_BYTES
    requires c.artifact(metadata, id) == Some(Artifact(|dump|, c.sha256(dump)))
    ensures |sessions| == 2 && HasReceipt(Run(c, cal, EMPTY_DISK, sessions).files, id)
  {
    var first, second := DumpUpload(c, id, dump), MetadataUpload(c, id, metadata);
    var ops := Put(c, EMPTY_DISK, first, CALM_WORLD).ops;
    var d := ApplyAll(c, EMPTY_DISK, ops);
    var more := Put(c, d, second, CALM_WORLD).ops;
    DumpGetsStored(c, id, dump);
    MetadataGetsReceipt(c, d, id, dump, metadata);
    sessions := [PutSession(first, CALM_WORLD, |ops|), PutSession(second, CALM_WORLD, |more|)];
    assert ops[..|ops|] == ops && more[..|more|] == more;
    var rest := sessions[1..];
    assert rest[1..] == [];
    assert Run(c, cal, EMPTY_DISK, sessions) == Run(c, cal, d, rest);
    assert Run(c, cal, d, rest) == Run(c, cal, ApplyAll(c, d, more), []);
  }
}
