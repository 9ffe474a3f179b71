/** The backup receiver as a file store. Each operation is the sequence of file operations
    the code performs; a crash keeps any prefix of it. */
module Receiver {
  import opened Common
  import opened Retention

  type Bytes = string

  const MAX_METADATA_BYTES := 64 * 1024
  const MAX_DUMP_BYTES := 1024 * 1024 * 1024
  const BLOCK := 1024 * 1024
  const ORPHAN_SAFE_AGE := 48 * 3600

  /** Seconds from the calendar's first day to the end of the year 9999, the last the clock shows. */
  const END_OF_TIME: nat := 3652059 * DAY
  type Moment = t: nat | t < END_OF_TIME

  datatype Name =
    | Dump(id: string)
    | Metadata(id: string)
    | Receipt(id: string)
    | Part(final: Name, token: nat)
    | Counter

  type Files = map<Name, Bytes>

  datatype Artifact = Artifact(bytes: nat, sha256: string)

  datatype ReceiptDoc = ReceiptDoc(
    backupId: string, dumpFile: Name, dump: Artifact,
    metadataFile: Name, metadata: Artifact, receivedAt: nat, sequence: nat)

  predicate IsHex(ch: char) { '0' <= ch <= '9' || 'a' <= ch <= 'f' }

  predicate HexDigest(s: string) { |s| == 64 && forall i :: 0 <= i < 64 ==> IsHex(s[i]) }

  /** `BACKUP_ID_PATTERN`: eight digits, `T`, six digits, `Z-`, eight hex digits. */
  predicate BackupId(id: string) {
    && |id| == 25 && id[8] == 'T' && id[15] == 'Z' && id[16] == '-'
    && (forall i :: 0 <= i < 8 ==> IsDigit(id[i]))
    && (forall i :: 9 <= i < 15 ==> IsDigit(id[i]))
    && (forall i :: 17 <= i < 25 ==> IsHex(id[i]))
  }

  /** Hashing, metadata validation and the receipt's JSON text, all left abstract.
      `artifact` is what `validate_backup_metadata` reads out of acceptable metadata. */
  datatype Codec = Codec(
    sha256: Bytes -> string,
    artifact: (Bytes, string) -> Option<Artifact>,
    encode: ReceiptDoc -> Bytes,
    decode: Bytes -> Option<ReceiptDoc>)

  /** A receipt survives its own encoding and fits the size limit of the reader. */
  predicate Survives(c: Codec, r: ReceiptDoc) {
    c.decode(c.encode(r)) == Some(r) && 1 <= |c.encode(r)| <= MAX_METADATA_BYTES
  }

  predicate AcceptableArtifact(a: Artifact) { 1 <= a.bytes <= MAX_DUMP_BYTES && HexDigest(a.sha256) }

  /** The numbers whose counter file the receiver can read back: 31 digits and the newline. */
  const SEQUENCE_LIMIT: nat := 10_000_000_000_000_000_000_000_000_000_000

  /** The receipts the receiver can come to write. */
  predicate Writable(r: ReceiptDoc) {
    && BackupId(r.backupId)
    && r.dumpFile == Dump(r.backupId) && AcceptableArtifact(r.dump)
    && r.metadataFile == Metadata(r.backupId)
    && 1 <= r.metadata.bytes <= MAX_METADATA_BYTES && HexDigest(r.metadata.sha256)
    && r.receivedAt < END_OF_TIME
    && 1 <= r.sequence < SEQUENCE_LIMIT
  }

  /** What is asked of hashing, validation and text: digests are 64 hex digits, validated metadata
      describes a dump within the limits, and every receipt that can be written survives. */
  ghost predicate Sound(c: Codec) {
    && (forall value :: HexDigest(c.sha256(value)))
    && (forall value, id :: c.artifact(value, id).Some? ==> AcceptableArtifact(c.artifact(value, id).value))
    && (forall r :: Writable(r) ==> Survives(c, r))
  }

  // ----- reading -----

  function ReadRegular(files: Files, name: Name, maximum: nat): Option<Bytes> {
    if name in files && 1 <= |files[name]| <= maximum then Some(files[name]) else None
  }

  function ParseReceipt(c: Codec, value: Bytes, id: string): Option<ReceiptDoc> {
    match c.decode(value)
    case None => None
    case Some(r) => if r.backupId == id && r.sequence >= 1 then Some(r) else None
  }

  function ReadReceipt(c: Codec, files: Files, id: string): Option<ReceiptDoc> {
    match ReadRegular(files, Receipt(id), MAX_METADATA_BYTES)
    case None => None
    case Some(value) => ParseReceipt(c, value, id)
  }

  function DumpMatches(c: Codec, files: Files, id: string, a: Artifact): bool {
    Dump(id) in files && |files[Dump(id)]| == a.bytes && c.sha256(files[Dump(id)]) == a.sha256
  }

  function ReceiptFor(c: Codec, id: string, metadata: Bytes, a: Artifact, receivedAt: nat, sequence: nat): ReceiptDoc {
    ReceiptDoc(id, Dump(id), a, Metadata(id), Artifact(|metadata|, c.sha256(metadata)), receivedAt, sequence)
  }

  /** `_validated_pair`; None where it raises. */
  function ValidatedPair(c: Codec, files: Files, id: string): Option<StoredPair> {
    var receipt := ReadReceipt(c, files, id);
    var metadata := ReadRegular(files, Metadata(id), MAX_METADATA_BYTES);
    if !BackupId(id) || receipt.None? || metadata.None? then None
    else
      var r, artifact := receipt.value, c.artifact(metadata.value, id);
      if artifact.Some?
         && r == ReceiptFor(c, id, metadata.value, artifact.value, r.receivedAt, r.sequence)
         && DumpMatches(c, files, id, artifact.value)
      then Some(StoredPair(id, r.receivedAt, r.sequence))
      else None
  }

  // ----- file operations -----

  datatype Op =
    | Create(name: Name)
    | Append(name: Name, block: Bytes)
    | Truncate(name: Name)
    | Link(source: Name, name: Name)
    | Unlink(name: Name)
    | Rollback(name: Name)  // the unlink of a final name whose directory sync failed

  /** The directory, and two histories no code reads: the three files of each backup as they
      were when its receipt appeared, and the sequences of the receipts that were published. */
  datatype Copy = Copy(dump: Option<Bytes>, metadata: Option<Bytes>, receipt: Bytes)

  datatype Disk = Disk(files: Files, published: map<string, Copy>, issued: seq<nat>)

  const EMPTY_DISK := Disk(map[], map[], [])

  function Lookup(files: Files, name: Name): Option<Bytes> { if name in files then Some(files[name]) else None }

  function Apply(c: Codec, d: Disk, op: Op): Disk {
    match op
    case Create(n) => if n in d.files then d else d.(files := d.files[n := ""])
    case Append(n, block) => if n in d.files then d.(files := d.files[n := d.files[n] + block]) else d
    case Truncate(n) => if n in d.files then d.(files := d.files[n := ""]) else d
    case Link(source, n) =>
      if source !in d.files || n in d.files then d
      else
        var linked := d.(files := d.files[n := d.files[source]]);
        if !n.Receipt? then linked
        else
          var copy := Copy(Lookup(d.files, Dump(n.id)), Lookup(d.files, Metadata(n.id)), d.files[source]);
          var numbers := match c.decode(d.files[source]) case None => [] case Some(r) => [r.sequence];
          linked.(published := d.published[n.id := copy], issued := d.issued + numbers)
    case Unlink(n) => d.(files := d.files - {n})
    case Rollback(n) =>
      if n.Receipt? && d.issued != [] then d.(files := d.files - {n}, issued := d.issued[..|d.issued| - 1])
      else d.(files := d.files - {n})
  }

  function ApplyAll(c: Codec, d: Disk, ops: seq<Op>): Disk
    decreases |ops|
  {
    if ops == [] then d else ApplyAll(c, Apply(c, d, ops[0]), ops[1..])
  }

  /** What an operation does: its file operations in order, and whether it reports success. */
  datatype Plan = Plan(ops: seq<Op>, ok: bool)

  // ----- put -----

  datatype Kind = DumpKind | MetadataKind

  datatype Upload = Upload(id: string, kind: Kind, expectedSize: int, expectedSha256: string, source: Bytes)

  /** How storing a receipt fails: writing stops after some bytes or nothing gets linked, or the
      directory sync after the link fails. */
  datatype StoreFault = NoFault | BeforeLink(written: nat) | AfterLink

  /** How rewriting the counter fails: at truncating it, or at writing or syncing, after some bytes. */
  datatype CounterFault = CounterWorks | TruncateFails | WriteFails(written: nat)

  /** Everything the environment decides during a put: unique temporary tokens, the clock,
      after how many bytes the upload's write or sync fails, and which other step fails. */
  datatype World = World(
    token: nat, receiptToken: nat, now: Moment,
    writeFailsAfter: Option<nat>, linkSyncFails: bool, counterFault: CounterFault, receiptFault: StoreFault)

  function Prefix<T>(s: seq<T>, n: nat): seq<T> { s[..Min(n, |s|)] }

  function Blocks(n: Name, value: Bytes): seq<Op>
    decreases |value|
  {
    if value == "" then []
    else
      var size := Min(BLOCK, |value|);
      [Append(n, value[..size])] + Blocks(n, value[size..])
  }

  function Final(u: Upload): Name { if u.kind.DumpKind? then Dump(u.id) else Metadata(u.id) }

  /** The counter file: blank counts as zero; otherwise digits, with or without the newline. */
  function ParseCounter(raw: Bytes): Option<nat> {
    var digits := if raw != "" && raw[|raw| - 1] == '\n' then raw[..|raw| - 1] else raw;
    if |raw| > 32 then None
    else if raw == "" then Some(0)
    else if digits != "" && AllDigits(digits) then Some(Value(digits))
    else None
  }

  /** One character at a time, so that a crash can leave any torn counter behind. */
  function Spell(n: Name, text: string): seq<Op> {
    if text == "" then [] else [Append(n, [text[0]])] + Spell(n, text[1..])
  }

  ghost function Sequences(c: Codec, files: Files): set<nat> {
    set n | n in files && n.Receipt? && ReadReceipt(c, files, n.id).Some? :: ReadReceipt(c, files, n.id).value.sequence
  }

  ghost function Highest(s: set<nat>, floor: nat): (r: nat)
    ensures r >= floor && (r == floor || r in s)
    ensures forall x :: x in s ==> x <= r
  {
    if s == {} then floor
    else
      var x :| x in s;
      var rest := Highest(s - {x}, floor);
      assert forall y :: y in s ==> y == x || y in s - {x};
      Max(x, rest)
  }

  datatype SequencePlan = SequencePlan(ops: seq<Op>, sequence: Option<nat>)

  /** `_next_receipt_sequence`. */
  ghost function NextReceiptSequence(c: Codec, files: Files, fault: CounterFault): SequencePlan {
    var ready := if Counter in files then [] else [Create(Counter)];
    match ParseCounter(if Counter in files then files[Counter] else "")
    case None => SequencePlan(ready, None)
    case Some(current) =>
      var following := Highest(Sequences(c, files), current) + 1;
      var text := Decimal(following) + "\n";
      match fault
      case CounterWorks => SequencePlan(ready + [Truncate(Counter)] + Spell(Counter, text), Some(following))
      case TruncateFails => SequencePlan(ready, None)
      case WriteFails(n) => SequencePlan(ready + [Truncate(Counter)] + Spell(Counter, Prefix(text, n)), None)
  }

  /** `_store_bytes_no_replace`. */
  function StoreNoReplace(files: Files, final: Name, value: Bytes, token: nat, fault: StoreFault): Plan {
    var part := Part(final, token);
    if final in files || part in files then Plan([], false)
    else match fault
      case BeforeLink(n) => Plan([Create(part), Append(part, Prefix(value, n)), Unlink(part)], false)
      case AfterLink => Plan([Create(part), Append(part, value), Link(part, final), Rollback(final), Unlink(part)],
                             false)
      case NoFault => Plan([Create(part), Append(part, value), Link(part, final), Unlink(part)], true)
  }

  /** `_publish_receipt`, on the directory as it is once the metadata is linked. */
  ghost function PublishReceipt(c: Codec, d: Disk, id: string, metadata: Bytes, a: Artifact, w: World): Plan {
    var next := NextReceiptSequence(c, d.files, w.counterFault);
    match next.sequence
    case None => Plan(next.ops, false)
    case Some(n) =>
      var counted := ApplyAll(c, d, next.ops);
      var stored := StoreNoReplace(counted.files, Receipt(id), c.encode(ReceiptFor(c, id, metadata, a, w.now, n)),
                                   w.receiptToken, w.receiptFault);
      Plan(next.ops + stored.ops, stored.ok)
  }

  function Received(u: Upload): Bytes { u.source[..Min(Max(u.expectedSize, 0), |u.source|)] }

  /** The upload is complete, has the announced checksum and, for metadata, describes the
      dump that is stored. */
  predicate Acceptable(c: Codec, files: Files, u: Upload) {
    && |u.source| == u.expectedSize
    && c.sha256(u.source) == u.expectedSha256
    && (u.kind.MetadataKind? ==>
          c.artifact(u.source, u.id).Some? && DumpMatches(c, files, u.id, c.artifact(u.source, u.id).value))
  }

  predicate Refused(c: Codec, files: Files, u: Upload, w: World) {
    || u.expectedSize < 1
    || u.expectedSize > (if u.kind.DumpKind? then MAX_DUMP_BYTES else MAX_METADATA_BYTES)
    || !BackupId(u.id)
    || !HexDigest(u.expectedSha256)
    || Final(u) in files
    || Part(Final(u), w.token) in files
  }

  /** The file operations of `_put` up to and including the link of the final name. */
  function Uploading(u: Upload, w: World): seq<Op> {
    var part := Part(Final(u), w.token);
    [Create(part)] + Blocks(part, Received(u)) + [Link(part, Final(u))]
  }

  /** `_put`. */
  ghost function Put(c: Codec, d: Disk, u: Upload, w: World): Plan {
    var part := Part(Final(u), w.token);
    var written := [Create(part)] + Blocks(part, Received(u));
    if Refused(c, d.files, u, w) then Plan([], false)
    else if w.writeFailsAfter.Some?
    then Plan([Create(part)] + Blocks(part, Prefix(Received(u), w.writeFailsAfter.value)) + [Unlink(part)], false)
    else if !Acceptable(c, d.files, u) then Plan(written + [Unlink(part)], false)
    else if w.linkSyncFails then Plan(Uploading(u, w) + [Rollback(Final(u)), Unlink(part)], false)
    else if u.kind.DumpKind? then Plan(Uploading(u, w) + [Unlink(part)], true)
    else
      var published := PublishReceipt(c, ApplyAll(c, d, Uploading(u, w)), u.id, u.source,
                                      c.artifact(u.source, u.id).value, w);
      Plan(Uploading(u, w) + published.ops + [Unlink(part)], published.ok)
  }

  // ----- maintenance -----

  ghost predicate Enumerates(listing: seq<Name>, files: Files) {
    NoDuplicates(listing) && forall n :: n in listing <==> n in files
  }

  /** The validated pairs of a listing, in its order. */
  function ValidPairs(c: Codec, files: Files, listing: seq<Name>): seq<StoredPair> {
    if listing == [] then []
    else
      var rest, last := ValidPairs(c, files, listing[..|listing| - 1]), listing[|listing| - 1];
      if last.Receipt? && ValidatedPair(c, files, last.id).Some?
      then rest + [ValidatedPair(c, files, last.id).value] else rest
  }

  /** Receipt first, so that no crash leaves a receipt without its files. */
  function Expire(expired: seq<StoredPair>): seq<Op> {
    if expired == [] then []
    else
      var id := expired[|expired| - 1].backupId;
      Expire(expired[..|expired| - 1]) + [Unlink(Receipt(id)), Unlink(Metadata(id)), Unlink(Dump(id))]
  }

  function StalePartOps(listing: seq<Name>, now: int, mtime: Name -> int): seq<Op> {
    if listing == [] then []
    else
      var rest, last := StalePartOps(listing[..|listing| - 1], now, mtime), listing[|listing| - 1];
      if last.Part? && now - mtime(last) >= ORPHAN_SAFE_AGE then rest + [Unlink(last)] else rest
  }

  /** A dump with no receipt at the start of the run whose files are all old enough. */
  predicate Orphaned(c: Codec, files: Files, n: Name, now: int, mtime: Name -> int) {
    && n.Dump?
    && ValidatedPair(c, files, n.id).None?
    && Receipt(n.id) !in files
    && now - mtime(n) >= ORPHAN_SAFE_AGE
    && (Metadata(n.id) in files ==> now - mtime(Metadata(n.id)) >= ORPHAN_SAFE_AGE)
  }

  function OrphanOps(c: Codec, files: Files, listing: seq<Name>, now: int, mtime: Name -> int): seq<Op> {
    if listing == [] then []
    else
      var rest, last := OrphanOps(c, files, listing[..|listing| - 1], now, mtime), listing[|listing| - 1];
      if !Orphaned(c, files, last, now, mtime) then rest
      else if Metadata(last.id) in files then rest + [Unlink(Metadata(last.id)), Unlink(last)]
      else rest + [Unlink(last)]
  }

  /** `_maintenance_retention`, given the pairs its partition expired. */
  function Maintain(c: Codec, files: Files, listing: seq<Name>, expired: seq<StoredPair>, now: int,
                    mtime: Name -> int): seq<Op> {
    Expire(expired) + StalePartOps(listing, now, mtime) + OrphanOps(c, files, listing, now, mtime)
  }

  // ----- runs -----

  /** One locked session of the receiver, cut off after `steps` file operations. */
  datatype Session =
    | PutSession(upload: Upload, world: World, steps: nat)
    | MaintenanceSession(listing: seq<Name>, keep: seq<StoredPair>, expired: seq<StoredPair>, now: nat,
                         mtime: Name -> int, steps: nat)

  /** A maintenance session lists the directory and partitions its valid pairs; anything
      else called one is no session and does nothing. */
  ghost function SessionOps(c: Codec, cal: Calendar, d: Disk, s: Session): seq<Op> {
    match s
    case PutSession(u, w, steps) => Prefix(Put(c, d, u, w).ops, steps)
    case MaintenanceSession(listing, keep, expired, now, mtime, steps) =>
      if Enumerates(listing, d.files) && Partitions(cal, ValidPairs(c, d.files, listing), now, keep, expired)
      then Prefix(Maintain(c, d.files, listing, expired, now, mtime), steps)
      else []
  }

  ghost function Run(c: Codec, cal: Calendar, d: Disk, sessions: seq<Session>): Disk
    decreases |sessions|
  {
    if sessions == [] then d
    else Run(c, cal, ApplyAll(c, d, SessionOps(c, cal, d, sessions[0])), sessions[1..])
  }
}
