/** What the received files say of each other, and which uploads are taken. */
module ReceiptContents {
  import opened Common
  import opened Retention
  import opened RetentionTiers
  import opened Receiver
  import opened ReceiverSafety
  import opened ReceiverNumbers
  import opened ReceiverRuns
  import opened ReceiverCodec

  // ----- receipts and their files -----

  /** Receipt `r` of `id` describes, by size and checksum, the dump and the metadata stored beside
      it, and says of the dump what the metadata says. */
  ghost predicate Describes(c: Codec, files: Files, id: string, r: ReceiptDoc) {
    && Dump(id) in files && Metadata(id) in files
    && |files[Dump(id)]| == r.dump.bytes && c.sha256(files[Dump(id)]) == r.dump.sha256
    && |files[Metadata(id)]| == r.metadata.bytes && c.sha256(files[Metadata(id)]) == r.metadata.sha256
    && c.artifact(files[Metadata(id)], id) == Some(r.dump)
    && r.backupId == id && r.dumpFile == Dump(id) && r.metadataFile == Metadata(id) && r.sequence >= 1
  }

  lemma ValidPairDescribes(c: Codec, files: Files, id: string)
    requires ValidatedPair(c, files, id).Some?
    ensures Receipt(id) in files && 1 <= |files[Receipt(id)]| <= 65536
    ensures var pair, r := ValidatedPair(c, files, id).value, c.decode(files[Receipt(id)]);
      && r.Some? && Describes(c, files, id, r.value) && IdShape(id)
      && pair == StoredPair(id, r.value.receivedAt, r.value.sequence)
      && 1 <= |files[Metadata(id)]| <= 65536
  {
    BackupIdIsItsParts(id);
  }

  /** Main result on checksums: in every reachable directory every receipt can be read, and describes
      the dump and the metadata that are stored. */
  lemma ReceiptsDescribeTheirFiles(c: Codec, cal: Calendar, sessions: seq<Session>, id: string)
    requires Sound(c) && |sessions| < SEQUENCE_LIMIT
    requires Receipt(id) in Run(c, cal, EMPTY_DISK, sessions).files
    ensures var files := Run(c, cal, EMPTY_DISK, sessions).files;
      c.decode(files[Receipt(id)]).Some? && Describes(c, files, id, c.decode(files[Receipt(id)]).value)
  {
    var d := Run(c, cal, EMPTY_DISK, sessions);
    assert HasReceipt(d.files, id);
    ReceiptsAlwaysNameValidBackups(c, cal, sessions, id);
    ValidPairDescribes(c, d.files, id);
  }

  // ----- which uploads are taken -----

  predicate Hex(s: string) { forall ch :: ch in s ==> ch in "0123456789abcdef" }

  predicate Digits(s: string) { forall ch :: ch in s ==> ch in "0123456789" }

  /** A date, `T`, a time, `Z-`, and a tag. */
  ghost predicate IdShape(id: string) {
    exists day, time, tag :: IdParts(id, day, time, tag)
  }

  predicate IdParts(id: string, day: string, time: string, tag: string) {
    && id == day + "T" + time + "Z-" + tag
    && |day| == 8 && Digits(day) && |time| == 6 && Digits(time) && |tag| == 8 && Hex(tag)
  }

  lemma CharClasses(s: string)
    ensures Digits(s) <==> forall i :: 0 <= i < |s| ==> IsDigit(s[i])
    ensures Hex(s) <==> forall i :: 0 <= i < |s| ==> IsHex(s[i])
  {
    assert forall ch :: ch in "0123456789" <==> IsDigit(ch);
    assert forall ch :: ch in "0123456789abcdef" <==> IsHex(ch);
    forall i | 0 <= i < |s| ensures s[i] in s {
    }
  }

  lemma PartsMakeBackupId(id: string, day: string, time: string, tag: string)
    requires IdParts(id, day, time, tag)
    ensures BackupId(id)
  {
    CharClasses(day);
    CharClasses(time);
    CharClasses(tag);
    assert id[..8] == day && id[9..15] == time && id[17..] == tag;
    assert forall i :: 0 <= i < 8 ==> id[i] == day[i];
    assert forall i :: 9 <= i < 15 ==> id[i] == time[i - 9];
    assert forall i :: 17 <= i < 25 ==> id[i] == tag[i - 17];
  }

  lemma BackupIdIsItsParts(id: string)
    ensures BackupId(id) <==> IdShape(id)
  {
    if BackupId(id) {
      var day, time, tag := id[..8], id[9..15], id[17..];
      CharClasses(day);
      CharClasses(time);
      CharClasses(tag);
      assert id == day + "T" + time + "Z-" + tag;
      assert IdParts(id, day, time, tag);
    }
    if day, time, tag :| IdParts(id, day, time, tag) {
      PartsMakeBackupId(id, day, time, tag);
    }
  }

  /** The announcement is well formed, and what arrives is what was announced. */
  ghost predicate Announced(c: Codec, u: Upload, maximum: nat) {
    && IdShape(u.id) && |u.expectedSha256| == 64 && Hex(u.expectedSha256)
    && 1 <= |u.source| <= maximum && |u.source| == u.expectedSize && c.sha256(u.source) == u.expectedSha256
  }

  /** When nothing fails, a dump is taken exactly when it is as announced, at most a gibibyte, and the
      first of its id. */
  lemma DumpIsTakenIff(c: Codec, d: Disk, u: Upload, w: World)
    requires Inv(c, d) && u.kind.DumpKind? && Undisturbed(d, u, w)
    ensures Put(c, d, u, w).ok <==> Announced(c, u, 1_073_741_824) && Dump(u.id) !in d.files
  {
    BackupIdIsItsParts(u.id);
    CharClasses(u.expectedSha256);
  }

  /** When nothing fails and the counter can be read, metadata is taken exactly when it is as
      announced, at most 64 KiB, the first of its id, and acceptable metadata that describes the stored
      dump by size and checksum. */
  lemma MetadataIsTakenIff(c: Codec, d: Disk, u: Upload, w: World)
    requires Inv(c, d) && u.kind.MetadataKind? && Undisturbed(d, u, w)
    requires ParseCounter(if Counter in d.files then d.files[Counter] else "").Some?
    ensures Put(c, d, u, w).ok <==>
            && Announced(c, u, 65536) && Metadata(u.id) !in d.files && Dump(u.id) in d.files
            && c.artifact(u.source, u.id) == Some(Artifact(|d.files[Dump(u.id)]|, c.sha256(d.files[Dump(u.id)])))
  {
    BackupIdIsItsParts(u.id);
    CharClasses(u.expectedSha256);
    if !Refused(c, d.files, u, w) && Acceptable(c, d.files, u) {
      UndisturbedPutSucceeds(c, d, u, w);
    }
  }

  /** However much is sent, an upload is written in blocks of a mebibyte, the last one as long as
      what is left, and no further than it was announced. */
  lemma {:induction false} UploadsAreBounded(u: Upload, w: World, k: nat)
    requires 1 <= k <= |u.source| && 1 <= k <= u.expectedSize && (k == |u.source| || k == u.expectedSize)
    ensures Received(u) == u.source[..k]
    ensures var blocks := Blocks(Part(Final(u), w.token), Received(u));
      && |blocks| == (k + 1_048_575) / 1_048_576
      && forall i :: 0 <= i < |blocks| ==>
           blocks[i] == Append(Part(Final(u), w.token), u.source[i * 1_048_576..Min((i + 1) * 1_048_576, k)])
  {
    BlocksAre(Part(Final(u), w.token), u.source[..k]);
    var blocks := Blocks(Part(Final(u), w.token), Received(u));
    forall i | 0 <= i < |blocks|
      ensures blocks[i] == Append(Part(Final(u), w.token), u.source[i * 1_048_576..Min((i + 1) * 1_048_576, k)])
    {
      SliceOfPrefix(u.source, k, i * 1_048_576, Min((i + 1) * 1_048_576, k));
    }
  }

  lemma SliceOfPrefix(s: Bytes, k: nat, a: nat, b: nat)
    requires a <= b <= k <= |s|
    ensures s[..k][a..b] == s[a..b]
  {
  }

  lemma SliceOfRest(s: Bytes, k: nat, a: nat, b: nat)
    requires a <= b && k + b <= |s|
    ensures s[k..][a..b] == s[k + a..k + b]
  {
  }

  lemma {:induction false} BlocksAre(n: Name, value: Bytes)
    ensures |Blocks(n, value)| == (|value| + 1_048_575) / 1_048_576
    ensures forall i :: 0 <= i < |Blocks(n, value)| ==>
              Blocks(n, value)[i] == Append(n, value[i * 1_048_576..Min((i + 1) * 1_048_576, |value|)])
    decreases |value|
  {
    if value != "" {
      var rest := value[Min(1_048_576, |value|)..];
      BlocksAre(n, rest);
      var blocks := Blocks(n, value);
      assert blocks == [Append(n, value[..Min(1_048_576, |value|)])] + Blocks(n, rest);
      forall i | 0 <= i < |blocks|
        ensures blocks[i] == Append(n, value[i * 1_048_576..Min((i + 1) * 1_048_576, |value|)])
      {
        if i > 0 {
          assert blocks[i] == Blocks(n, rest)[i - 1];
          SliceOfRest(value, 1_048_576, (i - 1) * 1_048_576, Min(i * 1_048_576, |rest|));
        }
      }
    }
  }

  /** The clock runs to the end of the year 9999, and a counter file holds 31 digits and a newline. */
  lemma ClockAndCounterLimits()
    ensures END_OF_TIME == DaysBeforeYear(10000) * 86400
    ensures forall n: nat :: n < SEQUENCE_LIMIT ==> |Decimal(n) + "\n"| <= 32
  {
    forall n: nat | n < SEQUENCE_LIMIT ensures |Decimal(n) + "\n"| <= 32 {
      ShortDecimal(n);
    }
  }

  // ----- what maintenance may remove -----

  /** When the files of a backup were last written. */
  predicate Old(now: int, mtime: Name -> int, n: Name) { now - mtime(n) >= 48 * 3600 }

  /** A complete maintenance run removes a temporary exactly when it is two days old, and the files of
      an upload that never got its receipt exactly when its dump is there and every file of it is two
      days old; the counter stays, and so do metadata without a dump. */
  lemma LeftoversGoAfterTwoDays(c: Codec, d: Disk, listing: seq<Name>, expired: seq<StoredPair>, now: int,
                                mtime: Name -> int, n: Name)
    requires Enumerates(listing, d.files) && n in d.files
    requires !n.Receipt? && !((n.Dump? || n.Metadata?) && Receipt(n.id) in d.files)
    requires forall p :: p in expired ==> Receipt(p.backupId) in d.files
    ensures n !in ApplyAll(c, d, Maintain(c, d.files, listing, expired, now, mtime)).files <==>
            || (n.Part? && Old(now, mtime, n))
            || ((n.Dump? || n.Metadata?) && Dump(n.id) in d.files && Old(now, mtime, Dump(n.id)) &&
                (Metadata(n.id) in d.files ==> Old(now, mtime, Metadata(n.id))))
  {
    MaintenanceRemovesExactly(c, d, listing, expired, now, mtime);
    if (n.Dump? || n.Metadata?) && ValidatedPair(c, d.files, n.id).Some? {
      ValidPairDescribes(c, d.files, n.id);
      assert false;
    }
  }

  // ----- received backups and their retention -----

  /** The receipt of a stored backup, as it reads. */
  function Reading(c: Codec, files: Files, id: string): Option<ReceiptDoc> {
    if Receipt(id) in files then c.decode(files[Receipt(id)]) else None
  }

  /** A later receipt is stored. */
  ghost predicate HasLater(c: Codec, files: Files, r: ReceiptDoc) {
    exists id :: Reading(c, files, id).Some? && Reading(c, files, id).value.sequence > r.sequence
  }

  predicate Dated(r: ReceiptDoc, pair: StoredPair) {
    pair == StoredPair(r.backupId, r.receivedAt, r.sequence)
  }

  lemma {:induction false} ValidPairsAre(c: Codec, files: Files, listing: seq<Name>, p: StoredPair)
    ensures p in ValidPairs(c, files, listing) <==>
            Receipt(p.backupId) in listing && ValidatedPair(c, files, p.backupId) == Some(p)
  {
    if listing != [] {
      var init, last := listing[..|listing| - 1], listing[|listing| - 1];
      ValidPairsAre(c, files, init, p);
      assert Receipt(p.backupId) in listing <==> Receipt(p.backupId) in init || last == Receipt(p.backupId);
    }
  }

  /** Reading the directory by receipts is reading it by validated pairs. */
  lemma ReceiptsArePairs(c: Codec, d: Disk, listing: seq<Name>, id: string)
    requires Inv(c, d) && Enumerates(listing, d.files) && Receipt(id) in d.files
    ensures Reading(c, d.files, id).Some?
    ensures var r := Reading(c, d.files, id).value;
      r.backupId == id && StoredPair(id, r.receivedAt, r.sequence) in ValidPairs(c, d.files, listing)
  {
    assert HasReceipt(d.files, id);
    assert ReceiptOk(c, d, id);
    ValidPairDescribes(c, d.files, id);
    ValidPairsAre(c, d.files, listing, ValidatedPair(c, d.files, id).value);
  }

  lemma PairsAreReceipts(c: Codec, d: Disk, listing: seq<Name>, p: StoredPair)
    requires Enumerates(listing, d.files) && p in ValidPairs(c, d.files, listing)
    ensures var r := Reading(c, d.files, p.backupId); r.Some? && Dated(r.value, p)
    ensures ValidatedPair(c, d.files, p.backupId) == Some(p)
  {
    ValidPairsAre(c, d.files, listing, p);
    ValidPairDescribes(c, d.files, p.backupId);
  }

  lemma SequencesTellPairsApart(c: Codec, d: Disk, listing: seq<Name>)
    requires Inv(c, d) && Enumerates(listing, d.files)
    ensures DistinctSequences(ValidPairs(c, d.files, listing))
  {
    var pairs := ValidPairs(c, d.files, listing);
    forall p, q | p in pairs && q in pairs && p.sequence == q.sequence ensures p == q {
      PairsAreReceipts(c, d, listing, p);
      PairsAreReceipts(c, d, listing, q);
      assert IsSequenceOf(c, d.files, p.backupId, p.sequence) && IsSequenceOf(c, d.files, q.backupId, q.sequence);
    }
  }

  /** Main result on what is lost: when a complete maintenance run takes a received backup away, the
      backup was more than a week old and a later one is there; and unless it was more than a year old,
      a backup received before it, of the same day, week or month by its tier, has all three of its
      files left. */
  lemma LostBackupsLeaveTheirPoint(c: Codec, cal: Calendar, d: Disk, listing: seq<Name>, keep: seq<StoredPair>,
                                   expired: seq<StoredPair>, now: nat, mtime: Name -> int, id: string)
    requires Inv(c, d) && Enumerates(listing, d.files) && Receipt(id) in d.files
    requires Partitions(cal, ValidPairs(c, d.files, listing), now, keep, expired)
    requires var after := ApplyAll(c, d, Maintain(c, d.files, listing, expired, now, mtime)).files;
      Receipt(id) !in after || Metadata(id) !in after || Dump(id) !in after
    ensures Reading(c, d.files, id).Some?
    ensures var r := Reading(c, d.files, id).value;
      && now - r.receivedAt > 7 * 86400 && HasLater(c, d.files, r)
      && (now - r.receivedAt <= 365 * 86400 ==>
            var after := ApplyAll(c, d, Maintain(c, d.files, listing, expired, now, mtime)).files;
            exists k: StoredPair ::
              && {Receipt(k.backupId), Metadata(k.backupId), Dump(k.backupId)} <= after.Keys
              && k.sequence < r.sequence && Reading(c, after, k.backupId).Some?
              && Dated(Reading(c, after, k.backupId).value, k)
              && SamePoint(cal, now, k, StoredPair(id, r.receivedAt, r.sequence)))
  {
    var pairs := ValidPairs(c, d.files, listing);
    ReceiptsArePairs(c, d, listing, id);
    SequencesTellPairsApart(c, d, listing);
    var r := Reading(c, d.files, id).value;
    var p := StoredPair(id, r.receivedAt, r.sequence);
    OnlyExpiredAreLost(c, cal, d, listing, keep, expired, now, mtime, p);
    ExpiredIff(cal, pairs, now, keep, expired, p);
    var q :| q in pairs && q.sequence > p.sequence;
    PairsAreReceipts(c, d, listing, q);
    assert HasLater(c, d.files, r);
    if now - r.receivedAt <= 365 * 86400 {
      SupersededByKept(cal, pairs, now, keep, expired, p);
      var k :| k in keep && k.sequence < p.sequence && SamePoint(cal, now, k, p);
      PairsAreReceipts(c, d, listing, k);
      KeptKeepTheirFiles(c, cal, d, listing, keep, expired, now, mtime, k);
    }
  }

  lemma OnlyExpiredAreLost(c: Codec, cal: Calendar, d: Disk, listing: seq<Name>, keep: seq<StoredPair>,
                           expired: seq<StoredPair>, now: nat, mtime: Name -> int, p: StoredPair)
    requires Enumerates(listing, d.files) && p in ValidPairs(c, d.files, listing)
    requires Partitions(cal, ValidPairs(c, d.files, listing), now, keep, expired)
    requires var after := ApplyAll(c, d, Maintain(c, d.files, listing, expired, now, mtime)).files;
      Receipt(p.backupId) !in after || Metadata(p.backupId) !in after || Dump(p.backupId) !in after
    ensures p in expired
  {
    var id := p.backupId;
    PairsAreReceipts(c, d, listing, p);
    ValidPairDescribes(c, d.files, id);
    MaintenanceRemovesExactly(c, d, listing, expired, now, mtime);
    assert IsExpired(expired, id);
    var q :| q in expired && q.backupId == id;
    PairsAreReceipts(c, d, listing, q);
  }

  lemma KeptKeepTheirFiles(c: Codec, cal: Calendar, d: Disk, listing: seq<Name>, keep: seq<StoredPair>,
                           expired: seq<StoredPair>, now: nat, mtime: Name -> int, k: StoredPair)
    requires Enumerates(listing, d.files) && k in keep
    requires Partitions(cal, ValidPairs(c, d.files, listing), now, keep, expired)
    ensures var after := ApplyAll(c, d, Maintain(c, d.files, listing, expired, now, mtime)).files;
      && {Receipt(k.backupId), Metadata(k.backupId), Dump(k.backupId)} <= after.Keys
      && Reading(c, after, k.backupId) == Reading(c, d.files, k.backupId)
  {
    PairsAreReceipts(c, d, listing, k);
    ValidPairDescribes(c, d.files, k.backupId);
    if Receipt(k.backupId) !in ApplyAll(c, d, Maintain(c, d.files, listing, expired, now, mtime)).files
      || Metadata(k.backupId) !in ApplyAll(c, d, Maintain(c, d.files, listing, expired, now, mtime)).files
      || Dump(k.backupId) !in ApplyAll(c, d, Maintain(c, d.files, listing, expired, now, mtime)).files
    {
      OnlyExpiredAreLost(c, cal, d, listing, keep, expired, now, mtime, k);
      assert false;
    }
    MaintenanceRemovesExactly(c, d, listing, expired, now, mtime);
  }
}
