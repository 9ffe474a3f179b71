/** The receiver's code: the directory it holds locked, changed one file operation at a
    time, and the put and maintenance operations as sequences of those. */
module ReceiverStore {
  import opened Common
  import opened Retention
  import opened RetentionSteps
  import opened Receiver
  import opened ReceiverSafety
  import opened ReceiverNumbers
  import opened ReceiverRuns

  class Directory {
    const codec: Codec
    var files: Files
    ghost var published: map<string, Copy>
    ghost var issued: seq<nat>
    ghost var log: seq<Op>  // every file operation so far

    ghost function State(): Disk
      reads this
    {
      Disk(files, published, issued)
    }

    constructor (c: Codec)
      ensures codec == c && State() == EMPTY_DISK && log == []
    {
      codec, files, published, issued, log := c, map[], map[], [], [];
    }

    /** The operations performed since some earlier moment, and their effect. */
    ghost predicate Performed(before: Disk, logged: seq<Op>, ops: seq<Op>)
      reads this
    {
      log == logged + ops && State() == ApplyAll(codec, before, ops)
    }

    method Perform(op: Op)
      modifies this
      ensures State() == Apply(codec, old(State()), op) && log == old(log) + [op]
    {
      ghost var after := Apply(codec, State(), op);
      match op {
        case Create(n) => if n !in files { files := files[n := ""]; }
        case Append(n, block) => if n in files { files := files[n := files[n] + block]; }
        case Truncate(n) => if n in files { files := files[n := ""]; }
        case Link(source, n) => if source in files && n !in files { files := files[n := files[source]]; }
        case Unlink(n) => files := files - {n};
        case Rollback(n) => files := files - {n};
      }
      published, issued, log := after.published, after.issued, log + [op];
    }

    /** One more operation on top of those already performed. */
    method Then(op: Op, ghost before: Disk, ghost logged: seq<Op>, ghost done: seq<Op>)
      requires Performed(before, logged, done)
      modifies this
      ensures Performed(before, logged, done + [op])
      ensures State() == Apply(codec, old(State()), op)
    {
      Perform(op);
      ApplyConcat(codec, before, done, [op]);
      SafeStep(codec, ApplyAll(codec, before, done), op);
    }

    method StoreBytesNoReplace(final: Name, value: Bytes, token: nat, fault: StoreFault) returns (committed: bool)
      modifies this
      ensures var plan := StoreNoReplace(old(files), final, value, token, fault);
              Performed(old(State()), old(log), plan.ops) && committed == plan.ok
    {
      ghost var before, logged := State(), log;
      var part := Part(final, token);
      if final in files || part in files {
        return false;
      }
      var linked := false;
      committed := false;
      Then(Create(part), before, logged, []);
      var written := if fault.BeforeLink? then Prefix(value, fault.written) else value;
      Then(Append(part, written), before, logged, [Create(part)]);
      ghost var done := [Create(part), Append(part, written)];
      if !fault.BeforeLink? {
        Then(Link(part, final), before, logged, done);
        done := done + [Link(part, final)];
        linked := true;
        committed := fault.NoFault?;
      }
      if linked && !committed {
        Then(Rollback(final), before, logged, done);
        done := done + [Rollback(final)];
      }
      Then(Unlink(part), before, logged, done);
      assert done + [Unlink(part)] == StoreNoReplace(before.files, final, value, token, fault).ops;
    }

    method WriteAll(n: Name, text: string, ghost before: Disk, ghost logged: seq<Op>, ghost done: seq<Op>)
      requires Performed(before, logged, done)
      modifies this
      ensures Performed(before, logged, done + Spell(n, text))
    {
      assert done + Spell(n, text[..0]) == done;
      for offset := 0 to |text|
        invariant Performed(before, logged, done + Spell(n, text[..offset]))
      {
        assert text[..offset + 1] == text[..offset] + [text[offset]];
        SpellSnoc(n, text[..offset], text[offset]);
        Regroup(done, Spell(n, text[..offset]), [Append(n, [text[offset]])]);
        Then(Append(n, [text[offset]]), before, logged, done + Spell(n, text[..offset]));
      }
      assert text[..|text|] == text;
    }

    /** `_next_receipt_sequence`, scanning the receipts of a directory listing in any order. */
    method TakeReceiptSequence(listing: seq<Name>, fault: CounterFault) returns (sequence: Option<nat>)
      requires forall n :: Durable(n) ==> (n in listing <==> n in files)
      modifies this
      ensures var plan := NextReceiptSequence(codec, old(files), fault);
              Performed(old(State()), old(log), plan.ops) && sequence == plan.sequence
    {
      ghost var before, logged := State(), log;
      if Counter !in files {
        Then(Create(Counter), before, logged, []);
      }
      var parsed := ParseCounter(files[Counter]);
      if parsed.None? {
        return None;
      }
      var current := ScanReceipts(listing, parsed.value);
      SameReceiptsSameSequences(codec, before.files, files);
      HighestIsUnique(Sequences(codec, before.files), parsed.value, current);
      NextPlan(codec, before.files, fault, current + 1);
      sequence := RewriteCounter(current + 1, fault, before, logged, Ready(before.files));
    }

    /** Truncate, write and sync the counter, as far as the fault lets. */
    method RewriteCounter(following: nat, fault: CounterFault, ghost before: Disk, ghost logged: seq<Op>,
                          ghost done: seq<Op>)
      returns (sequence: Option<nat>)
      requires Performed(before, logged, done)
      modifies this
      ensures Performed(before, logged, done + CounterOps(following, fault))
      ensures sequence == if fault.CounterWorks? then Some(following) else None
    {
      if fault.TruncateFails? {
        assert done + [] == done;
        return None;
      }
      var text := Decimal(following) + "\n";
      var written := if fault.WriteFails? then Prefix(text, fault.written) else text;
      Then(Truncate(Counter), before, logged, done);
      WriteAll(Counter, written, before, logged, done + [Truncate(Counter)]);
      Regroup(done, [Truncate(Counter)], Spell(Counter, written));
      return if fault.CounterWorks? then Some(following) else None;
    }

    /** The scan loop: the largest sequence among the counter and every readable receipt. */
    method ScanReceipts(listing: seq<Name>, counter: nat) returns (current: nat)
      requires forall n :: Durable(n) ==> (n in listing <==> n in files)
      ensures current >= counter && (current == counter || current in Sequences(codec, files))
      ensures forall x :: x in Sequences(codec, files) ==> x <= current
    {
      current := counter;
      for k := 0 to |listing|
        invariant current >= counter && (current == counter || current in Sequences(codec, files))
        invariant forall j :: 0 <= j < k && listing[j].Receipt? && ReadReceipt(codec, files, listing[j].id).Some? ==>
                                ReadReceipt(codec, files, listing[j].id).value.sequence <= current
      {
        if listing[k].Receipt? {
          var receipt := ReadReceipt(codec, files, listing[k].id);
          if receipt.Some? {
            current := if receipt.value.sequence > current then receipt.value.sequence else current;
          }
        }
      }
    }

    /** `os.listdir`, in whatever order. */
    method ListDirectory() returns (listing: seq<Name>)
      ensures Enumerates(listing, files)
    {
      var pending := files.Keys;
      listing := [];
      while pending != {}
        invariant pending <= files.Keys && NoDuplicates(listing)
        invariant forall n :: n in listing <==> n in files && n !in pending
        decreases |pending|
      {
        var name :| name in pending;
        NoDuplicatesExtend(listing, name);
        listing := listing + [name];
        pending := pending - {name};
      }
    }

    method PublishReceiptFor(id: string, metadata: Bytes, a: Artifact, w: World) returns (ok: bool)
      modifies this
      ensures var plan := PublishReceipt(codec, old(State()), id, metadata, a, w);
              Performed(old(State()), old(log), plan.ops) && ok == plan.ok
    {
      ghost var before, logged := State(), log;
      var listing := ListDirectory();
      var sequence := TakeReceiptSequence(listing, w.counterFault);
      if sequence.None? {
        return false;
      }
      ghost var counted := NextReceiptSequence(codec, before.files, w.counterFault).ops;
      var receipt := codec.encode(ReceiptFor(codec, id, metadata, a, w.now, sequence.value));
      ghost var mid, midLog := State(), log;
      ok := StoreBytesNoReplace(Receipt(id), receipt, w.receiptToken, w.receiptFault);
      ghost var stored := StoreNoReplace(mid.files, Receipt(id), receipt, w.receiptToken, w.receiptFault).ops;
      AndThen(before, logged, counted, midLog, stored);
    }

    /** The upload loop: blocks of at most a mebibyte, until the announced size is there,
        the stream ends, or a write or the sync fails. `sent` is what gets written by then. */
    method ReceiveUpload(part: Name, u: Upload, w: World, ghost before: Disk, ghost logged: seq<Op>)
      returns (content: Bytes, failed: bool, ghost done: seq<Op>)
      requires u.expectedSize >= 1 && Performed(before, logged, [Create(part)])
      modifies this
      ensures Performed(before, logged, done)
      ensures failed == w.writeFailsAfter.Some?
      ensures done == [Create(part)] +
                      Blocks(part, if failed then Prefix(Received(u), w.writeFailsAfter.value) else Received(u))
      ensures !failed ==> content == Received(u)
    {
      var sent := if w.writeFailsAfter.Some? then Prefix(Received(u), w.writeFailsAfter.value) else Received(u);
      var remaining := sent;
      content := "";
      done := [Create(part)];
      while remaining != ""
        invariant content + remaining == sent
        invariant Performed(before, logged, done)
        invariant done + Blocks(part, remaining) == [Create(part)] + Blocks(part, sent)
        decreases |remaining|
      {
        var block := remaining[..Min(BLOCK, |remaining|)];
        Then(Append(part, block), before, logged, done);
        BlocksFirst(part, remaining);
        Regroup(done, [Append(part, block)], Blocks(part, remaining[|block|..]));
        done := done + [Append(part, block)];
        remaining, content := remaining[|block|..], content + block;
      }
      failed := w.writeFailsAfter.Some?;
    }

    /** `_put`. */
    method PutBackup(u: Upload, w: World) returns (ok: bool)
      modifies this
      ensures var plan := Put(codec, old(State()), u, w);
              Performed(old(State()), old(log), plan.ops) && ok == plan.ok
    {
      ghost var before, logged := State(), log;
      var final, part := Final(u), Part(Final(u), w.token);
      if Refused(codec, files, u, w) {
        return false;
      }
      Then(Create(part), before, logged, []);
      var content, failed;
      ghost var done;
      content, failed, done := ReceiveUpload(part, u, w, before, logged);
      UploadLeavesStore(codec, before, u, w);
      assert |u.source| == u.expectedSize ==> Received(u) == u.source;
      ok := false;
      if !failed && Accepted(content, u) {
        assert Acceptable(codec, before.files, u);
        ok, done := CommitUpload(u, w, content, before, logged, done);
      } else {
        assert failed || !Acceptable(codec, before.files, u);
      }
      Then(Unlink(part), before, logged, done);
      PutEnds(codec, before, u, w, done, ok);
    }

    /** Link the final name and sync; then publish the receipt of metadata, or take the link
        back when the sync failed. */
    method CommitUpload(u: Upload, w: World, content: Bytes, ghost before: Disk, ghost logged: seq<Op>,
                        ghost written: seq<Op>)
      returns (ok: bool, ghost done: seq<Op>)
      requires Performed(before, logged, written)
      requires written + [Link(Part(Final(u), w.token), Final(u))] == Uploading(u, w)
      requires u.kind.MetadataKind? ==> codec.artifact(content, u.id).Some?
      modifies this
      ensures Performed(before, logged, done)
      ensures w.linkSyncFails ==> !ok && done == Uploading(u, w) + [Rollback(Final(u))]
      ensures !w.linkSyncFails && u.kind.DumpKind? ==> ok && done == Uploading(u, w)
      ensures !w.linkSyncFails && u.kind.MetadataKind? ==>
                var plan := PublishReceipt(codec, ApplyAll(codec, before, Uploading(u, w)), u.id, content,
                                           codec.artifact(content, u.id).value, w);
                ok == plan.ok && done == Uploading(u, w) + plan.ops
    {
      Then(Link(Part(Final(u), w.token), Final(u)), before, logged, written);
      done := Uploading(u, w);
      if w.linkSyncFails {
        Then(Rollback(Final(u)), before, logged, done);
        return false, done + [Rollback(Final(u))];
      }
      if u.kind.DumpKind? {
        return true, done;
      }
      ghost var mid, midLog := State(), log;
      var artifact := codec.artifact(content, u.id).value;
      ok := PublishReceiptFor(u.id, content, artifact, w);
      AndThen(before, logged, done, midLog, PublishReceipt(codec, mid, u.id, content, artifact, w).ops);
      done := done + PublishReceipt(codec, mid, u.id, content, artifact, w).ops;
    }

    /** The checks between the upload and the link. */
    predicate Accepted(content: Bytes, u: Upload)
      reads this
    {
      && |u.source| == u.expectedSize
      && codec.sha256(content) == u.expectedSha256
      && (u.kind.MetadataKind? ==>
            codec.artifact(content, u.id).Some? && DumpMatches(codec, files, u.id, codec.artifact(content, u.id).value))
    }

    /** `_maintenance_retention`: list, validate, partition, unlink what expired, then clear
        stale temporaries and orphans. */
    method MaintenanceRetention(calendar: Calendar, now: nat, mtime: Name -> int)
      returns (ghost listing: seq<Name>, keep: seq<StoredPair>, expired: seq<StoredPair>)
      modifies this
      ensures Enumerates(listing, old(files))
      ensures Partitions(calendar, ValidPairs(codec, old(files), listing), now, keep, expired)
      ensures Performed(old(State()), old(log), Maintain(codec, old(files), listing, expired, now, mtime))
    {
      ghost var before, logged := State(), log;
      var names := ListDirectory();
      listing := names;
      var snapshot := files;
      var pairs := CollectPairs(names);
      ValidPairsAreDistinct(codec, files, names);
      keep, expired := RetentionPartition(calendar, pairs, now);
      UnlinkExpired(expired);
      ghost var first := Expire(expired);
      assert [] + first == first;
      ghost var mid, midLog := State(), log;
      UnlinkStaleParts(names, now, mtime);
      ghost var second := StalePartOps(names, now, mtime);
      AndThen(before, logged, first, midLog, second);
      ghost var later, laterLog := State(), log;
      UnlinkOrphans(snapshot, names, now, mtime);
      AndThen(before, logged, first + second, laterLog, OrphanOps(codec, snapshot, names, now, mtime));
    }

    /** Two stretches of operations make one. */
    ghost method AndThen(before: Disk, logged: seq<Op>, a: seq<Op>, midLog: seq<Op>, b: seq<Op>)
      requires midLog == logged + a && Performed(ApplyAll(codec, before, a), midLog, b)
      ensures Performed(before, logged, a + b)
    {
      ApplyConcat(codec, before, a, b);
      assert logged + a + b == logged + (a + b);
    }

    method UnlinkExpired(expired: seq<StoredPair>)
      modifies this
      ensures Performed(old(State()), old(log), Expire(expired))
    {
      ghost var before, logged := State(), log;
      for k := 0 to |expired|
        invariant Performed(before, logged, Expire(expired[..k]))
      {
        assert expired[..k + 1][..k] == expired[..k];
        var id := expired[k].backupId;
        ghost var done := Expire(expired[..k]);
        Then(Unlink(Receipt(id)), before, logged, done);
        Then(Unlink(Metadata(id)), before, logged, done + [Unlink(Receipt(id))]);
        Then(Unlink(Dump(id)), before, logged, done + [Unlink(Receipt(id))] + [Unlink(Metadata(id))]);
        assert done + [Unlink(Receipt(id))] + [Unlink(Metadata(id))] + [Unlink(Dump(id))] == Expire(expired[..k + 1]);
      }
      assert expired[..|expired|] == expired;
    }

    method UnlinkStaleParts(names: seq<Name>, now: int, mtime: Name -> int)
      modifies this
      ensures Performed(old(State()), old(log), StalePartOps(names, now, mtime))
    {
      ghost var before, logged := State(), log;
      for k := 0 to |names|
        invariant Performed(before, logged, StalePartOps(names[..k], now, mtime))
      {
        assert names[..k + 1][..k] == names[..k];
        if names[k].Part? && now - mtime(names[k]) >= ORPHAN_SAFE_AGE {
          Then(Unlink(names[k]), before, logged, StalePartOps(names[..k], now, mtime));
        }
      }
      assert names[..|names|] == names;
    }

    method UnlinkOrphans(snapshot: Files, names: seq<Name>, now: int, mtime: Name -> int)
      modifies this
      ensures Performed(old(State()), old(log), OrphanOps(codec, snapshot, names, now, mtime))
    {
      ghost var before, logged := State(), log;
      for k := 0 to |names|
        invariant Performed(before, logged, OrphanOps(codec, snapshot, names[..k], now, mtime))
      {
        assert names[..k + 1][..k] == names[..k];
        var name := names[k];
        ghost var done := OrphanOps(codec, snapshot, names[..k], now, mtime);
        if Orphaned(codec, snapshot, name, now, mtime) {
          if Metadata(name.id) in snapshot {
            Then(Unlink(Metadata(name.id)), before, logged, done);
            Then(Unlink(name), before, logged, done + [Unlink(Metadata(name.id))]);
            assert done + [Unlink(Metadata(name.id))] + [Unlink(name)] ==
                done + [Unlink(Metadata(name.id)), Unlink(name)];
          } else {
            Then(Unlink(name), before, logged, done);
          }
        }
      }
      assert names[..|names|] == names;
    }

    /** The validation loop: unreadable or mismatched receipts are skipped. */
    method CollectPairs(listing: seq<Name>) returns (pairs: seq<StoredPair>)
      ensures pairs == ValidPairs(codec, files, listing)
    {
      pairs := [];
      for k := 0 to |listing|
        invariant pairs == ValidPairs(codec, files, listing[..k])
      {
        assert listing[..k + 1][..k] == listing[..k];
        if listing[k].Receipt? {
          var pair := ValidatedPair(codec, files, listing[k].id);
          if pair.Some? {
            pairs := pairs + [pair.value];
          }
        }
      }
      assert listing[..|listing|] == listing;
    }
  }

  lemma {:induction false} SpellSnoc(n: Name, text: string, ch: char)
    ensures Spell(n, text + [ch]) == Spell(n, text) + [Append(n, [ch])]
  {
    if text == "" {
      assert text + [ch] == [ch] && [ch][1..] == "";
    } else {
      assert (text + [ch])[1..] == text[1..] + [ch];
      SpellSnoc(n, text[1..], ch);
    }
  }

  lemma BlocksFirst(n: Name, value: Bytes)
    requires value != ""
    ensures var block := value[..Min(BLOCK, |value|)];
            Blocks(n, value) == [Append(n, block)] + Blocks(n, value[|block|..])
  {
  }

  /** Every way the body of a put can end, followed by the clean-up, is the planned put. */
  lemma PutEnds(c: Codec, d: Disk, u: Upload, w: World, done: seq<Op>, ok: bool)
    requires !Refused(c, d.files, u, w)
    requires var part := Part(Final(u), w.token);
      if w.writeFailsAfter.Some? || !Acceptable(c, d.files, u) then
        !ok && done == [Create(part)] +
          Blocks(part, if w.writeFailsAfter.Some? then Prefix(Received(u), w.writeFailsAfter.value) else Received(u))
      else if w.linkSyncFails then !ok && done == Uploading(u, w) + [Rollback(Final(u))]
      else if u.kind.DumpKind? then ok && done == Uploading(u, w)
      else
        var plan := PublishReceipt(c, ApplyAll(c, d, Uploading(u, w)), u.id, u.source,
                                   c.artifact(u.source, u.id).value, w);
        ok == plan.ok && done == Uploading(u, w) + plan.ops
    ensures Put(c, d, u, w) == Plan(done + [Unlink(Part(Final(u), w.token))], ok)
  {
    var part := Part(Final(u), w.token);
    assert Uploading(u, w) + [Rollback(Final(u))] + [Unlink(part)] ==
        Uploading(u, w) + [Rollback(Final(u)), Unlink(part)];
  }

  lemma Regroup(a: seq<Op>, b: seq<Op>, x: seq<Op>)
    ensures a + b + x == a + (b + x)
  {
  }

  /** Writing the temporary leaves every name the acceptance checks read as it was. */
  lemma UploadLeavesStore(c: Codec, d: Disk, u: Upload, w: World)
    requires !Refused(c, d.files, u, w)
    ensures var part := Part(Final(u), w.token);
            ApplyAll(c, d, [Create(part)] + Blocks(part, Received(u))) == d.(files := d.files[part := Received(u)])
  {
    UploadingStores(c, d, u, w);
  }

  lemma {:induction false} ValidPairsAreDistinct(c: Codec, files: Files, listing: seq<Name>)
    requires NoDuplicates(listing)
    ensures NoDuplicates(ValidPairs(c, files, listing))
  {
    if listing != [] {
      var init, last := listing[..|listing| - 1], listing[|listing| - 1];
      ValidPairsAreDistinct(c, files, init);
      ValidPairsAreValidated(c, files, init);
      assert last !in init;
    }
  }

  lemma HighestIsUnique(s: set<nat>, floor: nat, n: nat)
    requires n >= floor && (n == floor || n in s) && forall x :: x in s ==> x <= n
    ensures n == Highest(s, floor)
  {
  }

  lemma SameReceiptsSameSequences(c: Codec, f: Files, g: Files)
    requires g == f || g == f[Counter := ""]
    ensures Sequences(c, f) == Sequences(c, g)
  {
    forall id ensures ReadReceipt(c, f, id) == ReadReceipt(c, g, id) {}
    assert forall n: Name :: n.Receipt? ==> (n in f <==> n in g);
  }
}
