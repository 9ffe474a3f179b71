/** How far receipt numbers can have come: at most one further with every session, whatever a crash
    leaves in the counter file. A torn counter reads no more than the whole one, and a count that is
    read is bounded by what earlier sessions wrote. */
module ReceiverNumbers {
  import opened Common
  import opened Receiver
  import opened ReceiverSafety

  /** The counter file holds part of a number up to `k`, as a crash may have left it. */
  ghost predicate CounterWithin(raw: Bytes, k: nat) { exists m: nat :: m <= k && raw <= Decimal(m) + "\n" }

  ghost predicate Numbered(d: Disk, k: nat) {
    && (forall i :: 0 <= i < |d.issued| ==> d.issued[i] <= k)
    && (Counter in d.files ==> CounterWithin(d.files[Counter], k))
  }

  ghost predicate NumberedAll(c: Codec, d: Disk, ops: seq<Op>, k: nat)
    decreases |ops|
  {
    Numbered(d, k) && (ops != [] ==> NumberedAll(c, Apply(c, d, ops[0]), ops[1..], k))
  }

  lemma {:induction false} NumberedConcat(c: Codec, d: Disk, a: seq<Op>, b: seq<Op>, k: nat)
    requires NumberedAll(c, d, a, k) && NumberedAll(c, ApplyAll(c, d, a), b, k)
    ensures NumberedAll(c, d, a + b, k)
    decreases |a|
  {
    if a == [] {
      assert a + b == b;
    } else {
      assert (a + b)[1..] == a[1..] + b;
      NumberedConcat(c, Apply(c, d, a[0]), a[1..], b, k);
    }
  }

  lemma {:induction false} NumberedPrefix(c: Codec, d: Disk, ops: seq<Op>, n: nat, k: nat)
    requires NumberedAll(c, d, ops, k) && n <= |ops|
    ensures Numbered(ApplyAll(c, d, ops[..n]), k)
    decreases |ops|
  {
    if n > 0 {
      assert ops[..n][1..] == ops[1..][..n - 1];
      NumberedPrefix(c, Apply(c, d, ops[0]), ops[1..], n - 1, k);
    }
  }

  lemma NumberedUpTo(d: Disk, j: nat, k: nat)
    requires Numbered(d, j) && j <= k
    ensures Numbered(d, k)
  {
  }

  // ----- operations that neither count nor publish -----

  predicate Mild(op: Op) { op.name != Counter && !(op.Link? && op.name.Receipt?) }

  predicate AllMild(ops: seq<Op>) { forall i :: 0 <= i < |ops| ==> Mild(ops[i]) }

  lemma {:induction false} MildOpsAreNumbered(c: Codec, d: Disk, ops: seq<Op>, k: nat)
    requires Numbered(d, k) && AllMild(ops)
    ensures NumberedAll(c, d, ops, k) && Numbered(ApplyAll(c, d, ops), k)
    decreases |ops|
  {
    if ops != [] {
      var e := Apply(c, d, ops[0]);
      assert Mild(ops[0]);
      assert Counter in e.files <==> Counter in d.files;
      assert Counter in d.files ==> e.files[Counter] == d.files[Counter];
      MildOpsAreNumbered(c, e, ops[1..], k);
    }
  }

  // ----- counting -----

  lemma {:induction false} SpellingIsNumbered(c: Codec, d: Disk, text: string, m: nat, k: nat)
    requires Numbered(d, k) && m <= k
    requires Counter in d.files && d.files[Counter] + text <= Decimal(m) + "\n"
    ensures NumberedAll(c, d, Spell(Counter, text), k) && Numbered(ApplyAll(c, d, Spell(Counter, text)), k)
    decreases |text|
  {
    if text != "" {
      var e := Apply(c, d, Append(Counter, [text[0]]));
      assert d.files[Counter] + text == e.files[Counter] + text[1..];
      assert e.files[Counter] <= Decimal(m) + "\n";
      assert Spell(Counter, text)[1..] == Spell(Counter, text[1..]);
      SpellingIsNumbered(c, e, text[1..], m, k);
    }
  }

  lemma {:induction false} ValueOfPrefix(s: string, n: nat)
    requires AllDigits(s) && n <= |s|
    ensures AllDigits(s[..n]) && Value(s[..n]) <= Value(s)
    decreases |s|
  {
    if n < |s| {
      ValueOfPrefix(s[..|s| - 1], n);
      assert s[..|s| - 1][..n] == s[..n];
      assert IsDigit(s[|s| - 1]);
    } else {
      assert s[..n] == s;
    }
  }

  /** A torn counter never reads as more than the number it was part of. */
  lemma TornCounterReadsNoMore(raw: Bytes, k: nat)
    requires CounterWithin(raw, k) && ParseCounter(raw).Some?
    ensures ParseCounter(raw).value <= k
  {
    var m: nat :| m <= k && raw <= Decimal(m) + "\n";
    DecimalReads(m);
    assert forall i :: 0 <= i < |raw| && i < |Decimal(m)| ==> raw[i] == Decimal(m)[i] && IsDigit(raw[i]);
    if raw != "" && raw[|raw| - 1] == '\n' {
      assert raw == Decimal(m) + "\n";
      assert raw[..|raw| - 1] == Decimal(m);
    } else if raw != "" {
      assert raw[|raw| - 1] == (Decimal(m) + "\n")[|raw| - 1];
      assert raw == Decimal(m)[..|raw|];
      ValueOfPrefix(Decimal(m), |raw|);
    }
  }

  /** The next number exceeds everything so far by at most one. */
  lemma NextNumberIsWithin(c: Codec, d: Disk, fault: CounterFault, k: nat)
    requires Inv(c, d) && Numbered(d, k)
    ensures var n := NextReceiptSequence(c, d.files, fault).sequence; n.Some? ==> n.value <= k + 1
  {
    var parsed := ParseCounter(if Counter in d.files then d.files[Counter] else "");
    if parsed.Some? {
      if Counter in d.files {
        TornCounterReadsNoMore(d.files[Counter], k);
      }
      SequencesAreWithin(c, d, k);
    }
  }

  lemma SequencesAreWithin(c: Codec, d: Disk, k: nat)
    requires Inv(c, d) && Numbered(d, k)
    ensures forall n :: n in Sequences(c, d.files) ==> n <= k
  {
    forall n | n in Sequences(c, d.files) ensures n <= k {
      var name :| name in d.files && name.Receipt? && ReadReceipt(c, d.files, name.id).Some?
                  && ReadReceipt(c, d.files, name.id).value.sequence == n;
      assert HasReceipt(d.files, name.id);
      assert ReceiptOk(c, d, name.id);
      var i :| 0 <= i < |d.issued| && d.issued[i] == n;
    }
  }

  /** What gets written of the next number. */
  function Rewritten(m: nat, fault: CounterFault): string {
    if fault.WriteFails? then Prefix(Decimal(m) + "\n", fault.written) else Decimal(m) + "\n"
  }

  function Ready(files: Files): seq<Op> { if Counter in files then [] else [Create(Counter)] }

  function Rewriting(text: string): seq<Op> { [Truncate(Counter)] + Spell(Counter, text) }

  function CounterOps(m: nat, fault: CounterFault): seq<Op> {
    if fault.TruncateFails? then [] else Rewriting(Rewritten(m, fault))
  }

  /** Once the counter is read, the plan is to write the next number, as far as the fault lets. */
  lemma NextPlan(c: Codec, files: Files, fault: CounterFault, m: nat)
    requires var parsed := ParseCounter(if Counter in files then files[Counter] else "");
      parsed.Some? && m == Highest(Sequences(c, files), parsed.value) + 1
    ensures NextReceiptSequence(c, files, fault) ==
            SequencePlan(Ready(files) + CounterOps(m, fault), if fault.CounterWorks? then Some(m) else None)
  {
    assert Ready(files) + [] == Ready(files);
    assert Ready(files) + Rewriting(Rewritten(m, fault)) ==
           Ready(files) + [Truncate(Counter)] + Spell(Counter, Rewritten(m, fault));
  }

  /** Counting either stops before it changes the number, or writes some of the next one. */
  lemma CountingOps(c: Codec, files: Files, fault: CounterFault)
    ensures var ops, next := NextReceiptSequence(c, files, fault).ops,
        NextReceiptSequence(c, files, CounterWorks).sequence;
      ops == Ready(files) || (next.Some? && ops == Ready(files) + Rewriting(Rewritten(next.value, fault)))
  {
    var parsed := ParseCounter(if Counter in files then files[Counter] else "");
    if parsed.Some? {
      var m := Highest(Sequences(c, files), parsed.value) + 1;
      NextPlan(c, files, fault, m);
      NextPlan(c, files, CounterWorks, m);
    }
  }

  lemma CountingIsNumbered(c: Codec, d: Disk, fault: CounterFault, k: nat)
    requires Inv(c, d) && Numbered(d, k)
    ensures var ops := NextReceiptSequence(c, d.files, fault).ops;
      NumberedAll(c, d, ops, k + 1) && Numbered(ApplyAll(c, d, ops), k + 1)
  {
    var next := NextReceiptSequence(c, d.files, CounterWorks).sequence;
    NumberedUpTo(d, k, k + 1);
    NextNumberIsWithin(c, d, CounterWorks, k);
    CountingOps(c, d.files, fault);
    ReadyCounterIsNumbered(c, d, k + 1);
    if next.Some? {
      CountedTextIsNumbered(c, d, Rewritten(next.value, fault), next.value, k + 1);
    }
  }

  lemma CountedTextIsNumbered(c: Codec, d: Disk, text: string, m: nat, k: nat)
    requires Numbered(d, k) && m <= k && text <= Decimal(m) + "\n"
    ensures var ops := Ready(d.files) + Rewriting(text);
      NumberedAll(c, d, ops, k) && Numbered(ApplyAll(c, d, ops), k)
  {
    ReadyCounterIsNumbered(c, d, k);
    RewritingIsNumbered(c, ApplyAll(c, d, Ready(d.files)), text, m, k);
    NumberedConcat(c, d, Ready(d.files), Rewriting(text), k);
    ApplyConcat(c, d, Ready(d.files), Rewriting(text));
  }

  lemma ReadyCounterIsNumbered(c: Codec, d: Disk, k: nat)
    requires Numbered(d, k)
    ensures NumberedAll(c, d, Ready(d.files), k)
    ensures Numbered(ApplyAll(c, d, Ready(d.files)), k) && Counter in ApplyAll(c, d, Ready(d.files)).files
  {
    if Counter !in d.files {
      assert "" <= Decimal(0) + "\n";
      assert [Create(Counter)][1..] == [];
    }
  }

  lemma RewritingIsNumbered(c: Codec, e: Disk, text: string, m: nat, k: nat)
    requires Numbered(e, k) && Counter in e.files && m <= k && text <= Decimal(m) + "\n"
    ensures NumberedAll(c, e, Rewriting(text), k) && Numbered(ApplyAll(c, e, Rewriting(text)), k)
  {
    var f := Apply(c, e, Truncate(Counter));
    assert "" <= Decimal(0) + "\n" && "" + text == text;
    SpellingIsNumbered(c, f, text, m, k);
    assert Rewriting(text)[1..] == Spell(Counter, text);
  }

  // ----- publishing -----

  lemma PublishingIsNumbered(c: Codec, d: Disk, id: string, part: Name, k: nat)
    requires Numbered(d, k) && part in d.files
    requires c.decode(d.files[part]).Some? ==> c.decode(d.files[part]).value.sequence <= k
    ensures Numbered(Apply(c, d, Link(part, Receipt(id))), k)
  {
  }

  /** Storing a receipt numbered at most `k`, under every fault. */
  lemma StoringIsNumbered(c: Codec, d: Disk, id: string, r: ReceiptDoc, token: nat, fault: StoreFault, k: nat)
    requires Numbered(d, k) && Survives(c, r) && r.sequence <= k
    ensures var ops := StoreNoReplace(d.files, Receipt(id), c.encode(r), token, fault).ops;
      NumberedAll(c, d, ops, k)
  {
    var part := Part(Receipt(id), token);
    if Receipt(id) !in d.files && part !in d.files {
      var value := if fault.BeforeLink? then Prefix(c.encode(r), fault.written) else c.encode(r);
      MildOpsAreNumbered(c, d, Written(part, value), k);
      WrittenApplies(c, d, part, value);
      StoreTailIsNumbered(c, d.(files := d.files[part := value]), id, part, fault, k);
      NumberedConcat(c, d, Written(part, value), StoreTail(id, part, fault), k);
      StorePlanIsWriteThenTail(d.files, id, c.encode(r), token, fault);
    }
  }

  lemma StoreTailIsNumbered(c: Codec, e: Disk, id: string, part: Name, fault: StoreFault, k: nat)
    requires Numbered(e, k) && part in e.files && part.Part?
    requires !fault.BeforeLink? ==> c.decode(e.files[part]).Some? && c.decode(e.files[part]).value.sequence <= k
    ensures NumberedAll(c, e, StoreTail(id, part, fault), k)
  {
    if fault.BeforeLink? {
      MildOpsAreNumbered(c, e, [Unlink(part)], k);
    } else {
      PublishingIsNumbered(c, e, id, part, k);
      MildOpsAreNumbered(c, Apply(c, e, Link(part, Receipt(id))), StoreTail(id, part, fault)[1..], k);
    }
  }
}
