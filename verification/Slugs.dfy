/** Finding a free slug for a new category: numbered suffixes on a truncated base. */
module Slugs {
  import opened Common

  const SLUG_LENGTH: int := 140

  function SuffixText(n: nat): string { if n == 1 then "" else "-" + Decimal(n) }

  /** `text[:end]`, where a negative end counts from the back. */
  function Cut(text: string, end: int): string {
    if end >= 0 then text[..Min(end, |text|)] else text[..Max(0, |text| + end)]
  }

  function SlugAt(base: string, n: nat): string { Cut(base, SLUG_LENGTH - |SuffixText(n)|) + SuffixText(n) }

  /** A free base is used as it is, cut at 140; a numbered slug is as much of the base as fits, a dash,
      and the number, 140 at most. */
  lemma SlugsKeepTheBase(base: string, n: nat)
    requires n >= 1 && |Decimal(n)| < 139
    ensures n == 1 ==> SlugAt(base, n) == if |base| <= 140 then base else base[..140]
    ensures n >= 2 ==>
              var kept := Min(|base|, 139 - |Decimal(n)|);
              SlugAt(base, n) == base[..kept] + "-" + Decimal(n) && |SlugAt(base, n)| <= 140
  {
    if n >= 2 {
      var kept := Min(|base|, 139 - |Decimal(n)|);
      assert base[..kept] + ("-" + Decimal(n)) == base[..kept] + "-" + Decimal(n);
    } else {
      assert Cut(base, 140) + "" == Cut(base, 140);
      assert base[..|base|] == base;
    }
  }

  /** What follows the last dash. */
  function AfterDash(s: string): string {
    if s == "" || s[|s| - 1] == '-' then "" else AfterDash(s[..|s| - 1]) + [s[|s| - 1]]
  }

  /** `s` is anything, a dash, and then `digits`. */
  lemma {:induction false} AfterDashReads(s: string, digits: string)
    requires AllDigits(digits) && |s| > |digits|
    requires s[|s| - |digits|..] == digits && s[|s| - |digits| - 1] == '-'
    ensures AfterDash(s) == digits
  {
    if digits != "" {
      var shorter, last := digits[..|digits| - 1], digits[|digits| - 1];
      assert s[|s| - 1] == s[|s| - |digits|..][|digits| - 1] == last && IsDigit(last);
      assert s[..|s| - 1][|s| - |digits|..] == shorter;
      AfterDashReads(s[..|s| - 1], shorter);
      assert digits == shorter + [last];
    }
  }

  lemma SuffixReads(front: string, digits: string)
    requires AllDigits(digits)
    ensures AfterDash(front + ("-" + digits)) == digits
  {
    var s := front + ("-" + digits);
    assert s[|front|] == '-' && s[|front| + 1..] == digits;
    AfterDashReads(s, digits);
  }

  lemma SlugEndsInItsNumber(base: string, n: nat)
    requires n >= 2
    ensures AfterDash(SlugAt(base, n)) == Decimal(n)
  {
    DecimalReads(n);
    SuffixReads(Cut(base, SLUG_LENGTH - |SuffixText(n)|), Decimal(n));
  }

  /** However the base is truncated, no two numbered suffixes give the same slug. */
  lemma NumberedSlugsDiffer(base: string, m: nat, n: nat)
    requires 2 <= m && 2 <= n && m != n
    ensures SlugAt(base, m) != SlugAt(base, n)
  {
    SlugEndsInItsNumber(base, m);
    SlugEndsInItsNumber(base, n);
    DecimalReads(m);
    DecimalReads(n);
  }

  /** The numbered slugs below `n`. */
  function Tried(base: string, n: nat): set<string> {
    if n <= 2 then {} else Tried(base, n - 1) + {SlugAt(base, n - 1)}
  }

  lemma {:induction false} TriedCount(base: string, n: nat)
    ensures |Tried(base, n)| == Max(0, n - 2)
    ensures forall s :: s in Tried(base, n) ==> exists m: nat :: 2 <= m < n && s == SlugAt(base, m)
  {
    if n > 2 {
      TriedCount(base, n - 1);
      if SlugAt(base, n - 1) in Tried(base, n - 1) {
        var m: nat :| 2 <= m < n - 1 && SlugAt(base, n - 1) == SlugAt(base, m);
        NumberedSlugsDiffer(base, m, n - 1);
        assert false;
      }
      assert SlugAt(base, n - 1) == SlugAt(base, n - 1);
    }
  }

  ghost predicate UsedBelow(base: string, used: set<string>, n: nat) {
    forall m: nat :: 1 <= m < n ==> SlugAt(base, m) in used
  }

  lemma {:induction false} TriedAreUsed(base: string, used: set<string>, n: nat)
    requires UsedBelow(base, used, n)
    ensures Tried(base, n) <= used
    ensures n <= |used| + 2
  {
    TriedCount(base, n);
    forall s | s in Tried(base, n) ensures s in used {
      var m: nat :| 2 <= m < n && s == SlugAt(base, m);
    }
    SubsetIsNoLarger(Tried(base, n), used);
  }

  ghost predicate FirstFree(base: string, used: set<string>, slug: string) {
    slug !in used && exists n: nat :: n >= 1 && slug == SlugAt(base, n) && UsedBelow(base, used, n)
  }

  /** The first free slug. The search ends because every number it passes costs a slug in use. */
  method FreeSlug(base: string, used: set<string>) returns (slug: string)
    ensures FirstFree(base, used, slug)
  {
    var suffix: nat := 1;
    slug := SlugAt(base, suffix);
    while slug in used
      invariant suffix >= 1 && slug == SlugAt(base, suffix)
      invariant UsedBelow(base, used, suffix)
      decreases |used| + 2 - suffix
    {
      assert UsedBelow(base, used, suffix + 1);
      TriedAreUsed(base, used, suffix + 1);
      suffix := suffix + 1;
      slug := SlugAt(base, suffix);
    }
  }
}
