/** Datatypes and sequence facts shared by every component of the model: options, the two retry
    backoffs, Python's order on text, stable sorting and what it determines, permutations and
    repeated elements of sequences, decimal numerals, and the sizes of finite sets. */
module Common {

  datatype Option<+T> = None | Some(value: T)

  function Min(a: int, b: int): int { if a <= b then a else b }

  function Max(a: int, b: int): int { if a >= b then a else b }

  /** Python's `a or b` on text. */
  function Or(a: string, b: string): string { if a != "" then a else b }

  function Pow2(n: nat): nat { if n == 0 then 1 else 2 * Pow2(n - 1) }

  /** Exponential backoff as both retry-delay functions compute it: the exponent
      is clamped to 0..16 before the result is capped. */
  function Backoff(base: nat, cap: nat, failures: nat): nat {
    Min(base * Pow2(Min(Max(failures - 1, 0), 16)), cap)
  }

  lemma {:induction false} Pow2Grows(a: nat, b: nat)
    requires a <= b
    ensures 1 <= Pow2(a) <= Pow2(b)
    decreases b
  {
    if a < b {
      Pow2Grows(a, b - 1);
    } else if a > 0 {
      Pow2Grows(a - 1, b - 1);
    }
  }

  /** The clamp on the exponent never shows: once 16 doublings pass the cap, the
      clamped delay is the plain capped doubling for every failure count. */
  lemma BackoffIsCappedDoubling(base: nat, cap: nat, failures: nat)
    requires failures >= 1
    requires base * Pow2(16) >= cap
    ensures Backoff(base, cap, failures) == Min(base * Pow2(failures - 1), cap)
  {
    var clamped, plain := Pow2(16), Pow2(failures - 1);
    if failures - 1 > 16 {
      Pow2Grows(16, failures - 1);
      ScaleGrows(base, clamped, plain);
    }
  }

  lemma SixteenDoublings()
    ensures Pow2(16) == 65536
  {
    assert Pow2(4) == 16;
    assert Pow2(8) == 256;
    assert Pow2(12) == 4096;
  }

  lemma ScaleGrows(base: nat, a: nat, b: nat)
    requires a <= b
    ensures base * a <= base * b
  {
  }

  /** Two sequences with the same elements, both strictly ordered by a relation
      no two elements satisfy both ways, are the same sequence. */
  lemma {:induction false} StrictOrderIsUnique<T(!new)>(before: (T, T) -> bool, a: seq<T>, b: seq<T>)
    requires forall x :: x in a <==> x in b
    requires forall i, j :: 0 <= i < j < |a| ==> before(a[i], a[j])
    requires forall i, j :: 0 <= i < j < |b| ==> before(b[i], b[j])
    requires forall x, y :: before(x, y) ==> !before(y, x)
    ensures a == b
  {
    assert a != [] ==> a[0] in b;
    assert b != [] ==> b[0] in a;
    if a != [] && b != [] {
      assert a[0] in b && b[0] in a;
      assert a[0] == b[0];
      assert a == [a[0]] + a[1..] && b == [b[0]] + b[1..];
      forall x ensures x in a[1..] <==> x in b[1..] {
        assert x in a[1..] ==> before(a[0], x);
        assert x in b[1..] ==> before(b[0], x);
        assert x in a[1..] ==> x in a && x != b[0];
        assert x in b[1..] ==> x in b && x != a[0];
      }
      StrictOrderIsUnique(before, a[1..], b[1..]);
    }
  }

  lemma TwoPositions<T>(s: seq<T>, x: T) returns (m: nat, n: nat)
    requires multiset(s)[x] >= 2
    ensures m < n < |s| && s[m] == x == s[n]
  {
    m :| 0 <= m < |s| && s[m] == x;
    assert s == s[..m] + [x] + s[m + 1..];
    assert multiset(s) == multiset(s[..m]) + multiset{x} + multiset(s[m + 1..]);
    if x in s[..m] {
      var k :| 0 <= k < m && s[..m][k] == x;
      m, n := k, m;
    } else {
      assert x in multiset(s[m + 1..]);
      assert x in s[m + 1..];
      var k: nat :| k < |s[m + 1..]| && s[m + 1..][k] == x;
      n := m + 1 + k;
    }
  }

  lemma RepeatedElement<T>(s: seq<T>, i: nat, j: nat)
    requires i < j < |s| && s[i] == s[j]
    ensures multiset(s)[s[i]] >= 2
  {
    assert s == s[..j] + s[j..];
    assert s[i] in s[..j] && s[i] in s[j..];
    assert multiset(s) == multiset(s[..j]) + multiset(s[j..]);
  }

  /** A symmetric relation between all pairs of positions does not depend on the
      order of the sequence. */
  lemma PairwiseInAnyOrder<T(!new)>(rel: (T, T) -> bool, a: seq<T>, b: seq<T>)
    requires multiset(a) == multiset(b)
    requires forall x, y :: rel(x, y) ==> rel(y, x)
    requires forall i, j :: 0 <= i < j < |a| ==> rel(a[i], a[j])
    ensures forall i, j :: 0 <= i < j < |b| ==> rel(b[i], b[j])
  {
    forall i, j | 0 <= i < j < |b| ensures rel(b[i], b[j]) {
      if b[i] == b[j] {
        RepeatedElement(b, i, j);
        var m, n := TwoPositions(a, b[i]);
      } else {
        assert b[i] in multiset(b) && b[j] in multiset(b);
        assert b[i] in a && b[j] in a;
        var m :| 0 <= m < |a| && a[m] == b[i];
        var n :| 0 <= n < |a| && a[n] == b[j];
        assert if m < n then rel(a[m], a[n]) else rel(a[n], a[m]);
      }
    }
  }

  /** The order Python gives to strings: code point by code point, a proper
      prefix first. */
  predicate StringLess(a: string, b: string) {
    b != [] && (a == [] || a[0] < b[0] || (a[0] == b[0] && StringLess(a[1..], b[1..])))
  }

  /** The first difference decides. */
  predicate DiffersAt(a: string, b: string, k: nat) {
    k < |a| && k < |b| && a[..k] == b[..k] && a[k] < b[k]
  }

  /** Python's order on text: a proper prefix comes first, and otherwise the first character that
      differs decides. */
  lemma {:induction false} StringLessIff(a: string, b: string)
    ensures StringLess(a, b) <==> (|a| < |b| && a == b[..|a|]) || exists k: nat :: DiffersAt(a, b, k)
  {
    if a != "" && b != "" && a[0] == b[0] {
      var x, y := a[1..], b[1..];
      StringLessIff(x, y);
      assert a == [a[0]] + x && b == [b[0]] + y;
      if k: nat :| DiffersAt(x, y, k) {
        assert a[..k + 1] == [a[0]] + x[..k] && b[..k + 1] == [b[0]] + y[..k];
        assert DiffersAt(a, b, k + 1);
      }
      if k: nat :| DiffersAt(a, b, k) {
        assert x[..k - 1] == a[..k][1..] && y[..k - 1] == b[..k][1..];
        assert DiffersAt(x, y, k - 1);
      }
      if |a| < |b| && a == b[..|a|] {
        assert x == a[1..] == b[..|a|][1..] == y[..|x|];
      }
      if |x| < |y| && x == y[..|x|] {
        assert b[..|a|] == [b[0]] + y[..|x|];
      }
    } else if a != "" && b != "" {
      assert a[0] < b[0] ==> DiffersAt(a, b, 0);
      forall k: nat | DiffersAt(a, b, k) ensures a[0] < b[0] {
        assert k > 0 ==> a[..k][0] == b[..k][0];
      }
    }
  }

  lemma {:induction false} StringLessIsStrict(a: string, b: string)
    ensures StringLess(a, b) ==> !StringLess(b, a) && a != b
    ensures StringLess(a, b) || a == b || StringLess(b, a)
  {
    if a != [] && b != [] && a[0] == b[0] {
      StringLessIsStrict(a[1..], b[1..]);
      assert a == [a[0]] + a[1..] && b == [b[0]] + b[1..];
    }
  }

  lemma {:induction false} StringLessIsTransitive(a: string, b: string, c: string)
    requires StringLess(a, b) && StringLess(b, c)
    ensures StringLess(a, c)
  {
    if a != [] && b[0] == c[0] && a[0] == b[0] {
      StringLessIsTransitive(a[1..], b[1..], c[1..]);
    }
  }

  /** `sorted`: the built-in stable sort, by a strict order on keys. */
  function Insert<T>(less: (T, T) -> bool, x: T, s: seq<T>): seq<T> {
    if s == [] || !less(s[0], x) then [x] + s else [s[0]] + Insert(less, x, s[1..])
  }

  function Sort<T>(less: (T, T) -> bool, s: seq<T>): seq<T> {
    if s == [] then [] else Insert(less, s[0], Sort(less, s[1..]))
  }

  /** Whatever the key order, sorting keeps exactly the elements. */
  lemma {:induction false} InsertPermutes<T>(less: (T, T) -> bool, x: T, s: seq<T>)
    ensures multiset(Insert(less, x, s)) == multiset(s) + multiset{x}
  {
    if s != [] && less(s[0], x) {
      InsertPermutes(less, x, s[1..]);
      assert s == [s[0]] + s[1..];
    }
  }

  lemma {:induction false} SortPermutes<T>(less: (T, T) -> bool, s: seq<T>)
    ensures multiset(Sort(less, s)) == multiset(s)
  {
    if s != [] {
      SortPermutes(less, s[1..]);
      InsertPermutes(less, s[0], Sort(less, s[1..]));
      assert s == [s[0]] + s[1..];
    }
  }

  ghost predicate Ascending<T>(less: (T, T) -> bool, s: seq<T>) {
    forall i, j :: 0 <= i < j < |s| ==> !less(s[j], s[i])
  }

  /** What `sorted` needs of the key order: asymmetric, and "not after" composes. */
  ghost predicate WeakOrder<T(!new)>(less: (T, T) -> bool) {
    && (forall x, y :: less(x, y) ==> !less(y, x))
    && (forall x, y, z :: !less(y, x) && !less(z, y) ==> !less(z, x))
  }

  lemma {:induction false} InsertKeeps<T(!new)>(less: (T, T) -> bool, x: T, s: seq<T>)
    requires WeakOrder(less) && Ascending(less, s)
    ensures Ascending(less, Insert(less, x, s))
  {
    if s == [] {
    } else if !less(s[0], x) {
      forall j | 0 <= j < |s| ensures !less(s[j], x) {
        assert !less(s[j], s[0]);
      }
    } else {
      var rest := Insert(less, x, s[1..]);
      InsertKeeps(less, x, s[1..]);
      InsertPermutes(less, x, s[1..]);
      assert s == [s[0]] + s[1..];
      forall j | 0 <= j < |rest| ensures !less(rest[j], s[0]) {
        assert rest[j] in multiset(rest);
        assert rest[j] == x || rest[j] in s[1..];
      }
    }
  }

  lemma {:induction false} SortSorts<T(!new)>(less: (T, T) -> bool, s: seq<T>)
    requires WeakOrder(less)
    ensures Ascending(less, Sort(less, s))
    ensures multiset(Sort(less, s)) == multiset(s)
  {
    SortPermutes(less, s);
    if s != [] {
      SortSorts(less, s[1..]);
      InsertKeeps(less, s[0], Sort(less, s[1..]));
    }
  }

  // ----- decimal numerals -----

  function Digit(d: nat): char
    requires d < 10
  {
    ('0' as int + d) as char
  }

  function Decimal(n: nat): string {
    if n < 10 then [Digit(n)] else Decimal(n / 10) + [Digit(n % 10)]
  }

  predicate IsDigit(ch: char) { '0' <= ch <= '9' }

  predicate AllDigits(s: string) { forall k :: 0 <= k < |s| ==> IsDigit(s[k]) }

  function Value(s: string): nat
    requires AllDigits(s)
  {
    if s == "" then 0 else Value(s[..|s| - 1]) * 10 + (s[|s| - 1] as int - '0' as int)
  }

  lemma {:induction false} DecimalReads(n: nat)
    ensures Decimal(n) != "" && AllDigits(Decimal(n)) && Value(Decimal(n)) == n
  {
    if n >= 10 {
      DecimalReads(n / 10);
      assert Decimal(n)[..|Decimal(n)| - 1] == Decimal(n / 10);
    } else {
      assert Decimal(n)[..0] == "";
    }
  }

  function Pow10(n: nat): nat { if n == 0 then 1 else 10 * Pow10(n - 1) }

  lemma {:induction false} DecimalLength(n: nat, digits: nat)
    requires digits >= 1 && n < Pow10(digits)
    ensures |Decimal(n)| <= digits
    decreases n
  {
    if n >= 10 {
      assert Pow10(1) == 10 && digits >= 2;
      DecimalLength(n / 10, digits - 1);
    }
  }

  lemma {:induction false} Pow10Grows(a: nat, b: nat)
    requires a <= b
    ensures Pow10(a) <= Pow10(b)
    decreases b
  {
    if a < b {
      Pow10Grows(a, b - 1);
    }
  }

  lemma {:induction false} SubsetIsNoLarger<T>(small: set<T>, large: set<T>)
    requires small <= large
    ensures |small| <= |large|
    decreases |small|
  {
    if x :| x in small {
      SubsetIsNoLarger(small - {x}, large - {x});
    }
  }
}
